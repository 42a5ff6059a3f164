/**
 The strict decoder of one JSON string literal that discovery applies to model IDs, against
 the string grammar of section 7 of RFC 8259 and the UTF-8 of section 3 of RFC 3629.
 */
module JsonString {
  import opened Bytes

  const QUOTE: Byte := 0x22
  const BACKSLASH: Byte := 0x5C
  const LETTER_U: Byte := 0x75

  datatype Error =
    | NotAString
    | ControlCharacter
    | TruncatedEscape
    | InvalidEscape
    | TruncatedUnicode
    | InvalidUnicode
    | LoneSurrogate
    | InvalidPair

  datatype Decoded = Text(bytes: Bytes) | Refused(error: Error)

  // ----- characters -----

  predicate IsScalar(c: int) {
    0 <= c < 0xD800 || 0xE000 <= c < 0x110000
  }

  predicate IsHigh(c: int) {
    0xD800 <= c <= 0xDBFF
  }

  predicate IsLow(c: int) {
    0xDC00 <= c <= 0xDFFF
  }

  function Utf8(c: int): (r: Bytes)
    requires 0 <= c < 0x110000
    ensures 1 <= |r| <= 4
  {
    if c < 0x80 then [c as Byte]
    else if c < 0x800 then [(0xC0 + c / 0x40) as Byte, (0x80 + c % 0x40) as Byte]
    else if c < 0x10000 then [(0xE0 + c / 0x1000) as Byte, (0x80 + c / 0x40 % 0x40) as Byte, (0x80 + c % 0x40) as Byte]
    else [(0xF0 + c / 0x40000) as Byte, (0x80 + c / 0x1000 % 0x40) as Byte, (0x80 + c / 0x40 % 0x40) as Byte, (0x80 + c % 0x40) as Byte]
  }

  /** The value of a hexadecimal digit in either case, or -1. */
  function Digit(b: Byte): (d: int)
    ensures -1 <= d < 16
  {
    if 0x30 <= b <= 0x39 then b as int - 0x30
    else if 0x61 <= b <= 0x66 then b as int - 0x61 + 10
    else if 0x41 <= b <= 0x46 then b as int - 0x41 + 10
    else -1
  }

  predicate IsHex(s: Bytes) {
    forall k :: 0 <= k < |s| ==> Digit(s[k]) >= 0
  }

  function HexValue(s: Bytes): (v: nat)
    requires IsHex(s)
  {
    if s == [] then 0 else HexValue(s[..|s| - 1]) * 16 + Digit(s[|s| - 1])
  }

  lemma HexValueOf4(s: Bytes)
    requires |s| == 4 && IsHex(s)
    ensures HexValue(s) == Digit(s[0]) * 4096 + Digit(s[1]) * 256 + Digit(s[2]) * 16 + Digit(s[3]) <= 0xFFFF
  {
    assert s[..3][..2] == s[..2] && s[..2][..1] == s[..1] && s[..1][..0] == [];
    assert HexValue(s[..1]) == Digit(s[0]);
    assert HexValue(s[..2]) == Digit(s[0]) * 16 + Digit(s[1]);
    assert HexValue(s[..3]) == Digit(s[0]) * 256 + Digit(s[1]) * 16 + Digit(s[2]);
  }

  lemma HexFits(s: Bytes)
    requires |s| == 4 && IsHex(s)
    ensures HexValue(s) % 0x10000 == HexValue(s)
  {
    HexValueOf4(s);
  }

  lemma ShiftIn(v: nat, d: nat)
    requires d < 16
    ensures v % 0x10000 * 16 % 0x10000 + d == (v * 16 + d) % 0x10000
  {
    var q, m := v / 0x10000, v % 0x10000;
    var a, b := m / 0x1000, m % 0x1000;
    assert v * 16 + d == (q * 16 + a) * 0x10000 + (b * 16 + d);
    assert m * 16 == a * 0x10000 + b * 16;
  }

  /** jsonHex16: its accumulator is a uint16. */
  method JsonHex16(b: Bytes) returns (ok: bool, v: int)
    ensures ok <==> IsHex(b)
    ensures ok ==> v == HexValue(b) % 0x10000
    ensures ok && |b| == 4 ==> v == HexValue(b)
  {
    v := 0;
    for i := 0 to |b|
      invariant IsHex(b[..i]) && v == HexValue(b[..i]) % 0x10000
    {
      var d := Digit(b[i]);
      assert b[..i + 1][..i] == b[..i];
      if d < 0 {
        return false, 0;
      }
      ShiftIn(HexValue(b[..i]), d);
      v := v * 16 % 0x10000 + d;
    }
    assert b[..|b|] == b;
    if |b| == 4 {
      HexFits(b);
    }
    ok := true;
  }

  /** What the byte after a backslash stands for. */
  function Short(esc: Byte): (r: int)
    ensures r == -1 || 0 <= r < 0x80
  {
    if esc == QUOTE || esc == BACKSLASH || esc == 0x2F then esc as int
    else if esc == 0x62 then 8
    else if esc == 0x66 then 12
    else if esc == 0x6E then 10
    else if esc == 0x72 then 13
    else if esc == 0x74 then 9
    else -1
  }

  /** The eight short escapes: quotation mark, reverse solidus, solidus, b, f, n, r and t, and no other byte. */
  lemma ShortEscapes(esc: Byte)
    ensures Short(esc) == match esc as int
              case 0x22 => 0x22
              case 0x5C => 0x5C
              case 0x2F => 0x2F
              case 0x62 => 0x08
              case 0x66 => 0x0C
              case 0x6E => 0x0A
              case 0x72 => 0x0D
              case 0x74 => 0x09
              case _ => -1
  {
  }

  const LOWER_DIGITS: Bytes := [0x30, 0x31, 0x32, 0x33, 0x34, 0x35, 0x36, 0x37, 0x38, 0x39, 0x61, 0x62, 0x63, 0x64, 0x65, 0x66]
  const UPPER_DIGITS: Bytes := [0x30, 0x31, 0x32, 0x33, 0x34, 0x35, 0x36, 0x37, 0x38, 0x39, 0x41, 0x42, 0x43, 0x44, 0x45, 0x46]

  /** The sixteen digits in either case stand for their positions; nothing else is a digit. */
  lemma DigitsAreTheirPositions(b: Byte, v: nat)
    requires v < 16
    ensures Digit(b) == v <==> b == LOWER_DIGITS[v] || b == UPPER_DIGITS[v]
  {
  }

  function PairValue(high: int, low: int): (c: int)
    requires IsHigh(high) && IsLow(low)
    ensures 0x10000 <= c <= 0x10FFFF
  {
    0x10000 + (high - 0xD800) * 0x400 + (low - 0xDC00)
  }

  // ----- the grammar: what may stand between the quotes -----

  /** One element of a literal's body. Hexadecimal digits keep their case. */
  datatype Unit =
    | Raw(b: Byte)
    | Escape(letter: Byte)
    | Unicode(hex: Bytes)
    | Pair(high: Bytes, low: Bytes)

  predicate IsHex4(s: Bytes) {
    |s| == 4 && IsHex(s)
  }

  predicate ValidUnit(u: Unit) {
    match u
    case Raw(b) => b >= 0x20 && b != BACKSLASH
    case Escape(letter) => Short(letter) >= 0
    case Unicode(hex) => IsHex4(hex) && !IsHigh(HexValue(hex)) && !IsLow(HexValue(hex))
    case Pair(high, low) => IsHex4(high) && IsHex4(low) && IsHigh(HexValue(high)) && IsLow(HexValue(low))
  }

  /** How a unit is written. */
  function Written(u: Unit): Bytes {
    match u
    case Raw(b) => [b]
    case Escape(letter) => [BACKSLASH, letter]
    case Unicode(hex) => [BACKSLASH, LETTER_U] + hex
    case Pair(high, low) => [BACKSLASH, LETTER_U] + high + [BACKSLASH, LETTER_U] + low
  }

  /** What a unit stands for. */
  function Meaning(u: Unit): Bytes
    requires ValidUnit(u)
  {
    match u
    case Raw(b) => [b]
    case Escape(letter) => Utf8(Short(letter))
    case Unicode(hex) => HexValueOf4(hex); Utf8(HexValue(hex))
    case Pair(high, low) => Utf8(PairValue(HexValue(high), HexValue(low)))
  }

  predicate ValidUnits(us: seq<Unit>) {
    forall k :: 0 <= k < |us| ==> ValidUnit(us[k])
  }

  function WrittenAll(us: seq<Unit>): Bytes {
    Flat(us, Written)
  }

  function MeaningAll(us: seq<Unit>): Bytes
    requires ValidUnits(us)
  {
    if us == [] then [] else Meaning(us[0]) + MeaningAll(us[1..])
  }

  // ----- the decoder -----

  /** One turn of the loop at the start of s: the bytes consumed and written, or the refusal. */
  datatype Turn = Took(count: nat, out: Bytes) | Stops(error: Error)

  /** The second half of a surrogate pair whose first half, at the start of s, has the value code. */
  function LowUnit(s: Bytes, code: int): (t: Turn)
    requires IsHigh(code)
    ensures t.Took? ==> t.count == 12 <= |s|
  {
    if |s| < 12 || s[6] != BACKSLASH || s[7] != LETTER_U then Stops(LoneSurrogate)
    else if !IsHex(s[8..12]) || !IsLow(HexValue(s[8..12])) then Stops(InvalidPair)
    else Took(12, Utf8(PairValue(code, HexValue(s[8..12]))))
  }

  function FirstUnit(s: Bytes): (t: Turn)
    requires s != []
    ensures t.Took? ==> 0 < t.count <= |s|
  {
    if s[0] != BACKSLASH then
      if s[0] < 0x20 then Stops(ControlCharacter) else Took(1, [s[0]])
    else if |s| < 2 then Stops(TruncatedEscape)
    else if Short(s[1]) >= 0 then Took(2, [Short(s[1]) as Byte])
    else if s[1] != LETTER_U then Stops(InvalidEscape)
    else if |s| < 6 then Stops(TruncatedUnicode)
    else if !IsHex(s[2..6]) then Stops(InvalidUnicode)
    else
      HexValueOf4(s[2..6]);
      var code := HexValue(s[2..6]);
      if IsHigh(code) then LowUnit(s, code)
      else if IsLow(code) then Stops(LoneSurrogate)
      else Took(6, Utf8(code))
  }

  function After(out: Bytes, d: Decoded): Decoded {
    match d
    case Text(bytes) => Text(out + bytes)
    case Refused(e) => d
  }

  /** The whole loop from s on. */
  function DecodeBody(s: Bytes): Decoded {
    if s == [] then Text([])
    else match FirstUnit(s)
      case Stops(e) => Refused(e)
      case Took(count, out) => After(out, DecodeBody(s[count..]))
  }

  function Decode(b: Bytes): Decoded {
    if |b| < 2 || b[0] != QUOTE || b[|b| - 1] != QUOTE then Refused(NotAString)
    else DecodeBody(b[1..|b| - 1])
  }

  lemma Advance(b: Bytes, i: nat, end: nat, out: Bytes, t: Turn)
    requires i < end <= |b| && t == FirstUnit(b[i..end])
    ensures t.Took? ==> i + t.count <= end && After(out, DecodeBody(b[i..end])) == After(out + t.out, DecodeBody(b[i + t.count..end]))
    ensures t.Stops? ==> After(out, DecodeBody(b[i..end])) == Refused(t.error)
  {
    if t.Took? {
      assert b[i..end][t.count..] == b[i + t.count..end];
      var rest := DecodeBody(b[i + t.count..end]);
      if rest.Text? {
        Assoc(out, t.out, rest.bytes);
      }
    }
  }

  /** The \u branch on s, which starts at the backslash. */
  method DecodeUnicode(s: Bytes) returns (t: Turn)
    requires |s| >= 2 && s[0] == BACKSLASH && s[1] == LETTER_U
    ensures t == FirstUnit(s)
  {
    if 6 > |s| {
      return Stops(TruncatedUnicode);
    }
    var ok, code := JsonHex16(s[2..6]);
    if !ok {
      return Stops(InvalidUnicode);
    }
    if 0xD800 <= code <= 0xDBFF {
      t := DecodeLow(s, code);
    } else if 0xDC00 <= code <= 0xDFFF {
      t := Stops(LoneSurrogate);
    } else {
      t := Took(6, Utf8(code));
    }
  }

  method DecodeLow(s: Bytes, code: int) returns (t: Turn)
    requires IsHigh(code)
    ensures t == LowUnit(s, code)
  {
    if 12 > |s| || s[6] != BACKSLASH || s[7] != LETTER_U {
      return Stops(LoneSurrogate);
    }
    var ok, low := JsonHex16(s[8..12]);
    if !ok {
      return Stops(InvalidPair);
    }
    if low < 0xDC00 || low > 0xDFFF {
      return Stops(InvalidPair);
    }
    return Took(12, Utf8(PairValue(code, low)));
  }

  /** The body of the loop: a raw byte, a short escape, or the \u branch. */
  method DecodeTurn(s: Bytes) returns (t: Turn)
    requires s != []
    ensures t == FirstUnit(s)
  {
    var c := s[0];
    if c != BACKSLASH {
      if c < 0x20 {
        return Stops(ControlCharacter);
      }
      return Took(1, [c]);
    }
    if 1 >= |s| {
      return Stops(TruncatedEscape);
    }
    var esc := s[1];
    if Short(esc) >= 0 {
      return Took(2, [Short(esc) as Byte]);
    }
    if esc != LETTER_U {
      return Stops(InvalidEscape);
    }
    t := DecodeUnicode(s);
  }

  /** What the loop has written so far, and the rest of the body still to decode, make up the answer. */
  ghost predicate OnTheWay(b: Bytes, i: nat, out: Bytes, answer: Decoded) {
    1 <= i < |b| && After(out, DecodeBody(b[i..|b| - 1])) == answer
  }

  lemma OnTheWayStart(b: Bytes)
    requires |b| >= 2 && b[0] == QUOTE && b[|b| - 1] == QUOTE
    ensures OnTheWay(b, 1, [], Decode(b))
  {
  }

  lemma OnTheWayStep(b: Bytes, i: nat, out: Bytes, answer: Decoded, t: Turn)
    requires OnTheWay(b, i, out, answer) && i < |b| - 1 && t == FirstUnit(b[i..|b| - 1])
    ensures if t.Took? then OnTheWay(b, i + t.count, out + t.out, answer) else answer == Refused(t.error)
  {
    Advance(b, i, |b| - 1, out, t);
  }

  lemma OnTheWayEnd(b: Bytes, out: Bytes, answer: Decoded)
    requires |b| >= 2 && OnTheWay(b, |b| - 1, out, answer)
    ensures answer == Text(out)
  {
    assert out + [] == out;
  }

  /** decodeJSONString on the literal that is left after trimming. */
  method DecodeJsonString(b: Bytes) returns (r: Decoded)
    ensures r == Decode(b)
  {
    var n := |b|;
    if n < 2 || b[0] != QUOTE || b[n - 1] != QUOTE {
      return Refused(NotAString);
    }
    ghost var answer := Decode(b);
    var out: Bytes := [];
    var i := 1;
    OnTheWayStart(b);
    while i < n - 1
      invariant 1 <= i <= n - 1 && OnTheWay(b, i, out, answer)
    {
      var turn := DecodeTurn(b[i..n - 1]);
      OnTheWayStep(b, i, out, answer, turn);
      if turn.Stops? {
        return Refused(turn.error);
      }
      out := out + turn.out;
      i := i + turn.count;
    }
    OnTheWayEnd(b, out, answer);
    return Text(out);
  }

  // ----- decoding inverts writing -----

  lemma FirstOfWritten(u: Unit, rest: Bytes)
    requires ValidUnit(u)
    ensures FirstUnit(Written(u) + rest) == Took(|Written(u)|, Meaning(u))
  {
    var s := Written(u) + rest;
    match u {
      case Raw(b) =>
      case Escape(letter) =>
      case Unicode(hex) =>
        assert s[2..6] == hex;
      case Pair(high, low) =>
        assert s[2..6] == high && s[8..12] == low;
        assert s[6] == BACKSLASH && s[7] == LETTER_U;
    }
  }

  /** Every way of writing units decodes to exactly what the units stand for. */
  lemma {:induction false} WrittenDecodes(us: seq<Unit>)
    requires ValidUnits(us)
    ensures DecodeBody(WrittenAll(us)) == Text(MeaningAll(us))
  {
    if us != [] {
      WrittenDecodes(us[1..]);
      FirstOfWritten(us[0], WrittenAll(us[1..]));
      assert (Written(us[0]) + WrittenAll(us[1..]))[|Written(us[0])|..] == WrittenAll(us[1..]);
    }
  }

  /** The unit a successful turn has read. */
  lemma ReadUnit(s: Bytes) returns (u: Unit)
    requires s != [] && FirstUnit(s).Took?
    ensures ValidUnit(u) && Written(u) == s[..FirstUnit(s).count] && Meaning(u) == FirstUnit(s).out
  {
    var t := FirstUnit(s);
    if t.count == 1 {
      u := Raw(s[0]);
    } else if t.count == 2 {
      u := Escape(s[1]);
    } else if t.count == 6 {
      u := Unicode(s[2..6]);
      assert s[..6] == [s[0], s[1]] + s[2..6];
    } else {
      u := Pair(s[2..6], s[8..12]);
      assert s[..12] == [s[0], s[1]] + s[2..6] + [s[6], s[7]] + s[8..12];
    }
  }

  lemma UnitsCons(u: Unit, us: seq<Unit>)
    requires ValidUnit(u) && ValidUnits(us)
    ensures ValidUnits([u] + us)
    ensures WrittenAll([u] + us) == Written(u) + WrittenAll(us) && MeaningAll([u] + us) == Meaning(u) + MeaningAll(us)
  {
    assert ([u] + us)[1..] == us;
  }

  lemma FirstAndRest(s: Bytes, n: nat)
    requires n <= |s|
    ensures s[..n] + s[n..] == s
  {
  }

  /** Whatever decodes was written in the grammar, and nothing else decodes. */
  lemma {:induction false} DecodedWasWritten(s: Bytes) returns (us: seq<Unit>)
    requires DecodeBody(s).Text?
    ensures ValidUnits(us) && WrittenAll(us) == s && MeaningAll(us) == DecodeBody(s).bytes
  {
    if s == [] {
      us := [];
    } else {
      var count := FirstUnit(s).count;
      var u := ReadUnit(s);
      var rest := DecodedWasWritten(s[count..]);
      us := [u] + rest;
      UnitsCons(u, rest);
      FirstAndRest(s, count);
    }
  }

  ghost predicate InGrammar(s: Bytes) {
    exists us :: ValidUnits(us) && WrittenAll(us) == s
  }

  lemma AcceptsExactlyTheGrammar(s: Bytes)
    ensures DecodeBody(s).Text? <==> InGrammar(s)
  {
    if DecodeBody(s).Text? {
      var us := DecodedWasWritten(s);
    }
    if InGrammar(s) {
      var us :| ValidUnits(us) && WrittenAll(us) == s;
      WrittenDecodes(us);
    }
  }

  // ----- Unicode text, however it is spelled -----

  /** How one character may be spelled inside a literal. */
  predicate Spells(c: int, us: seq<Unit>) {
    && IsScalar(c)
    && ValidUnits(us)
    && (|| (us == RawUnits(Utf8(c)))
        || (|us| == 1 && us[0].Escape? && Short(us[0].letter) == c)
        || (|us| == 1 && us[0].Unicode? && HexValue(us[0].hex) == c)
        || (|us| == 1 && us[0].Pair? && PairValue(HexValue(us[0].high), HexValue(us[0].low)) == c))
  }

  function RawUnits(s: Bytes): seq<Unit> {
    if s == [] then [] else [Raw(s[0])] + RawUnits(s[1..])
  }

  lemma {:induction false} RawUnitsMean(s: Bytes)
    requires ValidUnits(RawUnits(s))
    ensures MeaningAll(RawUnits(s)) == WrittenAll(RawUnits(s)) == s
  {
    if s != [] {
      assert RawUnits(s)[1..] == RawUnits(s[1..]);
      RawUnitsMean(s[1..]);
    }
  }

  lemma {:induction false} AppendMeaning(a: seq<Unit>, b: seq<Unit>)
    requires ValidUnits(a) && ValidUnits(b) && ValidUnits(a + b)
    ensures MeaningAll(a + b) == MeaningAll(a) + MeaningAll(b)
  {
    if a == [] {
      assert a + b == b;
    } else {
      assert (a + b)[1..] == a[1..] + b;
      AppendMeaning(a[1..], b);
      Assoc(Meaning(a[0]), MeaningAll(a[1..]), MeaningAll(b));
    }
  }

  lemma Append(a: seq<Unit>, b: seq<Unit>)
    requires ValidUnits(a) && ValidUnits(b)
    ensures ValidUnits(a + b)
    ensures WrittenAll(a + b) == WrittenAll(a) + WrittenAll(b) && MeaningAll(a + b) == MeaningAll(a) + MeaningAll(b)
  {
    FlatAppend(a, b, Written);
    AppendMeaning(a, b);
  }

  lemma SpellingMeans(c: int, us: seq<Unit>)
    requires Spells(c, us)
    ensures MeaningAll(us) == Utf8(c)
  {
    if us == RawUnits(Utf8(c)) {
      RawUnitsMean(Utf8(c));
    } else {
      assert us[1..] == [];
      assert MeaningAll(us) == Meaning(us[0]);
    }
  }

  ghost predicate SpellsText(text: seq<int>, spellings: seq<seq<Unit>>) {
    |spellings| == |text| && forall k :: 0 <= k < |text| ==> 0 <= text[k] < 0x110000 && Spells(text[k], spellings[k])
  }

  ghost function Literal(spellings: seq<seq<Unit>>): Bytes {
    if spellings == [] then [] else WrittenAll(spellings[0]) + Literal(spellings[1..])
  }

  ghost function Utf8Text(text: seq<int>): Bytes
    requires forall k :: 0 <= k < |text| ==> 0 <= text[k] < 0x110000
  {
    if text == [] then [] else Utf8(text[0]) + Utf8Text(text[1..])
  }

  lemma {:induction false} SpelledUnits(text: seq<int>, spellings: seq<seq<Unit>>) returns (us: seq<Unit>)
    requires SpellsText(text, spellings)
    ensures ValidUnits(us) && WrittenAll(us) == Literal(spellings) && MeaningAll(us) == Utf8Text(text)
  {
    if text == [] {
      us := [];
    } else {
      var rest := SpelledUnits(text[1..], spellings[1..]);
      assert Spells(text[0], spellings[0]);
      SpellingMeans(text[0], spellings[0]);
      Append(spellings[0], rest);
      us := spellings[0] + rest;
    }
  }

  /** Any text, with every character spelled raw, short, as \uXXXX or as a surrogate pair, decodes to its UTF-8. */
  lemma DecodeInvertsSpelling(text: seq<int>, spellings: seq<seq<Unit>>)
    requires SpellsText(text, spellings)
    ensures Decode([QUOTE] + Literal(spellings) + [QUOTE]) == Text(Utf8Text(text))
  {
    var us := SpelledUnits(text, spellings);
    WrittenDecodes(us);
    var b := [QUOTE] + Literal(spellings) + [QUOTE];
    assert b[1..|b| - 1] == Literal(spellings);
  }

  /** Every character beyond the basic plane has a surrogate pair. */
  lemma EveryPairReached(c: int) returns (high: int, low: int)
    requires 0x10000 <= c <= 0x10FFFF
    ensures IsHigh(high) && IsLow(low) && PairValue(high, low) == c
  {
    high, low := 0xD800 + (c - 0x10000) / 0x400, 0xDC00 + (c - 0x10000) % 0x400;
  }

  // ----- lone surrogates -----

  predicate LoneSurrogateAt(s: Bytes) {
    && |s| >= 6 && s[0] == BACKSLASH && s[1] == LETTER_U && IsHex(s[2..6])
    && (|| IsLow(HexValue(s[2..6]))
        || (IsHigh(HexValue(s[2..6])) && !(|s| >= 12 && s[6] == BACKSLASH && s[7] == LETTER_U && IsHex(s[8..12]) && IsLow(HexValue(s[8..12])))))
  }

  /** After any well-formed beginning, a surrogate escape without its partner refuses the literal. */
  lemma LoneSurrogateRefused(us: seq<Unit>, s: Bytes)
    requires ValidUnits(us) && LoneSurrogateAt(s)
    ensures DecodeBody(WrittenAll(us) + s).Refused?
    decreases |us|
  {
    if us == [] {
      assert WrittenAll(us) + s == s;
    } else {
      var rest := WrittenAll(us[1..]) + s;
      LoneSurrogateRefused(us[1..], s);
      FirstOfWritten(us[0], rest);
      Assoc(Written(us[0]), WrittenAll(us[1..]), s);
      assert (Written(us[0]) + rest)[|Written(us[0])|..] == rest;
    }
  }

  // ----- where it is laxer than the grammar of RFC 8259 -----

  /** RFC 8259 also forbids an unescaped quotation mark. */
  predicate StrictUnit(u: Unit) {
    ValidUnit(u) && u != Raw(QUOTE)
  }

  ghost predicate InStrictGrammar(s: Bytes) {
    exists us :: (forall k :: 0 <= k < |us| ==> StrictUnit(us[k])) && WrittenAll(us) == s
  }

  /** No quotation mark outside an escape. */
  predicate NoBareQuote(s: Bytes) {
    s == [] || (if s[0] == BACKSLASH then |s| < 2 || NoBareQuote(s[2..]) else s[0] != QUOTE && NoBareQuote(s[1..]))
  }

  lemma {:induction false} NoQuoteInHex(hex: Bytes, rest: Bytes)
    requires IsHex(hex)
    ensures NoBareQuote(hex + rest) == NoBareQuote(rest)
  {
    if hex == [] {
      assert hex + rest == rest;
    } else {
      NoQuoteInHex(hex[1..], rest);
      assert (hex + rest)[1..] == hex[1..] + rest;
      assert Digit(hex[0]) >= 0;
    }
  }

  lemma SkipUnicode(hex: Bytes, rest: Bytes)
    requires IsHex(hex)
    ensures NoBareQuote([BACKSLASH, LETTER_U] + hex + rest) == NoBareQuote(rest)
  {
    NoQuoteInHex(hex, rest);
    assert ([BACKSLASH, LETTER_U] + hex + rest)[2..] == hex + rest;
  }

  lemma FourParts(a: Bytes, b: Bytes, c: Bytes, d: Bytes, rest: Bytes)
    ensures a + b + c + d + rest == a + b + (c + d + rest)
  {
  }

  lemma SkipPair(high: Bytes, low: Bytes, rest: Bytes)
    requires IsHex(high) && IsHex(low)
    ensures NoBareQuote(Written(Pair(high, low)) + rest) == NoBareQuote(rest)
  {
    var escape := [BACKSLASH, LETTER_U];
    SkipUnicode(low, rest);
    SkipUnicode(high, escape + low + rest);
    FourParts(escape, high, escape, low, rest);
  }

  lemma QuoteInUnit(u: Unit, rest: Bytes)
    requires ValidUnit(u)
    ensures NoBareQuote(Written(u) + rest) == (u != Raw(QUOTE) && NoBareQuote(rest))
  {
    match u {
      case Raw(b) =>
        assert ([b] + rest)[1..] == rest;
      case Escape(letter) =>
        assert ([BACKSLASH, letter] + rest)[2..] == rest;
      case Unicode(hex) =>
        SkipUnicode(hex, rest);
      case Pair(high, low) =>
        SkipPair(high, low, rest);
    }
  }

  lemma {:induction false} QuoteInUnits(us: seq<Unit>)
    requires ValidUnits(us)
    ensures NoBareQuote(WrittenAll(us)) <==> forall k :: 0 <= k < |us| ==> us[k] != Raw(QUOTE)
  {
    if us != [] {
      QuoteInUnits(us[1..]);
      QuoteInUnit(us[0], WrittenAll(us[1..]));
      assert forall k :: 0 < k < |us| ==> us[k] == us[1..][k - 1];
    }
  }

  /** The decoder accepts exactly RFC 8259's strings when the body has no bare quotation mark. */
  lemma StrictIff(s: Bytes)
    ensures InStrictGrammar(s) <==> DecodeBody(s).Text? && NoBareQuote(s)
  {
    if InStrictGrammar(s) {
      var us :| (forall k :: 0 <= k < |us| ==> StrictUnit(us[k])) && WrittenAll(us) == s;
      assert forall k :: 0 <= k < |us| ==> ValidUnit(us[k]);
      WrittenDecodes(us);
      QuoteInUnits(us);
    }
    if DecodeBody(s).Text? && NoBareQuote(s) {
      var us := DecodedWasWritten(s);
      QuoteInUnits(us);
    }
  }

  /** And it does accept one with: three quotation marks in a row. */
  lemma BareQuoteAccepted()
    ensures Decode([QUOTE, QUOTE, QUOTE]) == Text([QUOTE])
    ensures !InStrictGrammar([QUOTE])
  {
    var us := [Raw(QUOTE)];
    assert us == [us[0]] + [] && us[1..] == [];
    assert Written(us[0]) == Meaning(us[0]) == [QUOTE];
    assert Flat(us[1..], Written) == MeaningAll(us[1..]) == [];
    assert WrittenAll(us) == [QUOTE] + [] == [QUOTE];
    assert MeaningAll(us) == [QUOTE] + [] == [QUOTE];
    WrittenDecodes(us);
    QuoteInUnits(us);
    StrictIff([QUOTE]);
    assert [QUOTE, QUOTE, QUOTE][1..2] == [QUOTE];
  }

  // ----- invalid UTF-8 -----

  predicate IsContinuation(b: Byte) {
    0x80 <= b <= 0xBF
  }

  /** The first byte that may follow a lead byte; section 4 of RFC 3629 narrows it after E0, ED, F0 and F4. */
  predicate MayFollow(lead: Byte, b: Byte) {
    && IsContinuation(b)
    && (lead == 0xE0 ==> b >= 0xA0) && (lead == 0xED ==> b <= 0x9F)
    && (lead == 0xF0 ==> b >= 0x90) && (lead == 0xF4 ==> b <= 0x8F)
  }

  /** The length of the well-formed character s starts with, or 0. */
  function CharLength(s: Bytes): (n: nat)
    ensures n <= |s| && n <= 4
  {
    if s == [] then 0
    else if s[0] < 0x80 then 1
    else if s[0] < 0xC2 || s[0] > 0xF4 || |s| < 2 || !MayFollow(s[0], s[1]) then 0
    else if s[0] < 0xE0 then 2
    else if |s| < 3 || !IsContinuation(s[2]) then 0
    else if s[0] < 0xF0 then 3
    else if |s| < 4 || !IsContinuation(s[3]) then 0
    else 4
  }

  predicate ValidUtf8(s: Bytes) {
    s == [] || (CharLength(s) > 0 && ValidUtf8(s[CharLength(s)..]))
  }

  lemma CharOfUtf8(c: int, rest: Bytes)
    requires IsScalar(c)
    ensures CharLength(Utf8(c) + rest) == |Utf8(c)| && !IsContinuation(Utf8(c)[0])
    ensures ValidUtf8(Utf8(c) + rest) <==> ValidUtf8(rest)
  {
    LengthOfUtf8(c, rest);
    ValidAfter(Utf8(c), rest);
  }

  lemma LengthOfUtf8(c: int, rest: Bytes)
    requires IsScalar(c)
    ensures CharLength(Utf8(c) + rest) == |Utf8(c)| && !IsContinuation(Utf8(c)[0])
  {
    var u := Utf8(c);
    var s := u + rest;
    assert s[0] == u[0] && |s| >= |u|;
    assert |u| >= 2 ==> s[1] == u[1];
    assert |u| >= 3 ==> s[2] == u[2];
    assert |u| >= 4 ==> s[3] == u[3];
    LeadThenSecond(c);
  }

  /** What section 4 of RFC 3629 says of the first two bytes, in terms of the character. */
  lemma LeadThenSecond(c: int)
    requires IsScalar(c)
    ensures 0x80 <= c < 0x800 ==> 2 <= c / 0x40 < 0x20
    ensures 0x800 <= c < 0x10000 ==>
              && (c / 0x1000 == 0 ==> c / 0x40 % 0x40 >= 0x20) && 0 <= c / 0x1000 < 0x10
              && (c / 0x1000 == 0xD ==> c / 0x40 % 0x40 < 0x20)
    ensures 0x10000 <= c ==>
              && (c / 0x40000 == 0 ==> c / 0x1000 % 0x40 >= 0x10) && 0 <= c / 0x40000 <= 4
              && (c / 0x40000 == 4 ==> c / 0x1000 % 0x40 < 0x10)
  {
    assert c / 0x1000 == c / 0x40 / 0x40 && c / 0x40000 == c / 0x1000 / 0x40;
  }

  lemma ValidAfter(one: Bytes, rest: Bytes)
    requires CharLength(one + rest) == |one| > 0
    ensures ValidUtf8(one + rest) <==> ValidUtf8(rest)
  {
    assert (one + rest)[|one|..] == rest;
  }

  /** The character a well-formed start encodes. */
  lemma CharOf(s: Bytes) returns (c: int)
    requires CharLength(s) > 0
    ensures IsScalar(c) && Utf8(c) == s[..CharLength(s)]
  {
    var n := CharLength(s);
    if n == 1 {
      c := s[0] as int;
    } else if n == 2 {
      c := (s[0] as int - 0xC0) * 0x40 + (s[1] as int - 0x80);
    } else if n == 3 {
      c := ThreeBytes(s[0], s[1], s[2]);
    } else {
      c := FourBytes(s[0], s[1], s[2], s[3]);
    }
  }

  lemma ThreeBytes(a: Byte, b: Byte, d: Byte) returns (c: int)
    requires 0xE0 <= a < 0xF0 && MayFollow(a, b) && IsContinuation(d)
    ensures IsScalar(c) && Utf8(c) == [a, b, d]
  {
    var x, y, z := a as int - 0xE0, b as int - 0x80, d as int - 0x80;
    c := x * 0x1000 + y * 0x40 + z;
    assert c / 0x40 == x * 0x40 + y;
    assert c / 0x1000 == x && c / 0x40 % 0x40 == y && c % 0x40 == z;
  }

  lemma FourBytes(a: Byte, b: Byte, d: Byte, e: Byte) returns (c: int)
    requires 0xF0 <= a <= 0xF4 && MayFollow(a, b) && IsContinuation(d) && IsContinuation(e)
    ensures IsScalar(c) && Utf8(c) == [a, b, d, e]
  {
    var w, x, y, z := a as int - 0xF0, b as int - 0x80, d as int - 0x80, e as int - 0x80;
    c := w * 0x40000 + x * 0x1000 + y * 0x40 + z;
    assert c / 0x40 == w * 0x1000 + x * 0x40 + y;
    assert c / 0x1000 == w * 0x40 + x;
    assert c / 0x40000 == w && c / 0x1000 % 0x40 == x && c / 0x40 % 0x40 == y && c % 0x40 == z;
  }

  predicate AllScalars(text: seq<int>) {
    forall k :: 0 <= k < |text| ==> IsScalar(text[k]) && 0 <= text[k] < 0x110000
  }

  ghost predicate EncodesText(s: Bytes) {
    exists text :: AllScalars(text) && Utf8Text(text) == s
  }

  lemma {:induction false} TextIsValid(text: seq<int>)
    requires AllScalars(text)
    ensures ValidUtf8(Utf8Text(text))
  {
    if text != [] {
      assert IsScalar(text[0]);
      TextIsValid(text[1..]);
      CharOfUtf8(text[0], Utf8Text(text[1..]));
    }
  }

  lemma TextCons(c: int, text: seq<int>)
    requires IsScalar(c) && AllScalars(text)
    ensures AllScalars([c] + text) && Utf8Text([c] + text) == Utf8(c) + Utf8Text(text)
  {
    assert ([c] + text)[1..] == text;
  }

  lemma {:induction false} ValidIsText(s: Bytes) returns (text: seq<int>)
    requires ValidUtf8(s)
    ensures AllScalars(text) && Utf8Text(text) == s
  {
    if s == [] {
      text := [];
    } else {
      var c := CharOf(s);
      var rest := ValidIsText(s[CharLength(s)..]);
      text := [c] + rest;
      TextCons(c, rest);
      FirstAndRest(s, CharLength(s));
    }
  }

  /** Valid UTF-8 is exactly what some text encodes to. */
  lemma ValidUtf8IsEncodedText(s: Bytes)
    ensures ValidUtf8(s) <==> EncodesText(s)
  {
    if ValidUtf8(s) {
      var text := ValidIsText(s);
    }
    if EncodesText(s) {
      var text :| AllScalars(text) && Utf8Text(text) == s;
      TextIsValid(text);
    }
  }

  /** A raw byte is copied. */
  lemma RawCopies(s: Bytes, out: Bytes)
    requires DecodeBody(s) == Text(out) && s != [] && s[0] != BACKSLASH
    ensures out != [] && out[0] == s[0] && DecodeBody(s[1..]) == Text(out[1..])
  {
    assert FirstUnit(s) == Took(1, [s[0]]);
    var rest := DecodeBody(s[1..]).bytes;
    assert out == [s[0]] + rest && out[1..] == rest;
  }

  /** What an escape stands for never starts with a continuation byte. */
  lemma EscapeStarts(s: Bytes)
    requires s != [] && s[0] == BACKSLASH && FirstUnit(s).Took?
    ensures var t := FirstUnit(s); t.out != [] && exists c :: IsScalar(c) && t.out == Utf8(c)
  {
    var u := ReadUnit(s);
    assert Written(u)[0] == BACKSLASH;
    match u {
      case Raw(b) =>
        assert false;
      case Escape(letter) =>
        assert IsScalar(Short(letter));
      case Unicode(hex) =>
        HexValueOf4(hex);
        assert IsScalar(HexValue(hex));
      case Pair(high, low) =>
        assert IsScalar(PairValue(HexValue(high), HexValue(low)));
    }
  }

  /** A continuation byte stands at the front of both or of neither, and then it is the same one. */
  lemma ContinuationsAgree(s: Bytes, out: Bytes)
    requires DecodeBody(s) == Text(out)
    ensures (s != [] && IsContinuation(s[0])) <==> (out != [] && IsContinuation(out[0]))
    ensures s != [] && IsContinuation(s[0]) ==> s[0] == out[0] && DecodeBody(s[1..]) == Text(out[1..])
  {
    if s != [] && s[0] != BACKSLASH {
      RawCopies(s, out);
    } else if s != [] {
      EscapeStarts(s);
      var c :| IsScalar(c) && FirstUnit(s).out == Utf8(c);
      CharOfUtf8(c, []);
      assert out[0] == FirstUnit(s).out[0];
    }
  }

  /** The character a raw byte starts is well-formed before decoding exactly when it is afterwards. */
  lemma CharactersAgree(s: Bytes, out: Bytes)
    requires DecodeBody(s) == Text(out) && s != [] && s[0] != BACKSLASH
    ensures CharLength(s) == CharLength(out)
    ensures CharLength(s) > 0 ==> DecodeBody(s[CharLength(s)..]) == Text(out[CharLength(s)..])
  {
    RawCopies(s, out);
    var s1, o1 := s[1..], out[1..];
    ContinuationsAgree(s1, o1);
    if s1 != [] && IsContinuation(s1[0]) {
      var s2, o2 := s1[1..], o1[1..];
      assert s2 == s[2..] && o2 == out[2..];
      ContinuationsAgree(s2, o2);
      if s2 != [] && IsContinuation(s2[0]) {
        assert s2[1..] == s[3..] && o2[1..] == out[3..];
        ContinuationsAgree(s[3..], out[3..]);
        if s[3..] != [] && IsContinuation(s[3]) {
          assert s[3..][1..] == s[4..] && out[3..][1..] == out[4..];
        }
      }
    }
  }

  lemma {:induction false} AsciiPrefix(prefix: Bytes, rest: Bytes)
    requires forall k :: 0 <= k < |prefix| ==> prefix[k] < 0x80
    ensures ValidUtf8(prefix + rest) <==> ValidUtf8(rest)
  {
    if prefix == [] {
      assert prefix + rest == rest;
    } else {
      AsciiPrefix(prefix[1..], rest);
      assert (prefix + rest)[1..] == prefix[1..] + rest;
    }
  }

  /** An escape is ASCII and stands for one whole character. */
  lemma EscapesAreNeutral(s: Bytes, out: Bytes, count: nat)
    requires DecodeBody(s) == Text(out) && s != [] && s[0] == BACKSLASH && count == FirstUnit(s).count
    ensures DecodeBody(s[count..]).Text?
    ensures ValidUtf8(s) <==> ValidUtf8(s[count..])
    ensures ValidUtf8(out) <==> ValidUtf8(DecodeBody(s[count..]).bytes)
  {
    EscapeStarts(s);
    var c :| IsScalar(c) && FirstUnit(s).out == Utf8(c);
    var rest := DecodeBody(s[count..]).bytes;
    assert out == Utf8(c) + rest;
    CharOfUtf8(c, rest);
    EscapeIsAscii(s);
    FirstAndRest(s, count);
    AsciiPrefix(s[..count], s[count..]);
  }

  lemma EscapeIsAscii(s: Bytes)
    requires s != [] && s[0] == BACKSLASH && FirstUnit(s).Took?
    ensures forall k :: 0 <= k < FirstUnit(s).count ==> s[k] < 0x80
  {
    var count := FirstUnit(s).count;
    if count >= 6 {
      assert forall k :: 2 <= k < 6 ==> s[k] == s[2..6][k - 2] && Digit(s[2..6][k - 2]) >= 0;
    }
    if count == 12 {
      assert forall k :: 8 <= k < 12 ==> s[k] == s[8..12][k - 8] && Digit(s[8..12][k - 8]) >= 0;
    }
  }

  /**
   The decoder does not look at UTF-8 at all: whatever it accepts comes out as valid UTF-8 if and
   only if the body between the quotation marks was.
   */
  lemma {:induction false} ValidOutIffValidIn(s: Bytes)
    requires DecodeBody(s).Text?
    ensures ValidUtf8(DecodeBody(s).bytes) <==> ValidUtf8(s)
    decreases |s|
  {
    var out := DecodeBody(s).bytes;
    if s == [] {
    } else if s[0] == BACKSLASH {
      EscapesAreNeutral(s, out, FirstUnit(s).count);
      ValidOutIffValidIn(s[FirstUnit(s).count..]);
    } else {
      CharactersAgree(s, out);
      RawCopies(s, out);
      if CharLength(s) > 0 {
        ValidOutIffValidIn(s[CharLength(s)..]);
      }
    }
  }

  /** A body that is one byte FF decodes, to bytes that are not UTF-8. */
  lemma InvalidUtf8Accepted()
    ensures DecodeBody([0xFF]) == Text([0xFF]) && !ValidUtf8([0xFF])
  {
    var s: Bytes := [0xFF];
    assert FirstUnit(s) == Took(1, [s[0]]) && s[1..] == [];
    assert DecodeBody(s) == After([s[0]], Text([])) == Text([s[0]] + []);
    assert [s[0]] + [] == s;
  }
}
