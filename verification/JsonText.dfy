/**
 String and number text: the escapes that decodeEscaped undoes and
 appendJsonString makes, and decimal integers (firmware/src/json/Json.cpp,
 firmware/src/api/JsonWriter.cpp). Bits put together by shifts and ors are
 added here, each in its own place.
 */
module JsonText {
  import opened JsonGrammar
  import opened Numerals
  import opened Bits

  // --- code points and UTF-8 -------------------------------------------------------------

  function HexValue(c: char): (n: nat)
    requires IsHex(c)
    ensures n < 16
  {
    if c <= '9' then (c - '0') as nat
    else if c >= 'a' then (c - 'a') as nat + 10
    else (c - 'A') as nat + 10
  }

  predicate FourHex(s: string, at: nat) {
    at + 4 <= |s| && IsHex(s[at]) && IsHex(s[at + 1]) && IsHex(s[at + 2]) && IsHex(s[at + 3])
  }

  function Hex4(s: string, at: nat): (n: nat)
    requires FourHex(s, at)
    ensures n < 0x10000
  {
    ((HexValue(s[at]) * 16 + HexValue(s[at + 1])) * 16 + HexValue(s[at + 2])) * 16 + HexValue(s[at + 3])
  }

  function Utf8(codepoint: nat): string
    requires codepoint < 0x110000
  {
    if codepoint < 0x80 then [codepoint as char]
    else if codepoint < 0x800 then [(0xC0 + codepoint / 64) as char, (0x80 + codepoint % 64) as char]
    else if codepoint < 0x10000 then
      [(0xE0 + codepoint / 4096) as char, (0x80 + codepoint / 64 % 64) as char, (0x80 + codepoint % 64) as char]
    else
      [(0xF0 + codepoint / 262144) as char, (0x80 + codepoint / 4096 % 64) as char,
       (0x80 + codepoint / 64 % 64) as char, (0x80 + codepoint % 64) as char]
  }

  const REPLACEMENT: nat := 0xFFFD

  predicate IsHigh(unit: nat) { 0xD800 <= unit <= 0xDBFF }
  predicate IsLow(unit: nat) { 0xDC00 <= unit <= 0xDFFF }

  // --- decoding ----------------------------------------------------------------------------

  /** The code point a \u escape at the front of raw stands for, and how much of
      raw spells it. A surrogate without its partner is replaced. */
  function UnicodeEscape(raw: string): (r: (nat, nat))
    requires StringBody(raw) && |raw| >= 2 && raw[0] == '\\' && raw[1] == 'u'
    ensures r.0 < 0x110000 && !IsHigh(r.0) && !IsLow(r.0)
    ensures 0 < r.1 <= |raw| && StringBody(raw[r.1..])
  {
    var unit := Hex4(raw, 2);
    var rest := raw[6..];
    assert StringBody(rest);
    if IsHigh(unit) then
      if |rest| >= 6 && rest[0] == '\\' && rest[1] == 'u' then
        var low := Hex4(rest, 2);
        if IsLow(low) then
          assert raw[12..] == rest[6..];
          (0x10000 + (unit - 0xD800) * 1024 + (low - 0xDC00), 12)
        else (REPLACEMENT, 6)
      else (REPLACEMENT, 6)
    else if IsLow(unit) then (REPLACEMENT, 6)
    else (unit, 6)
  }

  function SimpleEscape(c: char): char
    requires IsSimpleEscape(c)
  {
    match c
    case 'b' => '\U{8}'
    case 'f' => '\U{C}'
    case 'n' => '\n'
    case 'r' => '\r'
    case 't' => '\t'
    case _ => c
  }

  /** What the first character or escape of raw decodes to, and its length. */
  function DecodeUnit(raw: string): (r: (string, nat))
    requires StringBody(raw) && raw != ""
    ensures 0 < r.1 <= |raw| && StringBody(raw[r.1..])
  {
    if raw[0] != '\\' then (raw[..1], 1)
    else if raw[1] == 'u' then
      var (codepoint, n) := UnicodeEscape(raw);
      (Utf8(codepoint), n)
    else ([SimpleEscape(raw[1])], 2)
  }

  function Decode(raw: string): string
    requires StringBody(raw)
  {
    if raw == "" then "" else
    var (piece, n) := DecodeUnit(raw);
    piece + Decode(raw[n..])
  }

  lemma Hex4Within(raw: string, i: nat, at: nat)
    requires i <= |raw| && FourHex(raw[i..], at)
    ensures FourHex(raw, i + at) && Hex4(raw, i + at) == Hex4(raw[i..], at)
  {
  }

  /** The case 'u' of decodeEscaped, for an escape at i. */
  method DecodeUnicode(raw: string, i: nat) returns (codepoint: nat, next: nat)
    requires i + 2 <= |raw| && StringBody(raw[i..]) && raw[i] == '\\' && raw[i + 1] == 'u'
    ensures next >= i && (codepoint, next - i) == UnicodeEscape(raw[i..])
  {
    hide Hex4;
    ghost var rest := raw[i..];
    Hex4Within(raw, i, 2);
    codepoint := Hex4(raw, i + 2);
    next := i + 6;
    if 0xD800 <= codepoint <= 0xDBFF {
      assert rest[6..] == raw[i + 6..];
      if next + 6 <= |raw| && raw[next] == '\\' && raw[next + 1] == 'u' {
        Hex4Within(raw, next, 2);
        var low := Hex4(raw, next + 2);
        if 0xDC00 <= low <= 0xDFFF {
          codepoint := 0x10000 + (codepoint - 0xD800) * 1024 + (low - 0xDC00);
          next := next + 6;
        } else {
          codepoint := 0xFFFD;
        }
      } else {
        codepoint := 0xFFFD;
      }
    } else if 0xDC00 <= codepoint <= 0xDFFF {
      codepoint := 0xFFFD;
    }
  }

  lemma DecodeStep(raw: string, i: nat)
    requires i < |raw| && StringBody(raw[i..])
    ensures var rest := raw[i..]; var (piece, n) := DecodeUnit(rest);
      rest[n..] == raw[i + n..] && Decode(rest) == piece + Decode(rest[n..])
  {
    hide DecodeUnit, StringBody;
  }

  lemma DecodeUnitAt(raw: string, i: nat)
    requires i < |raw| && StringBody(raw[i..])
    ensures raw[i] != '\\' ==> DecodeUnit(raw[i..]) == ([raw[i]], 1)
    ensures raw[i] == '\\' ==> i + 1 < |raw|
    ensures raw[i] == '\\' && raw[i + 1] != 'u' ==>
      IsSimpleEscape(raw[i + 1]) && DecodeUnit(raw[i..]) == ([SimpleEscape(raw[i + 1])], 2)
    ensures raw[i] == '\\' && raw[i + 1] == 'u' ==>
      var (codepoint, n) := UnicodeEscape(raw[i..]); DecodeUnit(raw[i..]) == (Utf8(codepoint), n)
  {
    hide UnicodeEscape, Utf8, SimpleEscape, Decode;
    var rest := raw[i..];
    assert rest[0] == raw[i] && rest[..1] == [raw[i]];
    assert |rest| > 1 ==> rest[1] == raw[i + 1];
  }

  method DecodeEscaped(raw: string) returns (out: string)
    requires StringBody(raw)
    ensures out == Decode(raw)
  {
    hide Decode, DecodeUnit, StringBody, UnicodeEscape, Utf8, SimpleEscape, IsSimpleEscape;
    out := "";
    var i := 0;
    assert raw[0..] == raw;
    while i < |raw|
      invariant i <= |raw| && StringBody(raw[i..]) && out + Decode(raw[i..]) == Decode(raw)
    {
      DecodeStep(raw, i);
      DecodeUnitAt(raw, i);
      Assoc(out, DecodeUnit(raw[i..]).0, Decode(raw[i + DecodeUnit(raw[i..]).1..]));
      var c := raw[i];
      if c != '\\' {
        out := out + [c];
        i := i + 1;
      } else {
        var escape := raw[i + 1];
        if escape == 'u' {
          var codepoint, next := DecodeUnicode(raw, i);
          out := out + Utf8(codepoint);
          i := next;
        } else {
          out := out + [SimpleEscape(escape)];
          i := i + 2;
        }
      }
    }
    DecodeNothing(raw[i..]);
  }

  lemma DecodeNothing(raw: string)
    requires raw == ""
    ensures Decode(raw) == ""
  {
  }

  // --- escaping ------------------------------------------------------------------------------

  function HexDigit(n: nat): char
    requires n < 16
  {
    "0123456789abcdef"[n]
  }

  function EscapeChar(c: char): string {
    if c == '"' then "\\\""
    else if c == '\\' then "\\\\"
    else if c == '\n' then "\\n"
    else if c == '\r' then "\\r"
    else if c == '\t' then "\\t"
    else if c == '\U{8}' then "\\b"
    else if c == '\U{C}' then "\\f"
    else if c < ' ' then "\\u00" + [HexDigit(c as nat / 16), HexDigit(c as nat % 16)]
    else [c]
  }

  function Escape(s: string): string {
    if s == "" then "" else EscapeChar(s[0]) + Escape(s[1..])
  }

  lemma HexRoundTrip(n: nat)
    requires n < 16
    ensures IsHex(HexDigit(n)) && HexValue(HexDigit(n)) == n
  {
  }

  predicate Unescaped(c: char) { c >= ' ' && c != '"' && c != '\\' }

  lemma {:induction false} PlainDecodes(s: string, rest: string)
    requires StringBody(rest) && forall i :: 0 <= i < |s| ==> Unescaped(s[i])
    ensures StringBody(s + rest) && Decode(s + rest) == s + Decode(rest)
  {
    hide StringBody, Decode;
    if s == "" {
      assert s + rest == rest;
    } else {
      PlainDecodes(s[1..], rest);
      PlainHead(s[0], s[1..] + rest);
      assert s + rest == [s[0]] + (s[1..] + rest);
    }
  }

  lemma PlainHead(c: char, rest: string)
    requires StringBody(rest) && Unescaped(c)
    ensures StringBody([c] + rest) && Decode([c] + rest) == [c] + Decode(rest)
  {
    assert ([c] + rest)[1..] == rest;
  }

  /** Characters that are no backslash stand for themselves. */
  lemma {:induction false} PlainSplits(raw: string, n: nat)
    requires StringBody(raw) && n <= |raw| && forall i :: 0 <= i < n ==> raw[i] != '\\'
    ensures StringBody(raw[n..]) && Decode(raw) == raw[..n] + Decode(raw[n..])
    ensures n == |raw| ==> Decode(raw) == raw
  {
    hide Decode;
    if n > 0 {
      PlainSplits(raw, n - 1);
      var rest := raw[n - 1..];
      assert Unescaped(rest[0]) && StringBody(rest[1..]);
      PlainHead(rest[0], rest[1..]);
      assert rest[1..] == raw[n..] && rest == [rest[0]] + rest[1..] && raw[..n] == raw[..n - 1] + [rest[0]];
    } else {
      assert raw[0..] == raw;
    }
    DecodeNothing("");
  }

  lemma SimpleDecodes(e: char, rest: string)
    requires IsSimpleEscape(e) && StringBody(rest)
    ensures var raw := ['\\', e] + rest;
      StringBody(raw) && Decode(raw) == [SimpleEscape(e)] + Decode(rest)
  {
    hide SimpleEscape;
    var raw := ['\\', e] + rest;
    assert raw[2..] == rest;
  }

  lemma ControlDecodes(c: char, rest: string)
    requires c < ' ' && StringBody(rest)
    ensures var raw := "\\u00" + [HexDigit(c as nat / 16), HexDigit(c as nat % 16)] + rest;
      StringBody(raw) && Decode(raw) == [c] + Decode(rest)
  {
    var high, low := HexDigit(c as nat / 16), HexDigit(c as nat % 16);
    HexRoundTrip(c as nat / 16);
    HexRoundTrip(c as nat % 16);
    var raw := "\\u00" + [high, low] + rest;
    assert raw[6..] == rest && StringUnit(raw) == 6;
    assert UnicodeEscape(raw) == (c as nat, 6);
  }

  /** Each escape is read back as the character it was made for. */
  lemma EscapeCharDecodes(c: char, rest: string)
    requires StringBody(rest)
    ensures var raw := EscapeChar(c) + rest;
      StringBody(raw) && Decode(raw) == [c] + Decode(rest)
  {
    hide StringBody, Decode;
    var raw := EscapeChar(c) + rest;
    if c in "\"\\\n\r\t\U{8}\U{C}" {
      SimpleDecodes(EscapeChar(c)[1], rest);
    } else if c < ' ' {
      ControlDecodes(c, rest);
    } else {
      PlainDecodes([c], rest);
    }
  }

  /** Every string survives escaping and decoding. */
  lemma {:induction false} EscapeRoundTrip(s: string)
    ensures StringBody(Escape(s)) && Decode(Escape(s)) == s
  {
    if s != "" {
      EscapeRoundTrip(s[1..]);
      EscapeCharDecodes(s[0], Escape(s[1..]));
    }
  }

  method AppendJsonString(out: string, text: string) returns (result: string)
    ensures result == out + "\"" + Escape(text) + "\""
  {
    hide EscapeChar;
    result := out + "\"";
    ghost var start := result;
    assert text[0..] == text;
    for i := 0 to |text|
      invariant result + Escape(text[i..]) == start + Escape(text)
    {
      assert text[i..][1..] == text[i + 1..];
      Assoc(result, EscapeChar(text[i]), Escape(text[i + 1..]));
      result := result + EscapeChar(text[i]);
    }
    assert Escape(text[|text|..]) == "";
    result := result + "\"";
  }

  // --- comparing -------------------------------------------------------------------------------

  method StringEquals(raw: string, other: string) returns (equal: bool)
    requires StringBody(raw)
    ensures equal <==> Decode(raw) == other
  {
    if '\\' !in raw {
      PlainSplits(raw, |raw|);
      return raw == other;
    }
    hide Decode, StringBody;
    var out := DecodeEscaped(raw);
    equal := SameBytes(out, other);
  }

  /** What comes out of decoding, byte by byte against the other text. */
  method SameBytes(out: string, other: string) returns (equal: bool)
    ensures equal <==> out == other
  {
    var matched := 0;
    equal := true;
    for i := 0 to |out|
      invariant matched <= |other| && (equal ==> matched == i && other[..matched] == out[..i])
      invariant !equal ==> out != other
    {
      if equal {
        if matched >= |other| || other[matched] != out[i] {
          equal := false;
        } else {
          assert other[..matched + 1] == other[..matched] + [out[i]];
          matched := matched + 1;
        }
      }
    }
    assert out[..|out|] == out && other[..|other|] == other;
    equal := equal && matched == |other|;
  }

  // --- what decoding yields is UTF-8 --------------------------------------------------------------

  predicate Continues(c: char) { 0x80 <= c as int <= 0xBF }

  /** The length of the well-formed UTF-8 sequence s begins with (section 4 of
      RFC 3629); zero when it begins with none. */
  function Utf8Unit(s: string): (n: nat)
    requires s != ""
    ensures n <= |s|
  {
    var a := s[0] as int;
    if a < 0x80 then 1
    else if 0xC2 <= a <= 0xDF then
      if |s| >= 2 && Continues(s[1]) then 2 else 0
    else if 0xE0 <= a <= 0xEF then
      if |s| >= 3 && Continues(s[1]) && Continues(s[2])
         && (a == 0xE0 ==> s[1] as int >= 0xA0) && (a == 0xED ==> s[1] as int <= 0x9F)
      then 3 else 0
    else if 0xF0 <= a <= 0xF4 then
      if |s| >= 4 && Continues(s[1]) && Continues(s[2]) && Continues(s[3])
         && (a == 0xF0 ==> s[1] as int >= 0x90) && (a == 0xF4 ==> s[1] as int <= 0x8F)
      then 4 else 0
    else 0
  }

  predicate IsUtf8(s: string) {
    s == "" || (Utf8Unit(s) > 0 && IsUtf8(s[Utf8Unit(s)..]))
  }

  lemma EncodedIsUtf8(codepoint: nat, rest: string)
    requires codepoint < 0x110000 && !IsHigh(codepoint) && !IsLow(codepoint) && IsUtf8(rest)
    ensures IsUtf8(Utf8(codepoint) + rest)
  {
    hide Utf8, Utf8Unit;
    EncodedIsUnit(codepoint, rest);
    assert (Utf8(codepoint) + rest)[|Utf8(codepoint)|..] == rest;
  }

  lemma EncodedIsUnit(codepoint: nat, rest: string)
    requires codepoint < 0x110000 && !IsHigh(codepoint) && !IsLow(codepoint)
    ensures var piece := Utf8(codepoint); piece != "" && Utf8Unit(piece + rest) == |piece|
  {
    if codepoint < 0x80 {
    } else if codepoint < 0x800 {
    } else if codepoint < 0x10000 {
      LeadOfThree(codepoint);
    } else {
      LeadOfFour(codepoint);
    }
  }

  lemma LeadOfThree(codepoint: nat)
    requires 0x800 <= codepoint < 0x10000 && !IsHigh(codepoint) && !IsLow(codepoint)
    ensures var lead, next := codepoint / 4096, codepoint / 64 % 64;
      0 <= lead <= 15 && 0 <= next < 64 && (lead == 0 ==> next >= 0x20) && (lead == 13 ==> next <= 0x1F)
  {
  }

  lemma LeadOfFour(codepoint: nat)
    requires 0x10000 <= codepoint < 0x110000
    ensures var lead, next := codepoint / 262144, codepoint / 4096 % 64;
      0 <= lead <= 4 && 0 <= next < 64 && (lead == 0 ==> next >= 0x10) && (lead == 4 ==> next <= 0x0F)
  {
  }

  lemma {:induction false} AsciiKept(raw: string, n: nat)
    requires IsUtf8(raw) && n <= |raw| && forall i :: 0 <= i < n ==> raw[i] as int < 0x80
    ensures IsUtf8(raw[n..])
  {
    if n > 0 {
      AsciiKept(raw[1..], n - 1);
      assert raw[1..][n - 1..] == raw[n..];
    }
  }

  lemma {:induction false} UnitKept(s: string, rest: string)
    requires s != "" && Utf8Unit(s) > 0 && IsUtf8(rest)
    ensures IsUtf8(s[..Utf8Unit(s)] + rest)
    ensures forall i :: 0 <= i < Utf8Unit(s) ==> s[i] as int >= 0x80 || Utf8Unit(s) == 1
  {
    hide IsUtf8;
    var n := Utf8Unit(s);
    var t := s[..n] + rest;
    assert Utf8Unit(t) == n && t[n..] == rest;
    Utf8Step(t);
  }

  lemma Utf8Step(s: string)
    requires s != "" && Utf8Unit(s) > 0 && IsUtf8(s[Utf8Unit(s)..])
    ensures IsUtf8(s)
  {
  }

  /** Escapes never break UTF-8: a lone surrogate becomes U+FFFD instead. */
  lemma {:induction false} DecodeKeepsUtf8(raw: string)
    requires StringBody(raw) && IsUtf8(raw)
    ensures IsUtf8(Decode(raw))
    decreases |raw|
  {
    hide Utf8, Utf8Unit, UnicodeEscape;
    if raw == "" {
    } else if raw[0] != '\\' {
      var n := Utf8Unit(raw);
      UnitKept(raw, "");
      PlainSplits(raw, n);
      DecodeKeepsUtf8(raw[n..]);
      UnitKept(raw, Decode(raw[n..]));
    } else {
      var (piece, n) := DecodeUnit(raw);
      EscapeIsAscii(raw);
      AsciiKept(raw, n);
      DecodeKeepsUtf8(raw[n..]);
      if raw[1] == 'u' {
        EncodedIsUtf8(UnicodeEscape(raw).0, Decode(raw[n..]));
      } else {
        AsciiIsUtf8(piece[0], Decode(raw[n..]));
      }
    }
  }

  lemma EscapeIsAscii(raw: string)
    requires StringBody(raw) && raw != "" && raw[0] == '\\'
    ensures forall i :: 0 <= i < DecodeUnit(raw).1 ==> raw[i] as int < 0x80
    ensures raw[1] != 'u' ==> DecodeUnit(raw).0 == [SimpleEscape(raw[1])] && SimpleEscape(raw[1]) as int < 0x80
  {
    hide UnicodeEscape, SimpleEscape;
    if raw[1] == 'u' {
      UnicodeIsAscii(raw);
    } else {
      SimpleIsAscii(raw[1]);
    }
  }

  lemma SimpleIsAscii(c: char)
    requires IsSimpleEscape(c)
    ensures c as int < 0x80 && SimpleEscape(c) as int < 0x80
  {
  }

  lemma UnicodeIsAscii(raw: string)
    requires StringBody(raw) && |raw| >= 2 && raw[0] == '\\' && raw[1] == 'u'
    ensures forall i :: 0 <= i < UnicodeEscape(raw).1 ==> raw[i] as int < 0x80
  {
    hide Hex4;
  }

  lemma AsciiIsUtf8(c: char, rest: string)
    requires c as int < 0x80 && IsUtf8(rest)
    ensures IsUtf8([c] + rest)
  {
    assert ([c] + rest)[1..] == rest;
  }

  // --- integers -------------------------------------------------------------------------------------

  const INT64_MIN: int := -9223372036854775808
  const INT64_MAX: int := 9223372036854775807

  predicate IsInt64(n: int) { INT64_MIN <= n <= INT64_MAX }

  /** An optional minus sign and digits. */
  predicate IntText(text: string) {
    text != "" && if text[0] == '-' then Digits(text[1..]) else Digits(text)
  }

  function Negated(n: int): int { -n }

  function IntOf(text: string): int
    requires IntText(text)
  {
    if text[0] == '-' then Negated(NatOf(text[1..])) else NatOf(text)
  }

  /** Value::toInt on text without a point or an exponent. Its accumulator is
      checked against the limit before each step, so that it never wraps. */
  method ToInt(text: string, fallback: int) returns (n: int)
    requires IntText(text)
    ensures n == if IsInt64(IntOf(text)) then IntOf(text) else fallback
  {
    var negative := text[0] == '-';
    var i := if negative then 1 else 0;
    ghost var start := i;
    ghost var digits := text[start..];
    var limit: nat := if negative then 9223372036854775808 else 9223372036854775807;
    var accumulator: nat := 0;
    while i < |text|
      invariant start <= i <= |text| && accumulator == NatOf(digits[..i - start]) && accumulator <= limit
    {
      assert digits[i - start] == text[i];
      var digit := DigitValue(text[i]);
      assert digits[..i - start + 1][..i - start] == digits[..i - start];
      if accumulator > (limit - digit) / 10 {
        NatOfGrows(digits, i - start + 1);
        return fallback;
      }
      accumulator := accumulator * 10 + digit;
      i := i + 1;
    }
    assert digits[..|text| - start] == digits;
    n := if negative then Negated(accumulator) else accumulator;
  }

  /** std::to_string. */
  function Decimal(n: int): string {
    if n < 0 then "-" + DecimalNat(-n) else DecimalNat(n)
  }

  /** Printing an integer and reading it back, in the grammar's terms. */
  lemma DecimalReads(n: int)
    ensures IntText(Decimal(n)) && IntOf(Decimal(n)) == n
    ensures WellFormedNumber(DecimalNumber(n)) && NumberText(DecimalNumber(n)) == Decimal(n)
  {
    DecimalNatReads(if n < 0 then -n else n);
  }

  function DecimalNumber(n: int): Number {
    Number.Number(if n < 0 then "-" else "", DecimalNat(if n < 0 then -n else n), "", "")
  }
}
