/**
 Decimal printing, string quoting and unquoting, and UTF-8: the text codecs that the
 reader and the writers share (`json_tool.h` and the helpers of both classes).
 */
module JsonTool {
  import opened Wrappers
  import opened JsonValue

  // ---------------------------------------------------------------- C strings

  /** The C string that starts a buffer: everything before the first NUL. */
  function CStr(s: string): string {
    if s == "" || s[0] == '\0' then "" else [s[0]] + CStr(s[1..])
  }

  predicate NulFree(s: string) {
    forall i :: 0 <= i < |s| ==> s[i] != '\0'
  }

  lemma {:induction false} CStrStopsAtNul(s: string, tail: string)
    requires NulFree(s) && (tail == "" || tail[0] == '\0')
    ensures CStr(s + tail) == s
  {
    if s == "" {
      assert s + tail == tail;
    } else {
      assert (s + tail)[1..] == s[1..] + tail;
      CStrStopsAtNul(s[1..], tail);
    }
  }

  lemma {:induction false} CStrIsNulFree(s: string)
    ensures NulFree(CStr(s))
  {
    if s != "" && s[0] != '\0' {
      CStrIsNulFree(s[1..]);
    }
  }

  // ---------------------------------------------------------------- decimal numbers

  predicate IsDigit(c: char) {
    '0' <= c <= '9'
  }

  predicate AllDigits(s: string) {
    forall i :: 0 <= i < |s| ==> IsDigit(s[i])
  }

  function DigitChar(d: nat): char
    requires d < 10
  {
    ('0' as int + d) as char
  }

  function DigitOf(c: char): nat
    requires IsDigit(c)
  {
    c as int - '0' as int
  }

  /** The decimal notation of a number. */
  function Digits(n: nat): string {
    if n < 10 then [DigitChar(n)] else Digits(n / 10) + [DigitChar(n % 10)]
  }

  /** The number that a string of digits denotes. */
  function DecimalValue(s: string): nat
    requires AllDigits(s)
  {
    if s == "" then 0 else 10 * DecimalValue(s[..|s| - 1]) + DigitOf(s[|s| - 1])
  }

  function IntText(i: int): string {
    if i < 0 then "-" + Digits(-i) else Digits(i)
  }

  function Pow10(k: nat): nat {
    if k == 0 then 1 else 10 * Pow10(k - 1)
  }

  lemma {:induction false} DigitsDenote(n: nat)
    ensures AllDigits(Digits(n)) && DecimalValue(Digits(n)) == n
  {
    if n >= 10 {
      DigitsDenote(n / 10);
      assert Digits(n)[..|Digits(n)| - 1] == Digits(n / 10);
    } else {
      assert Digits(n)[..0] == "";
    }
  }

  lemma {:induction false} DigitsLength(n: nat, k: nat)
    requires 0 < k && n < Pow10(k)
    ensures 0 < |Digits(n)| <= k
  {
    if n >= 10 {
      assert Pow10(1) == 10;
      DigitsLength(n / 10, k - 1);
    }
  }

  lemma UInt64Length(n: nat)
    requires n <= MAX_UINT64
    ensures 0 < |Digits(n)| <= 20
  {
    assert Pow10(20) == 100_000_000_000_000_000_000 by {
      assert Pow10(4) == 10_000;
      assert Pow10(8) == 100_000_000;
      assert Pow10(12) == 1_000_000_000_000;
      assert Pow10(16) == 10_000_000_000_000_000;
    }
    DigitsLength(n, 20);
  }

  const BUFFER_SIZE: nat := 3 * 8 + 1

  /** `*--current = c` */
  method PutBefore(buffer: array<char>, current: nat, c: char, ghost end: nat) returns (next: nat)
    requires 0 < current <= end <= buffer.Length
    modifies buffer
    ensures next + 1 == current
    ensures buffer[next..end] == [c] + old(buffer[current..end])
    ensures buffer[end..] == old(buffer[end..])
  {
    next := current - 1;
    buffer[next] := c;
  }

  /** Prints a number and a closing NUL into the buffer, backwards from `end`. */
  method UIntToString(value: nat, buffer: array<char>, end: nat) returns (current: nat)
    requires value <= MAX_UINT64
    requires BUFFER_SIZE <= end <= buffer.Length
    modifies buffer
    ensures current + |Digits(value)| + 1 == end
    ensures buffer[current..end] == Digits(value) + "\0"
    ensures buffer[end..] == old(buffer[end..])
  {
    UInt64Length(value);
    hide DigitChar;
    current := PutBefore(buffer, end, '\0', end);
    current := PutBefore(buffer, current, DigitChar(value % 10), end);
    var rest: nat := value / 10;
    ghost var printed := [DigitChar(value % 10)];
    while rest != 0
      invariant Digits(value) == Unprinted(rest) + printed
      invariant current + |printed| + 1 == end
      invariant buffer[current..end] == printed + "\0"
      invariant buffer[end..] == old(buffer[end..])
    {
      assert Unprinted(rest) == Unprinted(rest / 10) + [DigitChar(rest % 10)];
      current := PutBefore(buffer, current, DigitChar(rest % 10), end);
      printed := [DigitChar(rest % 10)] + printed;
      rest := rest / 10;
    }
  }

  /** What is still to be printed before the digits already in the buffer. */
  ghost function Unprinted(rest: nat): string {
    if rest == 0 then "" else Digits(rest)
  }

  method UIntValueToString(value: nat) returns (text: string)
    requires value <= MAX_UINT64
    ensures text == Digits(value)
  {
    var buffer := new char[BUFFER_SIZE];
    var current := UIntToString(value, buffer, BUFFER_SIZE);
    text := CStr(buffer[current..]);
    DigitsDenote(value);
    assert buffer[current..] == Digits(value) + "\0";
    CStrStopsAtNul(Digits(value), "\0");
  }

  /** Negating the smallest `int64` wraps to itself; its `uint64` view is then the magnitude. */
  lemma MagnitudeWraps(value: int)
    requires MIN_INT64 <= value <= MAX_INT64
    ensures ToUInt64(if value < 0 then ToInt64(-value) else value) == if value < 0 then -value else value
  {
  }

  lemma IntTextIsNulFree(value: int)
    ensures NulFree(IntText(value))
  {
    DigitsDenote(if value < 0 then -value else value);
  }

  method IntValueToString(value: int) returns (text: string)
    requires MIN_INT64 <= value <= MAX_INT64
    ensures text == IntText(value)
  {
    var buffer := new char[BUFFER_SIZE];
    var isNegative := value < 0;
    var magnitude := if isNegative then ToInt64(-value) else value;
    MagnitudeWraps(value);
    hide ToInt64, ToUInt64, Digits, CStr;
    var current := UIntToString(ToUInt64(magnitude), buffer, BUFFER_SIZE);
    UInt64Length(if isNegative then -value else value);
    if isNegative {
      current := PutBefore(buffer, current, '-', BUFFER_SIZE);
    }
    assert buffer[current..BUFFER_SIZE] == IntText(value) + "\0";
    text := CStr(buffer[current..]);
    assert buffer[current..] == buffer[current..BUFFER_SIZE];
    IntTextIsNulFree(value);
    CStrStopsAtNul(IntText(value), "\0");
  }

  // ---------------------------------------------------------------- UTF-8

  /** The bytes of a code point; empty above 0x10FFFF. */
  function CodePointToUtf8(cp: nat): string {
    if cp <= 0x7F then
      [cp as char]
    else if cp <= 0x7FF then
      [(0xC0 + cp / 64 % 32) as char, (0x80 + cp % 64) as char]
    else if cp <= 0xFFFF then
      [(0xE0 + cp / 4096 % 16) as char, (0x80 + cp / 64 % 64) as char, (0x80 + cp % 64) as char]
    else if cp <= 0x10FFFF then
      [(0xF0 + cp / 0x4_0000 % 8) as char, (0x80 + cp / 4096 % 64) as char,
       (0x80 + cp / 64 % 64) as char, (0x80 + cp % 64) as char]
    else
      ""
  }

  predicate IsScalarValue(cp: nat) {
    cp <= 0x10FFFF && !(0xD800 <= cp <= 0xDFFF)
  }

  predicate IsTail(s: string, i: nat) {
    i < |s| && 0x80 <= s[i] as int <= 0xBF
  }

  function TailBits(s: string, i: nat): nat
    requires IsTail(s, i)
  {
    s[i] as int - 0x80
  }

  /** One character by its lead byte, without the range rules. */
  function Utf8Shape(s: string): Option<(nat, nat)> {
    if s == "" then None
    else
      var b := s[0] as int;
      if b <= 0x7F then Some((b, 1))
      else if 0xC0 <= b <= 0xDF && IsTail(s, 1) then
        Some(((b - 0xC0) * 64 + TailBits(s, 1), 2))
      else if 0xE0 <= b <= 0xEF && IsTail(s, 1) && IsTail(s, 2) then
        Some(((b - 0xE0) * 4096 + TailBits(s, 1) * 64 + TailBits(s, 2), 3))
      else if 0xF0 <= b <= 0xF7 && IsTail(s, 1) && IsTail(s, 2) && IsTail(s, 3) then
        Some(((b - 0xF0) * 0x4_0000 + TailBits(s, 1) * 4096 + TailBits(s, 2) * 64 + TailBits(s, 3), 4))
      else None
  }

  /** The decoder of RFC 3629, section 3: shortest form, no surrogates, at most 0x10FFFF. */
  function Utf8Decode(s: string): Option<(nat, nat)> {
    match Utf8Shape(s)
    case None => None
    case Some((cp, len)) =>
      var shortest := if cp <= 0x7F then 1 else if cp <= 0x7FF then 2 else if cp <= 0xFFFF then 3 else 4;
      if len == shortest && IsScalarValue(cp) then Some((cp, len)) else None
  }

  lemma Utf8ShapeInverts(cp: nat, tail: string)
    requires cp <= 0x10FFFF
    ensures CodePointToUtf8(cp) != ""
    ensures Utf8Shape(CodePointToUtf8(cp) + tail) == Some((cp, |CodePointToUtf8(cp)|))
  {
    if cp <= 0x7F {
    } else if cp <= 0x7FF {
      assert cp / 64 % 32 == cp / 64;
    } else if cp <= 0xFFFF {
      ThreeBytes(cp, tail);
    } else {
      FourBytes(cp, tail);
    }
  }

  lemma ThreeBytes(cp: nat, tail: string)
    requires 0x7FF < cp <= 0xFFFF
    ensures Utf8Shape(CodePointToUtf8(cp) + tail) == Some((cp, 3))
  {
    var s := CodePointToUtf8(cp) + tail;
    assert cp / 4096 % 16 == cp / 4096 && cp / 64 == cp / 4096 * 64 + cp / 64 % 64;
    assert s[0] as int == 0xE0 + cp / 4096;
    assert IsTail(s, 1) && TailBits(s, 1) == cp / 64 % 64;
    assert IsTail(s, 2) && TailBits(s, 2) == cp % 64;
  }

  lemma FourBytes(cp: nat, tail: string)
    requires 0xFFFF < cp <= 0x10FFFF
    ensures Utf8Shape(CodePointToUtf8(cp) + tail) == Some((cp, 4))
  {
    var s := CodePointToUtf8(cp) + tail;
    assert cp / 0x4_0000 % 8 == cp / 0x4_0000;
    assert cp / 4096 == cp / 0x4_0000 * 64 + cp / 4096 % 64;
    assert cp / 64 == cp / 4096 * 64 + cp / 64 % 64;
    assert s[0] as int == 0xF0 + cp / 0x4_0000;
    assert IsTail(s, 1) && TailBits(s, 1) == cp / 4096 % 64;
    assert IsTail(s, 2) && TailBits(s, 2) == cp / 64 % 64;
    assert IsTail(s, 3) && TailBits(s, 3) == cp % 64;
  }

  /** A conforming decoder recovers the code point exactly when it is a Unicode scalar value. */
  lemma Utf8RoundTrip(cp: nat, tail: string)
    requires cp <= 0x10FFFF
    ensures Utf8Decode(CodePointToUtf8(cp) + tail) == Some((cp, |CodePointToUtf8(cp)|)) <==> IsScalarValue(cp)
  {
    Utf8ShapeInverts(cp, tail);
  }

  /** No encoding is a prefix of another one; in particular the encoding is injective. */
  lemma Utf8PrefixFree(a: nat, b: nat)
    requires a <= 0x10FFFF && b <= 0x10FFFF
    requires CodePointToUtf8(a) <= CodePointToUtf8(b)
    ensures a == b
  {
    var u, v := CodePointToUtf8(a), CodePointToUtf8(b);
    Utf8ShapeInverts(a, v[|u|..]);
    Utf8ShapeInverts(b, "");
    assert u + v[|u|..] == v == v + "";
  }

  // ---------------------------------------------------------------- quoting

  predicate IsControlCharacter(c: char) {
    '\0' < c && c as int <= 0x1F
  }

  function HexChar(d: nat): char
    requires d < 16
  {
    if d < 10 then DigitChar(d) else ('A' as int + d - 10) as char
  }

  /** Four upper-case hexadecimal digits. */
  function Hex4(n: nat): (r: string)
    requires n < 0x1_0000
    ensures |r| == 4
  {
    [HexChar(n / 4096), HexChar(n / 256 % 16), HexChar(n / 16 % 16), HexChar(n % 16)]
  }

  function EscapeChar(c: char): string {
    if c == '"' then "\\\""
    else if c == '\\' then "\\\\"
    else if c == '\U{0008}' then "\\b"
    else if c == '\U{000C}' then "\\f"
    else if c == '\n' then "\\n"
    else if c == '\r' then "\\r"
    else if c == '\t' then "\\t"
    else if IsControlCharacter(c) then "\\u" + Hex4(c as int)
    else [c]
  }

  function EscapeAll(s: string): string {
    if s == "" then "" else EscapeChar(s[0]) + EscapeAll(s[1..])
  }

  /** The JSON literal of a C string. */
  function Quote(s: string): string {
    "\"" + EscapeAll(s) + "\""
  }

  predicate IsPlain(c: char) {
    EscapeChar(c) == [c]
  }

  lemma {:induction false} EscapeAllPlain(s: string)
    requires forall i :: 0 <= i < |s| ==> IsPlain(s[i])
    ensures EscapeAll(s) == s
  {
    if s != "" {
      EscapeAllPlain(s[1..]);
      assert s == [s[0]] + s[1..];
    }
  }

  lemma {:induction false} EscapeAllSnoc(s: string, c: char)
    ensures EscapeAll(s + [c]) == EscapeAll(s) + EscapeChar(c)
  {
    if s == "" {
      assert s + [c] == [c] && [c][1..] == "";
      assert EscapeAll([c]) == EscapeChar(c) + EscapeAll("");
    } else {
      assert (s + [c])[1..] == s[1..] + [c];
      EscapeAllSnoc(s[1..], c);
    }
  }

  method ContainsControlCharacter(value: string) returns (found: bool)
    ensures found <==> exists i :: 0 <= i < |value| && IsControlCharacter(value[i])
  {
    var i := 0;
    while i < |value|
      invariant 0 <= i <= |value|
      invariant forall j :: 0 <= j < i ==> !IsControlCharacter(value[j])
    {
      if IsControlCharacter(value[i]) {
        return true;
      }
      i := i + 1;
    }
    return false;
  }

  predicate IsSpecial(c: char) {
    c == '"' || c == '\\' || c == '\U{0008}' || c == '\U{000C}' || c == '\n' || c == '\r' || c == '\t'
  }

  /** Whether `strpbrk(value, "\"\\\b\f\n\r\t")` finds a character. */
  predicate HasSpecial(value: string) {
    exists i :: 0 <= i < |value| && IsSpecial(value[i])
  }

  method AppendEscaped(result: string, c: char) returns (r: string)
    ensures r == result + EscapeChar(c)
  {
    if c == '"' {
      r := result + "\\\"";
    } else if c == '\\' {
      r := result + "\\\\";
    } else if c == '\U{0008}' {
      r := result + "\\b";
    } else if c == '\U{000C}' {
      r := result + "\\f";
    } else if c == '\n' {
      r := result + "\\n";
    } else if c == '\r' {
      r := result + "\\r";
    } else if c == '\t' {
      r := result + "\\t";
    } else if IsControlCharacter(c) {
      r := result + ("\\u" + Hex4(c as int));
    } else {
      r := result + [c];
    }
  }

  lemma NothingToEscape(s: string)
    requires !HasSpecial(s)
    requires forall i :: 0 <= i < |s| ==> !IsControlCharacter(s[i])
    ensures EscapeAll(s) == s
  {
    forall i | 0 <= i < |s| ensures IsPlain(s[i]) {
      assert !IsSpecial(s[i]);
    }
    EscapeAllPlain(s);
  }

  /** The escaping loop over the whole string. */
  method QuoteByEscaping(s: string) returns (result: string)
    ensures result == Quote(s)
  {
    hide EscapeChar;
    result := "\"";
    var i := 0;
    while i < |s|
      invariant 0 <= i <= |s|
      invariant result == "\"" + EscapeAll(s[..i])
    {
      EscapeAllSnoc(s[..i], s[i]);
      assert s[..i + 1] == s[..i] + [s[i]];
      result := AppendEscaped(result, s[i]);
      i := i + 1;
    }
    assert s[..|s|] == s;
    result := result + "\"";
  }

  /** A null pointer prints nothing; every other C string prints its literal. */
  method ValueToQuotedString(value: Option<string>) returns (text: string)
    requires value.Some? ==> NulFree(value.value)
    ensures text == if value.None? then "" else Quote(value.value)
  {
    if value.None? {
      return "";
    }
    var control := ContainsControlCharacter(value.value);
    if !HasSpecial(value.value) && !control {
      NothingToEscape(value.value);
      return "\"" + value.value + "\"";
    }
    text := QuoteByEscaping(value.value);
  }

  // ---------------------------------------------------------------- unquoting

  datatype EscapeError =
    | EmptyEscape
    | UnknownEscape
    | FourDigitsExpected
    | HexDigitExpected
    | SixCharactersExpected
    | SecondHalfExpected

  datatype Unquoted = Text(text: string) | Malformed(error: EscapeError)

  /** A code point and the number of characters it was read from. */
  datatype CodePoint = CodePoint(cp: nat, used: nat) | BadCodePoint(error: EscapeError)

  function HexValue(c: char): Option<nat> {
    if '0' <= c <= '9' then Some(c as int - '0' as int)
    else if 'a' <= c <= 'f' then Some(c as int - 'a' as int + 10)
    else if 'A' <= c <= 'F' then Some(c as int - 'A' as int + 10)
    else None
  }

  /** The first `k` characters as a hexadecimal number. */
  function HexPrefix(s: string, k: nat): Option<nat>
    requires k <= |s|
  {
    if k == 0 then Some(0)
    else
      match (HexPrefix(s, k - 1), HexValue(s[k - 1]))
      case (Some(n), Some(d)) => Some(16 * n + d)
      case (_, _) => None
  }

  /** Four hexadecimal digits after `\u`. */
  function UnescapeHex4(s: string): CodePoint {
    if |s| < 4 then BadCodePoint(FourDigitsExpected)
    else
      match HexPrefix(s, 4)
      case Some(n) => CodePoint(n, 4)
      case None => BadCodePoint(HexDigitExpected)
  }

  /** The rest of a `\u` escape: one half, or a surrogate pair whose second half is not checked. */
  function UnescapeCodePoint(s: string): CodePoint {
    var first := UnescapeHex4(s);
    if first.BadCodePoint? || !(0xD800 <= first.cp <= 0xDBFF) then first
    else if |s| - 4 < 6 then BadCodePoint(SixCharactersExpected)
    else if s[4] != '\\' || s[5] != 'u' then BadCodePoint(SecondHalfExpected)
    else
      var second := UnescapeHex4(s[6..]);
      if second.BadCodePoint? then second
      else CodePoint(0x1_0000 + first.cp % 0x400 * 0x400 + second.cp % 0x400, 10)
  }

  function SimpleEscape(c: char): Option<char> {
    if c == '"' || c == '/' || c == '\\' then Some(c)
    else if c == 'b' then Some('\U{0008}')
    else if c == 'f' then Some('\U{000C}')
    else if c == 'n' then Some('\n')
    else if c == 'r' then Some('\r')
    else if c == 't' then Some('\t')
    else None
  }

  function Prepend(s: string, r: Unquoted): Unquoted {
    if r.Text? then Text(s + r.text) else r
  }

  lemma {:induction false} HexPrefixBound(s: string, k: nat)
    requires k <= 4 && k <= |s|
    ensures HexPrefix(s, k).Some? ==> HexPrefix(s, k).value < if k == 0 then 1 else if k == 1 then 16
            else if k == 2 then 256 else if k == 3 then 4096 else 0x1_0000
  {
    if k > 0 {
      HexPrefixBound(s, k - 1);
    }
  }

  /** Every accepted escape is a code point, and its characters are there. */
  lemma CodePointInRange(s: string)
    ensures UnescapeCodePoint(s).CodePoint? ==>
              UnescapeCodePoint(s).cp <= 0x10FFFF && 0 < UnescapeCodePoint(s).used <= |s|
  {
    if |s| >= 4 {
      HexPrefixBound(s, 4);
    }
  }

  /** The text that the body of a string literal (without its quotes) denotes. */
  function Unquote(s: string): Unquoted {
    if s == "" || s[0] == '"' then Text("")
    else if s[0] != '\\' then Prepend([s[0]], Unquote(s[1..]))
    else if |s| == 1 then Malformed(EmptyEscape)
    else if SimpleEscape(s[1]).Some? then Prepend([SimpleEscape(s[1]).value], Unquote(s[2..]))
    else if s[1] == 'u' then
      CodePointInRange(s[2..]);
      var c := UnescapeCodePoint(s[2..]);
      if c.BadCodePoint? then Malformed(c.error)
      else Prepend(CodePointToUtf8(c.cp), Unquote(s[2 + c.used..]))
    else Malformed(UnknownEscape)
  }

  lemma PrependTwice(a: string, b: string, r: Unquoted)
    ensures Prepend(a, Prepend(b, r)) == Prepend(a + b, r)
  {
    if r.Text? {
      assert a + (b + r.text) == (a + b) + r.text;
    }
  }

  /** Unquoting inverts the escaping of every string. */
  lemma {:induction false} UnquoteEscapeAll(s: string)
    ensures Unquote(EscapeAll(s)) == Text(s)
  {
    if s != "" {
      UnquoteEscapeAll(s[1..]);
      UnquoteEscapeChar(s[0], EscapeAll(s[1..]));
      assert s == [s[0]] + s[1..];
    }
  }

  lemma UnquoteEscapeChar(c: char, rest: string)
    ensures Unquote(EscapeChar(c) + rest) == Prepend([c], Unquote(rest))
  {
    if IsPlain(c) {
      assert ([c] + rest)[1..] == rest;
    } else if |EscapeChar(c)| == 2 {
      UnquoteShortEscape(c, rest);
    } else {
      UnquoteControlEscape(c, rest);
    }
  }

  lemma UnquoteControlEscape(c: char, rest: string)
    requires |EscapeChar(c)| > 2
    ensures Unquote(EscapeChar(c) + rest) == Prepend([c], Unquote(rest))
  {
    var n := c as int;
    assert CodePointToUtf8(n) == [c];
    assert EscapeChar(c) == "\\u" + Hex4(n) && |Hex4(n)| == 4;
    hide EscapeChar, CodePointToUtf8, Unquote, HexPrefix, Hex4;
    Hex4Spells(n);
    UnquoteUnit(Hex4(n), n, rest);
    Regroup("\\u", Hex4(n), "", "", rest);
  }

  lemma UnquoteShortEscape(c: char, rest: string)
    requires |EscapeChar(c)| == 2
    ensures Unquote(EscapeChar(c) + rest) == Prepend([c], Unquote(rest))
  {
    var t := EscapeChar(c) + rest;
    assert t[2..] == rest;
    assert t[0] == '\\' && t[1] == EscapeChar(c)[1];
    assert SimpleEscape(t[1]) == Some(c);
  }

  lemma UnquoteLongEscape(body: string, cp: nat, used: nat)
    requires used <= |body| && UnescapeCodePoint(body) == CodePoint(cp, used)
    ensures Unquote("\\u" + body) == Prepend(CodePointToUtf8(cp), Unquote(body[used..]))
  {
    hide UnescapeCodePoint, CodePointToUtf8;
    var t := "\\u" + body;
    assert t[0] == '\\' && t[1] == 'u' && t[2..] == body;
    assert t[2 + used..] == body[used..];
  }

  lemma HexCharInverts(d: nat)
    requires d < 16
    ensures HexValue(HexChar(d)) == Some(d)
  {
  }

  lemma HexPrefixStep(s: string, k: nat, n: nat)
    requires k < |s| && n < 0x1_0000
    requires HexPrefix(s, k) == Some(n / 16) && s[k] == HexChar(n % 16)
    ensures HexPrefix(s, k + 1) == Some(n)
  {
    HexCharInverts(n % 16);
    hide HexChar, HexValue;
  }

  lemma UnescapeHex4Inverts(n: nat, rest: string)
    requires n < 0x1_0000
    ensures UnescapeHex4(Hex4(n) + rest) == CodePoint(n, 4)
  {
    hide HexChar;
    var s := Hex4(n) + rest;
    assert HexPrefix(s, 0) == Some(0);
    hide HexPrefix;
    HexPrefixStep(s, 0, n / 4096);
    HexPrefixStep(s, 1, n / 256);
    HexPrefixStep(s, 2, n / 16);
    HexPrefixStep(s, 3, n);
  }

  /** Four hexadecimal digits, in any mix of upper and lower case, that spell a number. */
  predicate SpellsHex(h: string, n: nat) {
    |h| == 4 && HexPrefix(h, 4) == Some(n)
  }

  lemma Hex4Spells(n: nat)
    requires n < 0x1_0000
    ensures SpellsHex(Hex4(n), n)
  {
    UnescapeHex4Inverts(n, "");
    assert Hex4(n) + "" == Hex4(n);
  }

  lemma {:induction false} HexPrefixOfFront(h: string, k: nat, rest: string)
    requires k <= |h|
    ensures HexPrefix(h + rest, k) == HexPrefix(h, k)
  {
    if k > 0 {
      HexPrefixOfFront(h, k - 1, rest);
    }
  }

  lemma UnescapeSpelled(h: string, n: nat, rest: string)
    requires SpellsHex(h, n)
    ensures UnescapeHex4(h + rest) == CodePoint(n, 4) && n < 0x1_0000
  {
    HexPrefixOfFront(h, 4, rest);
    HexPrefixBound(h, 4);
    hide HexPrefix;
  }

  predicate IsHighHalf(n: nat) {
    0xD800 <= n <= 0xDBFF
  }

  predicate IsLowHalf(n: nat) {
    0xDC00 <= n <= 0xDFFF
  }

  /** The code point of a surrogate pair (section 2.2 of RFC 2781) */
  function PairCodePoint(hi: nat, lo: nat): Option<nat> {
    if IsHighHalf(hi) && IsLowHalf(lo) then Some(0x1_0000 + (hi - 0xD800) * 0x400 + (lo - 0xDC00)) else None
  }

  /** One `\u` escape that is not the first half of a pair */
  lemma UnquoteUnit(h: string, n: nat, rest: string)
    requires SpellsHex(h, n) && !IsHighHalf(n)
    ensures Unquote("\\u" + (h + rest)) == Prepend(CodePointToUtf8(n), Unquote(rest))
  {
    hide Unquote, CodePointToUtf8, HexPrefix;
    UnescapeSpelled(h, n, rest);
    assert (h + rest)[4..] == rest;
    UnquoteLongEscape(h + rest, n, 4);
  }

  /** What the reader makes of a first half and any escape behind it */
  function Joined(hi: nat, lo: nat): nat {
    0x1_0000 + hi % 0x400 * 0x400 + lo % 0x400
  }

  /** The first half of a pair takes any escape behind it for the second. */
  lemma UnquoteTwoUnits(h: string, hi: nat, g: string, lo: nat, rest: string)
    requires SpellsHex(h, hi) && IsHighHalf(hi) && SpellsHex(g, lo)
    ensures Unquote("\\u" + (h + ("\\u" + (g + rest)))) == Prepend(CodePointToUtf8(Joined(hi, lo)), Unquote(rest))
  {
    hide CodePointToUtf8, Unquote, Prepend, HexPrefix;
    UnescapeTwoUnits(h, hi, g, lo, rest);
    DropThree(h, "\\u", g, rest);
    UnquoteLongEscape(h + ("\\u" + (g + rest)), Joined(hi, lo), 10);
  }

  lemma DropThree(a: string, b: string, c: string, rest: string)
    ensures (a + (b + (c + rest)))[|a| + |b| + |c|..] == rest
  {
  }

  lemma UnescapeTwoUnits(h: string, hi: nat, g: string, lo: nat, rest: string)
    requires SpellsHex(h, hi) && IsHighHalf(hi) && SpellsHex(g, lo)
    ensures UnescapeCodePoint(h + ("\\u" + (g + rest))) == CodePoint(Joined(hi, lo), 10)
  {
    hide HexPrefix;
    var u := "\\u" + (g + rest);
    var body := h + u;
    UnescapeSpelled(h, hi, u);
    UnescapeSpelled(g, lo, rest);
    assert body[4] == u[0] && body[5] == u[1];
    assert body[6..] == g + rest;
  }

  /** Two escapes are read as the code point of their pair exactly if the second is a second half. */
  lemma PairIsReadIff(h: string, hi: nat, g: string, lo: nat, rest: string)
    requires SpellsHex(h, hi) && IsHighHalf(hi) && SpellsHex(g, lo)
    ensures var read := UnescapeCodePoint(h + ("\\u" + (g + rest)));
            read.CodePoint? && (PairCodePoint(hi, lo) == Some(read.cp) <==> IsLowHalf(lo))
  {
    UnescapeTwoUnits(h, hi, g, lo, rest);
  }

  lemma FourHexDigits(h: string, a: nat, b: nat, c: nat, d: nat)
    requires |h| == 4 && HexValue(h[0]) == Some(a) && HexValue(h[1]) == Some(b)
    requires HexValue(h[2]) == Some(c) && HexValue(h[3]) == Some(d)
    ensures SpellsHex(h, 4096 * a + 256 * b + 16 * c + d)
  {
    hide HexValue;
    assert HexPrefix(h, 1) == Some(a);
    assert HexPrefix(h, 2) == Some(16 * a + b);
    assert HexPrefix(h, 3) == Some(256 * a + 16 * b + c);
  }

  /** The escapes `\ud800\u0041` are no pair and are read as the code point 0x10041. */
  lemma SecondHalfIsNotChecked()
    ensures PairCodePoint(0xD800, 0x41) == None
    ensures Unquote("\\u" + ("d800" + ("\\u" + ("0041" + "")))) == Prepend(CodePointToUtf8(0x1_0041), Unquote(""))
  {
    hide Unquote, SpellsHex, CodePointToUtf8, Prepend;
    FourHexDigits("d800", 13, 8, 0, 0);
    FourHexDigits("0041", 0, 0, 4, 1);
    UnquoteTwoUnits("d800", 0xD800, "0041", 0x41, "");
  }

  /** The escapes of section 7 of RFC 8259 for one Unicode scalar value, in any spelling of the digits */
  predicate EscapesScalar(e: string, cp: nat) {
    || (|e| == 6 && e[..2] == "\\u" && SpellsHex(e[2..], cp) && IsScalarValue(cp))
    || (|e| == 12 && e[..2] == "\\u" && e[6..8] == "\\u" && EscapesPair(e[2..6], e[8..], cp))
  }

  /** Two spelled halves of a pair */
  predicate EscapesPair(h: string, g: string, cp: nat)
    requires |h| == 4 && |g| == 4
  {
    match (HexPrefix(h, 4), HexPrefix(g, 4))
    case (Some(hi), Some(lo)) => PairCodePoint(hi, lo) == Some(cp)
    case (_, _) => false
  }

  /** Reading any escape of a scalar value yields its UTF-8 bytes. */
  lemma UnquoteUnicodeEscape(e: string, cp: nat, rest: string)
    requires EscapesScalar(e, cp)
    ensures Unquote(e + rest) == Prepend(CodePointToUtf8(cp), Unquote(rest))
  {
    hide Unquote, CodePointToUtf8, HexPrefix, Prepend;
    if |e| == 6 {
      UnquoteUnit(e[2..], cp, rest);
      assert e + rest == "\\u" + (e[2..] + rest);
    } else {
      var hi, lo := HexPrefix(e[2..6], 4).value, HexPrefix(e[8..], 4).value;
      UnquoteTwoUnits(e[2..6], hi, e[8..], lo, rest);
      assert e + rest == "\\u" + (e[2..6] + ("\\u" + (e[8..] + rest)));
    }
  }

  /** Every scalar value has such an escape. */
  lemma ScalarHasEscape(cp: nat) returns (e: string)
    requires IsScalarValue(cp)
    ensures EscapesScalar(e, cp)
  {
    hide HexPrefix, Hex4;
    if cp <= 0xFFFF {
      e := "\\u" + Hex4(cp);
      Hex4Spells(cp);
      assert e[2..] == Hex4(cp);
    } else {
      var hi, lo := 0xD800 + (cp - 0x1_0000) / 0x400, 0xDC00 + (cp - 0x1_0000) % 0x400;
      Hex4Spells(hi);
      Hex4Spells(lo);
      e := "\\u" + Hex4(hi) + "\\u" + Hex4(lo);
      assert e[2..6] == Hex4(hi) && e[8..] == Hex4(lo);
    }
  }

  lemma Regroup(a: string, b: string, c: string, d: string, e: string)
    ensures a + b + c + d + e == a + (b + (c + (d + e)))
    ensures a + b + e == a + (b + e)
  {
  }
}
