/**
 The insides of string literals, in both directions: each is a row of characters in the spelling of
 section 7 of RFC 8259 up to its end, or up to an escape that is refused, with the reason.
 */
module JsonLiterals {
  import opened JsonSpelling
  import opened JsonTool
  import opened Wrappers

  predicate IsHex(c: char) {
    c in "0123456789abcdefABCDEF"
  }

  predicate AreHex(s: string) {
    forall i :: 0 <= i < |s| ==> IsHex(s[i])
  }

  /** No quote in it without a backslash, and no backslash alone at its end: what stands between two quotes */
  predicate IsInside(s: string) {
    s == "" || (s[0] != '"' && if s[0] == '\\' then |s| > 1 && IsInside(s[2..]) else IsInside(s[1..]))
  }

  /** The number of four hexadecimal digits */
  ghost predicate Denotes(h: string, n: nat) {
    |h| == 4 &&
    exists a: nat, b: nat, c: nat, d: nat ::
      && IsHexDigit(h[0], a) && IsHexDigit(h[1], b) && IsHexDigit(h[2], c) && IsHexDigit(h[3], d)
      && n == 0x1000 * a + 0x100 * b + 0x10 * c + d
  }

  /** A `\u` escape is a character exactly with four hexadecimal digits, and then has their number. */
  lemma UnitIff(h: string, n: nat)
    ensures IsChar(Unit(h)) <==> |h| == 4 && AreHex(h)
    ensures IsChar(Unit(h)) && UnitValue(Unit(h)) == n <==> Denotes(h, n)
  {
    hide HexPrefix, Denotes, IsHex;
    if |h| == 4 {
      FourHex(h);
      if IsChar(Unit(h)) {
        UnitDenotes(h);
        if Denotes(h, n) {
          DenotedUnit(h, n);
        }
      } else if Denotes(h, n) {
        DenotedUnit(h, n);
      }
    } else {
      assert !Denotes(h, n) by {
        DenotesFour(h, n);
      }
    }
  }

  lemma DenotesFour(h: string, n: nat)
    ensures Denotes(h, n) ==> |h| == 4
  {
    hide IsHexDigit;
  }

  lemma FourHex(h: string)
    requires |h| == 4
    ensures HexPrefix(h, 4).Some? <==> AreHex(h)
  {
    hide HexValue, IsHex, HexPrefix;
    HexPrefixFour(h);
    HexIff(h[0]);
    HexIff(h[1]);
    HexIff(h[2]);
    HexIff(h[3]);
  }

  lemma UnitDenotes(h: string)
    requires |h| == 4 && HexPrefix(h, 4).Some?
    ensures Denotes(h, HexPrefix(h, 4).value)
  {
    hide HexValue, IsHexDigit, HexPrefix;
    HexPrefixFour(h);
    HexDigits(h[0], HexValue(h[0]).value);
    HexDigits(h[1], HexValue(h[1]).value);
    HexDigits(h[2], HexValue(h[2]).value);
    HexDigits(h[3], HexValue(h[3]).value);
  }

  lemma DenotedUnit(h: string, n: nat)
    requires Denotes(h, n)
    ensures SpellsHex(h, n)
  {
    hide HexValue, IsHexDigit, HexPrefix;
    var a: nat, b: nat, c: nat, d: nat :|
      && IsHexDigit(h[0], a) && IsHexDigit(h[1], b) && IsHexDigit(h[2], c) && IsHexDigit(h[3], d)
      && n == 0x1000 * a + 0x100 * b + 0x10 * c + d;
    HexPrefixFour(h);
    HexDigits(h[0], a);
    HexDigits(h[1], b);
    HexDigits(h[2], c);
    HexDigits(h[3], d);
  }

  lemma HexIff(c: char)
    ensures IsHex(c) <==> HexValue(c).Some?
  {
    if HexValue(c).Some? {
      HexDigits(c, HexValue(c).value);
    } else if IsHex(c) {
      var i :| 0 <= i < 22 && "0123456789abcdefABCDEF"[i] == c;
      HexDigits(c, if i < 16 then i else i - 6);
    }
  }

  lemma HexPrefixFour(h: string)
    requires |h| >= 4
    ensures HexPrefix(h, 4) ==
              match (HexValue(h[0]), HexValue(h[1]), HexValue(h[2]), HexValue(h[3]))
              case (Some(a), Some(b), Some(c), Some(d)) => Some(0x1000 * a + 0x100 * b + 0x10 * c + d)
              case (_, _, _, _) => None
  {
    hide HexValue;
    assert HexPrefix(h, 0) == Some(0);
    assert HexPrefix(h, 2) == match (HexPrefix(h, 1), HexValue(h[1]))
                              case (Some(n), Some(d)) => Some(16 * n + d)
                              case (_, _) => None;
    assert HexPrefix(h, 4) == match (HexPrefix(h, 3), HexValue(h[3]))
                              case (Some(n), Some(d)) => Some(16 * n + d)
                              case (_, _) => None;
  }

  // ---------------------------------------------------------------- reading up to a place

  /** Characters that have bytes are read as them, whatever stands behind. */
  lemma {:induction false} UnquotePrefix(cs: seq<Char>, s: string)
    requires AreChars(cs) && CharsText(cs).Some?
    ensures Unquote(SpellChars(cs) + s) == Prepend(CharsText(cs).value, Unquote(s))
    decreases |cs|
  {
    hide Unquote, CodePointToUtf8, HexPrefix, ShortMeaning, UnescapeCodePoint, Prepend;
    if cs == [] {
      assert SpellChars(cs) + s == s;
      PrependNothing(Unquote(s));
    } else {
      var rest := SpellChars(cs[1..]) + s;
      assert SpellChars(cs) + s == SpellChar(cs[0]) + rest;
      match cs[0]
      case Raw(c) =>
        UnquotePrefix(cs[1..], s);
        UnquoteRaw(c, rest);
        PrependTwice([c], CharsText(cs[1..]).value, Unquote(s));
      case Short(c) =>
        UnquotePrefix(cs[1..], s);
        UnquoteShort(c, rest);
        PrependTwice([ShortMeaning(c).value], CharsText(cs[1..]).value, Unquote(s));
      case Unit(h) =>
        var n := UnitValue(cs[0]);
        Regroup("\\u", h, "", "", rest);
        if !IsHighHalf(n) {
          UnquotePrefix(cs[1..], s);
          UnquoteUnit(h, n, rest);
          PrependTwice(CodePointToUtf8(n), CharsText(cs[1..]).value, Unquote(s));
        } else {
          var m, more := UnitValue(cs[1]), SpellChars(cs[2..]) + s;
          UnquotePrefix(cs[2..], s);
          assert cs[1..][1..] == cs[2..];
          assert rest == "\\u" + cs[1].h + more;
          Regroup("\\u", cs[1].h, "", "", more);
          UnquoteTwoUnits(h, n, cs[1].h, m, more);
          PrependTwice(CodePointToUtf8(Joined(n, m)), CharsText(cs[2..]).value, Unquote(s));
        }
    }
  }

  lemma PrependNothing(r: Unquoted)
    ensures Prepend("", r) == r
  {
    if r.Text? {
      assert "" + r.text == r.text;
    }
  }

  // ---------------------------------------------------------------- what is refused

  /** What is wrong with the escape that starts a text, if it is refused */
  function Refusal(s: string): Option<EscapeError> {
    if s == "" || s[0] != '\\' then None
    else if |s| == 1 then Some(EmptyEscape)
    else if s[1] == 'u' then UnitRefusal(s[2..])
    else if s[1] in "\"\\/bfnrt" then None
    else Some(UnknownEscape)
  }

  /** The same behind `\u`: a first half of a surrogate pair wants any other unit behind it. */
  function UnitRefusal(s: string): Option<EscapeError> {
    if |s| < 4 then Some(FourDigitsExpected)
    else if !AreHex(s[..4]) then Some(HexDigitExpected)
    else if !(s[0] in "dD" && s[1] in "89abAB") then None
    else if |s| < 10 then Some(SixCharactersExpected)
    else if s[4..6] != "\\u" then Some(SecondHalfExpected)
    else if !AreHex(s[6..10]) then Some(HexDigitExpected)
    else None
  }

  /** The first halves of surrogate pairs are the units that start with D and then 8, 9, A or B. */
  lemma HighHalfIff(h: string)
    requires |h| == 4 && AreHex(h)
    ensures IsChar(Unit(h)) && (IsHighHalf(UnitValue(Unit(h))) <==> h[0] in "dD" && h[1] in "89abAB")
  {
    hide HexPrefix, AreHex, Denotes, HexValue, IsHexDigit;
    FourHex(h);
    HexPrefixFour(h);
    var a, b, c, d := HexValue(h[0]).value, HexValue(h[1]).value, HexValue(h[2]).value, HexValue(h[3]).value;
    HexBounds(h[0]);
    HexBounds(h[1]);
    HexBounds(h[2]);
    HexBounds(h[3]);
    assert UnitValue(Unit(h)) == 0x1000 * a + 0x100 * b + 0x10 * c + d;
    HighDigits(a, b, c, d);
  }

  lemma HighDigits(a: nat, b: nat, c: nat, d: nat)
    requires a < 16 && b < 16 && c < 16 && d < 16
    ensures IsHighHalf(0x1000 * a + 0x100 * b + 0x10 * c + d) <==> a == 13 && 8 <= b <= 11
  {
  }

  lemma HexBounds(c: char)
    requires HexValue(c).Some?
    ensures HexValue(c).value < 16
    ensures HexValue(c).value == 13 <==> c in "dD"
    ensures 8 <= HexValue(c).value <= 11 <==> c in "89abAB"
  {
  }

  /** A refused escape is reported with its reason. */
  lemma RefusalIsReported(s: string)
    ensures Refusal(s).Some? ==> Unquote(s) == Malformed(Refusal(s).value)
  {
    hide CodePointToUtf8, HexPrefix, AreHex, UnescapeCodePoint, UnitRefusal;
    if Refusal(s).Some? {
      if |s| > 1 {
        ShortEscapes(s[1]);
        if s[1] == 'u' {
          UnitRefusalIsReported(s[2..]);
        }
      }
    }
  }

  lemma UnitRefusalIsReported(s: string)
    ensures UnitRefusal(s).Some? ==> UnescapeCodePoint(s) == BadCodePoint(UnitRefusal(s).value)
  {
    hide HexPrefix, AreHex;
    if |s| >= 4 {
      FourOf(s);
      if AreHex(s[..4]) {
        HighHalfIff(s[..4]);
        if |s| >= 10 {
          FourOf(s[6..]);
          assert s[6..][..4] == s[6..10];
          assert s[4..6] == [s[4], s[5]];
        }
      }
    }
  }

  lemma FourOf(s: string)
    requires |s| >= 4
    ensures HexPrefix(s, 4) == HexPrefix(s[..4], 4)
    ensures HexPrefix(s, 4).Some? <==> AreHex(s[..4])
  {
    hide HexPrefix, AreHex;
    HexPrefixOfFront(s[..4], 4, s[4..]);
    assert s[..4] + s[4..] == s;
    FourHex(s[..4]);
  }

  // ---------------------------------------------------------------- every literal

  lemma OneMore(x: Char, cs: seq<Char>)
    requires IsChar(x) && AreChars(cs) && CharsText(cs).Some? && !(x.Unit? && IsHighHalf(UnitValue(x)))
    ensures AreChars([x] + cs) && SpellChars([x] + cs) == SpellChar(x) + SpellChars(cs)
    ensures CharsText([x] + cs).Some?
  {
    hide HexPrefix, ShortMeaning, CodePointToUtf8, SpellChar;
    assert ([x] + cs)[1..] == cs;
  }

  lemma TwoMore(x: Char, y: Char, cs: seq<Char>)
    requires IsChar(x) && IsChar(y) && AreChars(cs) && CharsText(cs).Some? && x.Unit? && y.Unit?
    requires IsHighHalf(UnitValue(x))
    ensures AreChars([x, y] + cs) && SpellChars([x, y] + cs) == SpellChar(x) + (SpellChar(y) + SpellChars(cs))
    ensures CharsText([x, y] + cs).Some?
  {
    hide IsChar, CharsText, SpellChar, UnitValue;
    assert ([x, y] + cs)[1..] == [y] + cs && ([x, y] + cs)[2..] == cs && ([y] + cs)[1..] == cs;
    TwoHaveText([x, y] + cs);
  }

  lemma TwoHaveText(cs: seq<Char>)
    requires |cs| >= 2 && AreChars(cs) && cs[0].Unit? && cs[1].Unit? && IsHighHalf(UnitValue(cs[0]))
    requires CharsText(cs[2..]).Some?
    ensures CharsText(cs).Some?
  {
    hide IsChar, UnitValue, CodePointToUtf8, IsHighHalf;
  }

  lemma {:induction false} InsideBehindHex(s: string, k: nat)
    requires IsInside(s) && k <= |s| && AreHex(s[..k])
    ensures IsInside(s[k..])
    decreases k
  {
    if k > 0 {
      assert IsHex(s[..k][0]);
      assert s[1..][..k - 1] == s[..k][1..] && s[1..][k - 1..] == s[k..];
      InsideBehindHex(s[1..], k - 1);
    } else {
      assert s[0..] == s;
    }
  }

  /** The characters of a literal up to its end or up to the first escape that is refused */
  lemma {:induction false} Split(s: string) returns (cs: seq<Char>, rest: string)
    requires IsInside(s)
    ensures AreChars(cs) && CharsText(cs).Some? && s == SpellChars(cs) + rest
    ensures rest == "" || Refusal(rest).Some?
    decreases |s|
  {
    hide HexPrefix, CharsText, SpellChars, CodePointToUtf8, Refusal, AreHex, AreChars;
    if s == "" || Refusal(s).Some? {
      cs, rest := [], s;
      NoChars(s);
    } else if s[0] != '\\' {
      cs, rest := Split(s[1..]);
      assert IsChar(Raw(s[0]));
      OneMore(Raw(s[0]), cs);
      assert s == SpellChar(Raw(s[0])) + s[1..];
      Joins(SpellChar(Raw(s[0])), SpellChars(cs), rest);
      cs := [Raw(s[0])] + cs;
    } else if s[1] != 'u' {
      cs, rest := Split(s[2..]);
      ShortIsTaken(s);
      OneMore(Short(s[1]), cs);
      assert s == SpellChar(Short(s[1])) + s[2..];
      Joins(SpellChar(Short(s[1])), SpellChars(cs), rest);
      cs := [Short(s[1])] + cs;
    } else {
      cs, rest := SplitUnit(s);
    }
  }

  lemma NoChars(s: string)
    ensures AreChars([]) && CharsText([]).Some? && s == SpellChars([]) + s
  {
  }

  lemma Joins(a: string, b: string, c: string)
    ensures a + (b + c) == (a + b) + c
  {
  }

  lemma ShortIsTaken(s: string)
    requires |s| > 1 && s[0] == '\\' && s[1] != 'u' && Refusal(s).None?
    ensures IsChar(Short(s[1]))
  {
  }

  lemma {:induction false} SplitUnit(s: string) returns (cs: seq<Char>, rest: string)
    requires IsInside(s) && |s| > 1 && s[0] == '\\' && s[1] == 'u' && Refusal(s).None?
    ensures AreChars(cs) && CharsText(cs).Some? && s == SpellChars(cs) + rest
    ensures rest == "" || Refusal(rest).Some?
    decreases |s|, 0
  {
    hide CharsText, SpellChars, AreHex, AreChars, IsChar, UnitValue, IsHighHalf, IsInside, SpellChar;
    assert s[2..][..4] == s[2..6];
    UnitInFront(s);
    var x := Unit(s[2..6]);
    if IsHighHalf(UnitValue(x)) {
      var r := s[6..];
      assert s[2..][4..6] == [r[0], r[1]] && s[2..][6..10] == r[2..6];
      UnitInFront(r);
      var y := Unit(r[2..6]);
      cs, rest := Split(r[6..]);
      TwoMore(x, y, cs);
      Joins(SpellChar(y), SpellChars(cs), rest);
      Joins(SpellChar(x), SpellChar(y) + SpellChars(cs), rest);
      cs := [x, y] + cs;
    } else {
      cs, rest := Split(s[6..]);
      OneMore(x, cs);
      Joins(SpellChar(x), SpellChars(cs), rest);
      cs := [x] + cs;
    }
  }

  /** A `\u` escape in front of a text */
  lemma UnitInFront(s: string)
    requires IsInside(s) && |s| >= 6 && s[0] == '\\' && s[1] == 'u' && AreHex(s[2..6])
    ensures var x := Unit(s[2..6]);
            && s == SpellChar(x) + s[6..] && IsInside(s[6..]) && IsChar(x)
            && (IsHighHalf(UnitValue(x)) <==> s[2] in "dD" && s[3] in "89abAB")
  {
    hide HexPrefix, AreHex, UnitValue, IsHighHalf;
    assert s[2..][..4] == s[2..6] && s[2..][4..] == s[6..];
    HighHalfIff(s[2..6]);
    InsideBehindHex(s[2..], 4);
  }

  /** Reading a literal gives a text exactly if it spells that text. */
  lemma TextIff(s: string, t: string)
    requires IsInside(s)
    ensures Unquote(s) == Text(t) <==>
              exists cs: seq<Char> :: AreChars(cs) && SpellChars(cs) == s && CharsText(cs) == Some(t)
  {
    hide Unquote, CharsText, SpellChars, AreChars, Refusal;
    var cs, rest := Split(s);
    UnquotePrefix(cs, rest);
    if rest == "" {
      NothingToUnquote();
      assert SpellChars(cs) + "" == SpellChars(cs);
      assert CharsText(cs).value + "" == CharsText(cs).value;
      assert AreChars(cs) && SpellChars(cs) == s;
    } else {
      RefusalIsReported(rest);
    }
    forall ds: seq<Char> | AreChars(ds) && SpellChars(ds) == s ensures UnquotedText(Unquote(s)) == CharsText(ds) {
      UnquoteChars(ds);
    }
  }

  /** It fails exactly if an escape is refused behind characters that have bytes, and with the reason of that. */
  lemma MalformedIff(s: string, e: EscapeError)
    requires IsInside(s)
    ensures Unquote(s) == Malformed(e) <==>
              exists cs: seq<Char>, rest: string ::
                && AreChars(cs) && CharsText(cs).Some? && s == SpellChars(cs) + rest && Refusal(rest) == Some(e)
  {
    hide Unquote, CharsText, SpellChars, AreChars, Refusal;
    var cs, rest := Split(s);
    UnquotePrefix(cs, rest);
    if rest == "" {
      NothingToUnquote();
    } else {
      RefusalIsReported(rest);
    }
    forall ds: seq<Char>, r: string |
        AreChars(ds) && CharsText(ds).Some? && s == SpellChars(ds) + r && Refusal(r) == Some(e)
      ensures Unquote(s) == Malformed(e)
    {
      UnquotePrefix(ds, r);
      RefusalIsReported(r);
    }
  }

  // ---------------------------------------------------------------- what is printed

  /** A digit is the letter of its number. */
  lemma DigitIff(c: char, d: nat)
    ensures IsDigit(c) && DigitOf(c) == d <==> d < 10 && c == "0123456789"[d]
  {
  }

  /** Numbers are printed without zeros in front. */
  lemma {:induction false} NoZeroInFront(n: nat)
    ensures Digits(n) != "" && (Digits(n)[0] == '0' ==> n == 0 && Digits(n) == "0")
  {
    if n >= 10 {
      NoZeroInFront(n / 10);
    } else {
      DigitIff(Digits(n)[0], n);
    }
  }

  /**
   Quotes, backslashes and the control characters that have one are printed as their short escape, all
   other control characters but NUL as `\u00` and two upper-case hexadecimal digits, and any other
   character as itself.
   */
  lemma PrintedIs(c: char)
    ensures c in "\"\\\U{0008}\U{000C}\U{000A}\U{000D}\U{0009}" ==>
              |EscapeChar(c)| == 2 && EscapeChar(c)[0] == '\\' && ShortMeaning(EscapeChar(c)[1]) == Some(c)
    ensures '\U{0001}' <= c <= '\U{001F}' && c !in "\U{0008}\U{000C}\U{000A}\U{000D}\U{0009}" ==>
              var n := c as int;
              && n < 32
              && EscapeChar(c) == "\\u00" + ["0123456789ABCDEF"[n / 16], "0123456789ABCDEF"[n % 16]]
    ensures c !in "\"\\" && (c > '\U{001F}' || c == '\0') ==> EscapeChar(c) == [c]
  {
    var n := c as int;
    if n < 32 {
      UpperHex(n);
    }
  }

  lemma UpperHex(n: nat)
    requires n < 32
    ensures Hex4(n) == "00" + ["0123456789ABCDEF"[n / 16], "0123456789ABCDEF"[n % 16]]
  {
    HexCharIs(n / 16);
    HexCharIs(n % 16);
  }

  lemma HexCharIs(d: nat)
    requires d < 16
    ensures HexChar(d) == "0123456789ABCDEF"[d]
    ensures HexChar(0) == '0'
  {
    DigitIff(HexChar(if d < 10 then d else 0), if d < 10 then d else 0);
  }
}
