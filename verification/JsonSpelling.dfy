/**
 The leaves of JSON texts (RFC 8259) in any spelling: whitespace and comments, string literals
 with any escapes, and numbers; what they denote and that the reader takes that from them.
 */
module JsonSpelling {
  import opened JsonGrammar
  import opened JsonLexer
  import opened JsonParser
  import opened JsonTokens
  import opened JsonTool
  import opened JsonValue
  import opened Wrappers

  // ---------------------------------------------------------------- whitespace and comments

  datatype Blank = Space(c: char) | Block(text: string) | Line(text: string, end: char)

  /** A block ends at the first closing and a line comment at the first end of a line. */
  predicate IsBlank(b: Blank) {
    match b
    case Space(c) => c == ' ' || c == '\t' || c == '\r' || c == '\n'
    case Block(text) => forall i :: 0 <= i < |text| ==> !((text + "*/")[i] == '*' && (text + "*/")[i + 1] == '/')
    case Line(text, end) => (end == '\r' || end == '\n') && forall i :: 0 <= i < |text| ==>
        text[i] != '\r' && text[i] != '\n'
  }

  predicate AreBlanks(bs: seq<Blank>) {
    forall i :: 0 <= i < |bs| ==> IsBlank(bs[i])
  }

  predicate NoComments(bs: seq<Blank>) {
    bs == [] || (bs[0].Space? && NoComments(bs[1..]))
  }

  function SpellBlank(b: Blank): string {
    match b
    case Space(c) => [c]
    case Block(text) => "/*" + (text + "*/")
    case Line(text, end) => "//" + (text + [end])
  }

  function SpellBlanks(bs: seq<Blank>): string {
    if bs == [] then "" else SpellBlank(bs[0]) + SpellBlanks(bs[1..])
  }

  function BlankTokens(bs: seq<Blank>): seq<Lexeme> {
    if bs == [] then []
    else if bs[0].Space? then BlankTokens(bs[1..])
    else [Lexeme(CommentToken, SpellBlank(bs[0]))] + BlankTokens(bs[1..])
  }

  lemma {:induction false} NoCommentsNoTokens(bs: seq<Blank>)
    ensures NoComments(bs) <==> BlankTokens(bs) == []
    ensures !NoComments(bs) ==> BlankTokens(bs)[0].kind == CommentToken
  {
    if bs != [] {
      NoCommentsNoTokens(bs[1..]);
    }
  }

  lemma DropOne(t: Lexeme, ts: seq<Lexeme>)
    requires t.kind == CommentToken
    ensures DropComments([t] + ts) == DropComments(ts)
  {
    assert ([t] + ts)[1..] == ts;
  }

  lemma {:induction false} DropBlanks(bs: seq<Blank>, ts: seq<Lexeme>)
    ensures DropComments(BlankTokens(bs) + ts) == DropComments(ts)
  {
    hide DropComments, SpellBlank;
    if bs == [] {
      assert BlankTokens(bs) + ts == ts;
    } else {
      DropBlanks(bs[1..], ts);
      if !bs[0].Space? {
        var t := Lexeme(CommentToken, SpellBlank(bs[0]));
        DropOne(t, BlankTokens(bs[1..]) + ts);
        Associates([t], BlankTokens(bs[1..]), ts);
      }
    }
  }

  lemma {:induction false} BlanksJoin(a: seq<Blank>, b: seq<Blank>)
    ensures BlankTokens(a + b) == BlankTokens(a) + BlankTokens(b)
    ensures NoComments(a + b) <==> NoComments(a) && NoComments(b)
  {
    if a == [] {
      assert a + b == b;
    } else {
      BlanksJoin(a[1..], b);
      assert (a + b)[1..] == a[1..] + b;
    }
  }

  lemma {:induction false} CStyleScanBlock(text: string, s: string)
    requires IsBlank(Block(text))
    ensures CStyleScan(text + ("*/" + s)) == Scanned(|text| + 2, true)
  {
    var t := text + ("*/" + s);
    if text == "" {
      assert t == "*/" + s && t[0] == '*' && t[1] == '/';
    } else {
      assert t[1..] == text[1..] + ("*/" + s);
      assert forall i :: 0 <= i < |text| + 2 ==> (text + "*/")[i] == t[i];
      assert forall i :: 0 <= i < |text[1..]| + 2 ==> (text[1..] + "*/")[i] == (text + "*/")[i + 1];
      assert !((text + "*/")[0] == '*' && (text + "*/")[0 + 1] == '/');
      CStyleScanBlock(text[1..], s);
    }
  }

  lemma {:induction false} CppStyleLenLine(text: string, end: char, s: string)
    requires IsBlank(Line(text, end))
    ensures CppStyleLen(text + ([end] + s)) == |text| + 1
  {
    var t := text + ([end] + s);
    if text == "" {
      assert t == [end] + s;
    } else {
      assert t[1..] == text[1..] + ([end] + s);
      CppStyleLenLine(text[1..], end, s);
    }
  }

  lemma ScanBlock(text: string, s: string)
    requires IsBlank(Block(text))
    ensures Scan("/*" + (text + "*/") + s) == Lexed(CommentToken, |text| + 4)
  {
    hide CStyleScan, CppStyleLen, IsBlank;
    var t := "/*" + (text + "*/") + s;
    CStyleScanBlock(text, s);
    assert t[1..][1..] == text + ("*/" + s) && t[0] == '/' && t[1] == '*';
  }

  lemma ScanLine(text: string, end: char, s: string)
    requires IsBlank(Line(text, end))
    ensures Scan("//" + (text + [end]) + s) == Lexed(CommentToken, |text| + 3)
  {
    hide CStyleScan, CppStyleLen, IsBlank;
    var t := "//" + (text + [end]) + s;
    CppStyleLenLine(text, end, s);
    assert t[1..][1..] == text + ([end] + s) && t[0] == '/' && t[1] == '/';
  }

  lemma OneBlank(b: Blank)
    ensures BlankTokens([b]) == if b.Space? then [] else [Lexeme(CommentToken, SpellBlank(b))]
  {
    assert [b][1..] == [];
  }

  lemma TextsBlank(b: Blank, s: string)
    requires IsBlank(b)
    ensures Texts(SpellBlank(b) + s) == BlankTokens([b]) + Texts(s)
  {
    hide Texts, Scan, BlankTokens;
    OneBlank(b);
    match b
    case Space(c) => TextsSpace(c, s);
    case Block(text) =>
      ScanBlock(text, s);
      TextsLexeme(SpellBlank(b), CommentToken, s);
    case Line(text, end) =>
      ScanLine(text, end, s);
      TextsLexeme(SpellBlank(b), CommentToken, s);
  }

  lemma {:induction false} TextsBlanks(bs: seq<Blank>, s: string)
    requires AreBlanks(bs)
    ensures Texts(SpellBlanks(bs) + s) == BlankTokens(bs) + Texts(s)
  {
    hide Texts, SpellBlank, IsBlank;
    if bs == [] {
      assert SpellBlanks(bs) + s == s;
    } else {
      TextsBlanks(bs[1..], s);
      TextsBlank(bs[0], SpellBlanks(bs[1..]) + s);
      Associates(SpellBlank(bs[0]), SpellBlanks(bs[1..]), s);
      assert [bs[0]][1..] == [];
    }
  }

  lemma BlanksEndNumber(bs: seq<Blank>, s: string)
    requires AreBlanks(bs) && EndsNumber(s)
    ensures EndsNumber(SpellBlanks(bs) + s)
  {
    if bs == [] {
      assert SpellBlanks(bs) + s == s;
    } else {
      assert (SpellBlanks(bs) + s)[0] == SpellBlank(bs[0])[0];
    }
  }

  lemma Associates<T>(a: seq<T>, b: seq<T>, c: seq<T>)
    ensures (a + b) + c == a + (b + c)
  {
  }

  // ---------------------------------------------------------------- strings (section 7)

  /** A character of a string literal: itself, a short escape, or `\u` and four hexadecimal digits. */
  datatype Char = Raw(c: char) | Short(c: char) | Unit(h: string)

  /** The short escapes of section 7 and the characters they stand for */
  function ShortMeaning(c: char): Option<char> {
    match c
    case '"' => Some('"')
    case '\\' => Some('\\')
    case '/' => Some('/')
    case 'b' => Some('\U{0008}')
    case 'f' => Some('\U{000C}')
    case 'n' => Some('\U{000A}')
    case 'r' => Some('\U{000D}')
    case 't' => Some('\U{0009}')
    case _ => None
  }

  /** The reader knows exactly these. */
  lemma ShortEscapes(c: char)
    ensures SimpleEscape(c) == ShortMeaning(c)
  {
  }

  predicate IsHexDigit(c: char, d: nat) {
    d < 16 && (c == "0123456789abcdef"[d] || c == "0123456789ABCDEF"[d])
  }

  /** The reader knows exactly the hexadecimal digits, in upper and lower case. */
  lemma HexDigits(c: char, d: nat)
    ensures HexValue(c) == Some(d) <==> IsHexDigit(c, d)
  {
  }

  /** Control characters are not escaped by necessity: the reader takes more than the grammar here. */
  predicate IsChar(x: Char) {
    match x
    case Raw(c) => c != '"' && c != '\\'
    case Short(c) => ShortMeaning(c).Some?
    case Unit(h) => |h| == 4 && HexPrefix(h, 4).Some?
  }

  predicate AreChars(cs: seq<Char>) {
    forall i :: 0 <= i < |cs| ==> IsChar(cs[i])
  }

  function SpellChar(x: Char): string {
    match x
    case Raw(c) => [c]
    case Short(c) => ['\\', c]
    case Unit(h) => "\\u" + h
  }

  function SpellChars(cs: seq<Char>): string {
    if cs == [] then "" else SpellChar(cs[0]) + SpellChars(cs[1..])
  }

  function UnitValue(x: Char): (n: nat)
    requires x.Unit? && IsChar(x)
    ensures SpellsHex(x.h, n)
  {
    HexPrefix(x.h, 4).value
  }

  function Prefixed(s: string, t: Option<string>): Option<string> {
    if t.Some? then Some(s + t.value) else None
  }

  /**
   The bytes that the reader takes from a string literal. Section 8.2 leaves lone surrogates
   open: a first half joins with any unit behind it, or else fails; a lone second half is encoded.
   */
  function CharsText(cs: seq<Char>): Option<string>
    requires AreChars(cs)
  {
    if cs == [] then Some("")
    else
      match cs[0]
      case Raw(c) => Prefixed([c], CharsText(cs[1..]))
      case Short(c) => Prefixed([ShortMeaning(c).value], CharsText(cs[1..]))
      case Unit(_) =>
        if !IsHighHalf(UnitValue(cs[0])) then Prefixed(CodePointToUtf8(UnitValue(cs[0])), CharsText(cs[1..]))
        else if |cs| > 1 && cs[1].Unit? then
          Prefixed(CodePointToUtf8(Joined(UnitValue(cs[0]), UnitValue(cs[1]))), CharsText(cs[2..]))
        else None
  }

  /** The meaning that the RFC gives a literal: none if it holds half a surrogate pair. */
  function MeantText(cs: seq<Char>): Option<string>
    requires AreChars(cs)
  {
    if cs == [] then Some("")
    else
      match cs[0]
      case Raw(c) => Prefixed([c], MeantText(cs[1..]))
      case Short(c) => Prefixed([ShortMeaning(c).value], MeantText(cs[1..]))
      case Unit(_) =>
        if IsScalarValue(UnitValue(cs[0])) then Prefixed(CodePointToUtf8(UnitValue(cs[0])), MeantText(cs[1..]))
        else if |cs| > 1 && cs[1].Unit? && PairCodePoint(UnitValue(cs[0]), UnitValue(cs[1])).Some? then
          Prefixed(CodePointToUtf8(PairCodePoint(UnitValue(cs[0]), UnitValue(cs[1])).value), MeantText(cs[2..]))
        else None
  }

  /** A literal that has a meaning is read as it. */
  lemma {:induction false} MeantIsRead(cs: seq<Char>)
    requires AreChars(cs) && MeantText(cs).Some?
    ensures CharsText(cs) == MeantText(cs)
    decreases |cs|
  {
    hide CodePointToUtf8, HexPrefix, ShortMeaning;
    if cs != [] {
      if cs[0].Unit? && !IsScalarValue(UnitValue(cs[0])) {
        HexPrefixBound(cs[0].h, 4);
        MeantIsRead(cs[2..]);
      } else {
        MeantIsRead(cs[1..]);
      }
    }
  }

  function UnquotedText(u: Unquoted): Option<string> {
    if u.Text? then Some(u.text) else None
  }

  /** Reading the inside of a literal gives its bytes or fails. */
  lemma {:induction false} UnquoteChars(cs: seq<Char>)
    requires AreChars(cs)
    ensures UnquotedText(Unquote(SpellChars(cs))) == CharsText(cs)
    decreases |cs|
  {
    hide Unquote, CodePointToUtf8, HexPrefix, ShortMeaning, UnescapeCodePoint;
    if cs == [] {
      NothingToUnquote();
    } else {
      var rest := SpellChars(cs[1..]);
      UnquoteChars(cs[1..]);
      match cs[0]
      case Raw(c) => UnquoteRaw(c, rest);
      case Short(c) => UnquoteShort(c, rest);
      case Unit(h) =>
        Regroup("\\u", h, "", "", rest);
        if !IsHighHalf(UnitValue(cs[0])) {
          UnquoteUnit(h, UnitValue(cs[0]), rest);
        } else if |cs| > 1 && cs[1].Unit? {
          UnquoteChars(cs[2..]);
          var more := SpellChars(cs[2..]);
          assert cs[1..][1..] == cs[2..];
          Regroup("\\u", cs[1].h, "", "", more);
          UnquoteTwoUnits(h, UnitValue(cs[0]), cs[1].h, UnitValue(cs[1]), more);
        } else {
          NoUnitNext(cs[1..]);
          UnquoteLoneHigh(h, UnitValue(cs[0]), rest);
        }
    }
  }

  lemma NothingToUnquote()
    ensures Unquote("") == Text("")
  {
  }

  lemma UnquoteRaw(c: char, rest: string)
    requires IsChar(Raw(c))
    ensures Unquote([c] + rest) == if c == '"' then Text("") else Prepend([c], Unquote(rest))
  {
    assert ([c] + rest)[1..] == rest;
  }

  lemma UnquoteShort(c: char, rest: string)
    requires ShortMeaning(c).Some?
    ensures Unquote(['\\', c] + rest) == Prepend([ShortMeaning(c).value], Unquote(rest))
  {
    ShortEscapes(c);
    assert (['\\', c] + rest)[2..] == rest;
  }

  lemma NoUnitNext(cs: seq<Char>)
    requires AreChars(cs) && (cs != [] ==> !cs[0].Unit?)
    ensures !("\\u" <= SpellChars(cs))
  {
    hide HexPrefix;
    if cs != [] {
      assert SpellChars(cs)[0] == SpellChar(cs[0])[0];
      if cs[0].Short? {
        assert SpellChars(cs)[1] == SpellChar(cs[0])[1];
      }
    }
  }

  lemma UnquoteLoneHigh(h: string, n: nat, rest: string)
    requires SpellsHex(h, n) && IsHighHalf(n) && !("\\u" <= rest)
    ensures Unquote("\\u" + (h + rest)).Malformed?
  {
    hide HexPrefix, CodePointToUtf8;
    UnescapeSpelled(h, n, rest);
    var body := h + rest;
    assert |rest| >= 2 ==> body[4] == rest[0] && body[5] == rest[1];
    assert ("\\u" + body)[2..] == body;
    StartsWithTwo('\\', 'u', rest);
    assert SimpleEscape('u') == None;
  }

  lemma StartsWithTwo(a: char, b: char, s: string)
    ensures [a, b] <= s <==> |s| >= 2 && s[0] == a && s[1] == b
  {
  }

  function SpellString(cs: seq<Char>): string {
    "\"" + SpellChars(cs) + "\""
  }

  lemma StringScanChar(x: Char, s: string)
    requires IsChar(x)
    ensures StringScan(SpellChar(x) + s) == Further(|SpellChar(x)|, StringScan(s))
  {
    var e := SpellChar(x);
    if x.Raw? {
      assert (e + s)[1..] == s;
    } else if x.Short? {
      assert (e + s)[2..] == s && (e + s)[0] == '\\';
    } else {
      var t := e + s;
      assert t[2..] == x.h + s;
      assert StringScan(t) == Further(2, StringScan(x.h + s));
      HexIsUnescaped(x.h);
      StringScanPlain(x.h, s);
    }
  }

  lemma HexIsUnescaped(h: string)
    requires |h| == 4 && HexPrefix(h, 4).Some?
    ensures forall i :: 0 <= i < |h| ==> h[i] != '"' && h[i] != '\\'
  {
    assert HexPrefix(h, 3).Some? && HexPrefix(h, 2).Some? && HexPrefix(h, 1).Some?;
  }

  lemma {:induction false} StringScanChars(cs: seq<Char>, s: string)
    requires AreChars(cs)
    ensures StringScan(SpellChars(cs) + "\"" + s) == Scanned(|SpellChars(cs)| + 1, true)
  {
    if cs == [] {
      assert SpellChars(cs) + "\"" + s == "\"" + s;
    } else {
      hide IsChar, SpellChar;
      var rest := SpellChars(cs[1..]) + "\"" + s;
      assert SpellChars(cs) + "\"" + s == SpellChar(cs[0]) + rest;
      StringScanChar(cs[0], rest);
      StringScanChars(cs[1..], s);
    }
  }

  lemma ScanString(cs: seq<Char>, s: string)
    requires AreChars(cs)
    ensures Scan(SpellString(cs) + s) == Lexed(StringToken, |SpellString(cs)|)
  {
    hide SpellChars, StringScan, AreChars;
    assert (SpellString(cs) + s)[1..] == SpellChars(cs) + "\"" + s;
    StringScanChars(cs, s);
  }

  lemma TextsString(cs: seq<Char>, s: string)
    requires AreChars(cs)
    ensures Texts(SpellString(cs) + s) == [Lexeme(StringToken, SpellString(cs))] + Texts(s)
  {
    hide SpellChars, Scan, AreChars;
    ScanString(cs, s);
    TextsLexeme(SpellString(cs), StringToken, s);
  }

  lemma StringReads(cs: seq<Char>)
    requires AreChars(cs)
    ensures UnquotedText(Unquote(Inner(SpellString(cs)))) == CharsText(cs)
  {
    hide SpellChars, Unquote, CharsText, AreChars;
    assert Inner(SpellString(cs)) == SpellChars(cs);
    UnquoteChars(cs);
  }

  // ---------------------------------------------------------------- numbers (section 6)

  datatype Exponent = Exponent(letter: char, sign: string, digits: string)

  datatype Number = Number(negative: bool, digits: string, fraction: Option<string>, exponent: Option<Exponent>)

  predicate SomeDigits(s: string) {
    s != "" && AllDigits(s)
  }

  /** Leading zeros are taken, too: the reader takes more than the grammar here. */
  predicate IsNumber(n: Number) {
    && SomeDigits(n.digits)
    && (n.fraction.Some? ==> SomeDigits(n.fraction.value))
    && (n.exponent.Some? ==> IsExponent(n.exponent.value))
  }

  predicate IsExponent(e: Exponent) {
    (e.letter == 'e' || e.letter == 'E') && (e.sign == "" || e.sign == "+" || e.sign == "-") && SomeDigits(e.digits)
  }

  function SpellSign(n: Number): string {
    if n.negative then "-" else ""
  }

  function SpellFraction(n: Number): string {
    if n.fraction.Some? then "." + n.fraction.value else ""
  }

  function SpellExponent(n: Number): string {
    if n.exponent.Some? then [n.exponent.value.letter] + n.exponent.value.sign + n.exponent.value.digits else ""
  }

  function SpellNumber(n: Number): string {
    SpellSign(n) + n.digits + (SpellFraction(n) + SpellExponent(n))
  }

  /** An integer that fits, or what the C library reads */
  function NumberData(lib: CLibrary, n: Number): Option<Data>
    requires IsNumber(n)
  {
    var magnitude: int := DecimalValue(n.digits);
    if n.fraction.Some? || n.exponent.Some? then DoubleData(lib.parseDouble(SpellNumber(n)))
    else if n.negative && magnitude <= -MIN_INT64 then Some(Int(-magnitude))
    else if !n.negative && magnitude <= MAX_INT then Some(Int(magnitude))
    else if !n.negative && magnitude <= MAX_UINT64 then Some(UInt(magnitude))
    else DoubleData(lib.parseDouble(SpellNumber(n)))
  }

  predicate NumberChars(s: string) {
    forall i :: 0 <= i < |s| ==> IsNumberChar(s[i])
  }

  lemma NumberCharsJoin(a: string, b: string)
    requires NumberChars(a) && NumberChars(b)
    ensures NumberChars(a + b)
  {
  }

  lemma NumberIsText(n: Number)
    requires IsNumber(n)
    ensures IsNumberText(SpellNumber(n))
  {
    hide AllDigits;
    assert NumberChars(SpellSign(n));
    DigitsAreNumberChars(n.digits);
    assert NumberChars(SpellFraction(n)) by {
      if n.fraction.Some? {
        DigitsAreNumberChars(n.fraction.value);
        NumberCharsJoin(".", n.fraction.value);
      }
    }
    assert NumberChars(SpellExponent(n)) by {
      ExponentChars(n);
    }
    NumberCharsJoin(SpellFraction(n), SpellExponent(n));
    NumberCharsJoin(SpellSign(n), n.digits);
    NumberCharsJoin(SpellSign(n) + n.digits, SpellFraction(n) + SpellExponent(n));
    FirstDigit(n);
  }

  lemma DigitsAreNumberChars(s: string)
    requires AllDigits(s)
    ensures NumberChars(s)
  {
  }

  lemma ExponentChars(n: Number)
    requires IsNumber(n)
    ensures NumberChars(SpellExponent(n))
  {
    hide AllDigits;
    if n.exponent.Some? {
      var e := n.exponent.value;
      DigitsAreNumberChars(e.digits);
      assert NumberChars([e.letter]) && NumberChars(e.sign);
      NumberCharsJoin([e.letter], e.sign);
      NumberCharsJoin([e.letter] + e.sign, e.digits);
    }
  }

  lemma FirstDigit(n: Number)
    requires IsNumber(n)
    ensures SpellNumber(n) != "" && SpellNumber(n)[0] == if n.negative then '-' else n.digits[0]
    ensures IsDigit(n.digits[0])
  {
  }

  /** A fraction or an exponent leaves the integer form. */
  lemma NotIntegerForm(n: Number)
    requires IsNumber(n) && (n.fraction.Some? || n.exponent.Some?)
    ensures !HasIntegerForm(SpellNumber(n))
  {
    hide AllDigits;
    var at := |SpellSign(n) + n.digits|;
    assert SpellNumber(n)[at] == (SpellFraction(n) + SpellExponent(n))[0];
  }

  lemma IntegerForm(n: Number)
    requires IsNumber(n) && n.fraction.None? && n.exponent.None?
    ensures HasIntegerForm(SpellNumber(n)) && WithoutSign(SpellNumber(n)) == n.digits
    ensures IsNegative(SpellNumber(n)) == n.negative
  {
    FirstDigit(n);
    assert SpellNumber(n) == SpellSign(n) + n.digits;
  }

  lemma NumberReads(lib: CLibrary, n: Number)
    requires IsNumber(n)
    ensures DecodeNumber(lib, SpellNumber(n)) == NumberData(lib, n)
  {
    hide HasIntegerForm, AllDigits, DecimalValue, SpellNumber, IsNegative, WithoutSign, IsExponent;
    if n.fraction.Some? || n.exponent.Some? {
      NotIntegerForm(n);
    } else {
      IntegerForm(n);
    }
  }
}
