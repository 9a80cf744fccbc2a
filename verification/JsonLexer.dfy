/**
 The tokens of `Json::Reader` as functions of the text that is left to read. Each function
 returns how many characters the scanner of the same name consumes.
 */
module JsonLexer {
  import opened JsonTool

  datatype TokenKind =
    | EndOfStream
    | ObjectBegin
    | ObjectEnd
    | ArrayBegin
    | ArrayEnd
    | StringToken
    | NumberToken
    | TrueToken
    | FalseToken
    | NullToken
    | ArraySeparator
    | MemberSeparator
    | CommentToken
    | ErrorToken

  /** A token and its place in the document. */
  datatype Token = Token(kind: TokenKind, start: nat, limit: nat)

  predicate IsSpace(c: char) {
    c == ' ' || c == '\t' || c == '\r' || c == '\n'
  }

  function SpaceLen(s: string): (n: nat)
    ensures n <= |s|
  {
    if s != "" && IsSpace(s[0]) then 1 + SpaceLen(s[1..]) else 0
  }

  predicate IsNumberChar(c: char) {
    IsDigit(c) || c == '.' || c == 'e' || c == 'E' || c == '+' || c == '-'
  }

  function NumberLen(s: string): (n: nat)
    ensures n <= |s|
  {
    if s != "" && IsNumberChar(s[0]) then 1 + NumberLen(s[1..]) else 0
  }

  /** What a scanner consumed and whether it found what it wanted. */
  datatype Scanned = Scanned(len: nat, ok: bool)

  function Further(n: nat, r: Scanned): Scanned {
    Scanned(n + r.len, r.ok)
  }

  /** After an opening quote: up to and including the closing one. */
  function StringScan(s: string): (r: Scanned)
    ensures r.len <= |s| && (r.ok ==> 0 < r.len)
  {
    if s == "" then Scanned(0, false)
    else if s[0] == '"' then Scanned(1, true)
    else if s[0] != '\\' then Further(1, StringScan(s[1..]))
    else if |s| == 1 then Scanned(1, false)
    else Further(2, StringScan(s[2..]))
  }

  /** After the opening of a C comment; the closing needs a look at one more character. */
  function CStyleScan(s: string): (r: Scanned)
    ensures r.len <= |s|
  {
    if s == "" then Scanned(0, false)
    else if s[0] == '*' && |s| > 1 && s[1] == '/' then Scanned(2, true)
    else Further(1, CStyleScan(s[1..]))
  }

  function CppStyleLen(s: string): (n: nat)
    ensures n <= |s|
  {
    if s == "" then 0
    else if s[0] == '\r' || s[0] == '\n' then 1
    else 1 + CppStyleLen(s[1..])
  }

  /** After a slash. */
  function CommentScan(s: string): (r: Scanned)
    ensures r.len <= |s|
  {
    if s == "" then Scanned(0, false)
    else if s[0] == '*' then Further(1, CStyleScan(s[1..]))
    else if s[0] == '/' then Scanned(1 + CppStyleLen(s[1..]), true)
    else Scanned(1, false)
  }

  /** A kind of token and its length. */
  datatype Lexed = Lexed(kind: TokenKind, len: nat)

  function KindIf(ok: bool, kind: TokenKind): TokenKind {
    if ok then kind else ErrorToken
  }

  function Literal(rest: string, pattern: string, kind: TokenKind): Lexed {
    if pattern <= rest then Lexed(kind, 1 + |pattern|) else Lexed(ErrorToken, 1)
  }

  function PunctuationKind(c: char): TokenKind {
    if c == '{' then ObjectBegin
    else if c == '}' then ObjectEnd
    else if c == '[' then ArrayBegin
    else if c == ']' then ArrayEnd
    else if c == ',' then ArraySeparator
    else if c == ':' then MemberSeparator
    else if c == '\0' then EndOfStream
    else ErrorToken
  }

  /** The token that starts at the first character. */
  function Scan(s: string): (r: Lexed)
    requires s != ""
    ensures 1 <= r.len <= |s|
    ensures r.kind == StringToken ==> 2 <= r.len
    ensures r.kind == ArraySeparator ==> r.len == 1 && s[0] == ','
  {
    var c, rest := s[0], s[1..];
    if c == '"' then Lexed(KindIf(StringScan(rest).ok, StringToken), 1 + StringScan(rest).len)
    else if c == '/' then Lexed(KindIf(CommentScan(rest).ok, CommentToken), 1 + CommentScan(rest).len)
    else if IsDigit(c) || c == '-' then Lexed(NumberToken, 1 + NumberLen(rest))
    else if c == 't' then Literal(rest, "rue", TrueToken)
    else if c == 'f' then Literal(rest, "alse", FalseToken)
    else if c == 'n' then Literal(rest, "ull", NullToken)
    else Lexed(PunctuationKind(c), 1)
  }

  /** `readToken` from position `cur`. */
  function Next(doc: string, cur: nat): (t: Token)
    requires cur <= |doc|
    ensures cur <= t.start <= t.limit <= |doc|
    ensures t.kind != EndOfStream ==> t.start < t.limit
    ensures t.kind == StringToken ==> t.start + 2 <= t.limit
    ensures t.kind == ArraySeparator ==> t.start + 1 == t.limit && doc[t.start] == ','
  {
    var start := cur + SpaceLen(doc[cur..]);
    if start == |doc| then Token(EndOfStream, start, start)
    else
      var r := Scan(doc[start..]);
      Token(r.kind, start, start + r.len)
  }

  /** The first token from `cur` on that is not a comment. */
  function NonComment(doc: string, cur: nat): (t: Token)
    requires cur <= |doc|
    ensures cur <= t.start <= t.limit <= |doc|
    ensures t.kind != EndOfStream ==> t.start < t.limit
    ensures t.kind == StringToken ==> t.start + 2 <= t.limit
    ensures t.kind == ArraySeparator ==> t.start + 1 == t.limit
    ensures t.kind != CommentToken
    decreases |doc| - cur
  {
    var t := Next(doc, cur);
    if t.kind == CommentToken then NonComment(doc, t.limit) else t
  }

  /** The text of a token; an input without tokens has no texts. */
  datatype Lexeme = Lexeme(kind: TokenKind, text: string)

  function Trim(s: string): string {
    s[SpaceLen(s)..]
  }

  function First(s: string): Lexeme
    requires Trim(s) != ""
  {
    var r := Scan(Trim(s));
    Lexeme(r.kind, Trim(s)[..r.len])
  }

  /** What follows the first token. */
  function Rest(s: string): (r: string)
    requires Trim(s) != ""
    ensures |r| < |s|
  {
    Trim(s)[Scan(Trim(s)).len..]
  }

  /** All tokens of a text, without their places. */
  function Texts(s: string): seq<Lexeme> {
    if Trim(s) == "" then [] else [First(s)] + Texts(Rest(s))
  }

  // ---------------------------------------------------------------- positions and texts

  lemma NextIsFirst(doc: string, cur: nat)
    requires cur <= |doc|
    ensures var t := Next(doc, cur);
            if Trim(doc[cur..]) == "" then t == Token(EndOfStream, |doc|, |doc|)
            else t.start < t.limit && First(doc[cur..]) == Lexeme(t.kind, doc[t.start..t.limit])
                 && doc[t.limit..] == Rest(doc[cur..])
  {
    hide Scan, SpaceLen;
    var start := cur + SpaceLen(doc[cur..]);
    assert Trim(doc[cur..]) == doc[start..];
    if start < |doc| {
      var n := Scan(doc[start..]).len;
      assert doc[start..][..n] == doc[start..start + n];
      assert doc[start..][n..] == doc[start + n..];
    }
  }

  /** Reading a token takes the first text off. */
  lemma NextTakesText(doc: string, cur: nat)
    requires cur <= |doc|
    ensures var t := Next(doc, cur);
            if Texts(doc[cur..]) == [] then t == Token(EndOfStream, |doc|, |doc|)
            else t.start < t.limit && Texts(doc[cur..])[0] == Lexeme(t.kind, doc[t.start..t.limit])
                 && Texts(doc[t.limit..]) == Texts(doc[cur..])[1..]
  {
    NextIsFirst(doc, cur);
    UnfoldTexts(doc[cur..]);
  }

  lemma UnfoldTexts(s: string)
    ensures if Trim(s) == "" then Texts(s) == []
            else Texts(s) != [] && Texts(s)[0] == First(s) && Texts(s)[1..] == Texts(Rest(s))
  {
  }

  lemma {:induction false} NumberLenChars(s: string)
    ensures forall i :: 0 <= i < NumberLen(s) ==> IsNumberChar(s[i])
  {
    if s != "" && IsNumberChar(s[0]) {
      NumberLenChars(s[1..]);
      forall i | 0 <= i < NumberLen(s) ensures IsNumberChar(s[i]) {
        if i > 0 {
          assert s[i] == s[1..][i - 1];
        }
      }
    }
  }

  /** The texts that `readNumber` accepts. */
  predicate IsNumberText(s: string) {
    s != "" && (IsDigit(s[0]) || s[0] == '-') && forall i :: 0 <= i < |s| ==> IsNumberChar(s[i])
  }

  lemma NumberTokenText(doc: string, cur: nat)
    requires cur <= |doc| && Next(doc, cur).kind == NumberToken
    ensures IsNumberText(doc[Next(doc, cur).start..Next(doc, cur).limit])
  {
    hide SpaceLen, StringScan, CommentScan;
    var t := Next(doc, cur);
    var rest := doc[t.start..][1..];
    NumberLenChars(rest);
    forall i | 0 <= i < t.limit - t.start ensures IsNumberChar(doc[t.start..t.limit][i]) {
      if i > 0 {
        assert doc[t.start + i] == rest[i - 1];
      }
    }
  }
}
