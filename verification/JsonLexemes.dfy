/**
 The tokens in the characters that spell them, in both directions: the reader takes a text for a token
 of some kind exactly if it is spelled like one.
 */
module JsonLexemes {
  import opened JsonGrammar
  import opened JsonLexer
  import opened JsonLiterals
  import opened JsonSpelling
  import opened JsonTokens
  import opened JsonTool

  const WHITE: string := " \t\r\n"
  const NUMBER_LETTERS: string := "0123456789+-.eE"

  predicate AllWhite(s: string) {
    forall i :: 0 <= i < |s| ==> s[i] in WHITE
  }

  predicate AllNumberLetters(s: string) {
    forall i :: 0 <= i < |s| ==> s[i] in NUMBER_LETTERS
  }

  /** Not to be continued by what follows */
  predicate NumberEnds(after: string) {
    after == "" || after[0] !in NUMBER_LETTERS
  }

  predicate IsComment(x: string) {
    || (|x| >= 4 && x[..2] == "/*" && x[|x| - 2..] == "*/" && IsBlank(Block(x[2..|x| - 2])))
    || (|x| >= 3 && x[..2] == "//" && IsBlank(Line(x[2..|x| - 1], x[|x| - 1])))
  }

  /** One character that begins no token, or a slash that begins no comment */
  predicate IsStray(x: string, after: string) {
    || (|x| == 1 && x[0] !in "{}[],:\"/-0123456789\0"
        && !(x[0] == 't' && "rue" <= after) && !(x[0] == 'f' && "alse" <= after) && !(x[0] == 'n' && "ull" <= after))
    || (|x| == 2 && x[0] == '/' && x[1] != '*' && x[1] != '/')
  }

  /** `x` is a token of a kind in front of `after`; tokens that fail at the end of the text are not looked at. */
  predicate IsSpelled(kind: TokenKind, x: string, after: string) {
    match kind
    case ObjectBegin => x == "{"
    case ObjectEnd => x == "}"
    case ArrayBegin => x == "["
    case ArrayEnd => x == "]"
    case ArraySeparator => x == ","
    case MemberSeparator => x == ":"
    case TrueToken => x == "true"
    case FalseToken => x == "false"
    case NullToken => x == "null"
    case NumberToken => x != "" && x[0] in "-0123456789" && AllNumberLetters(x) && NumberEnds(after)
    case StringToken => |x| >= 2 && x[0] == '"' && x[|x| - 1] == '"' && IsInside(x[1..|x| - 1])
    case CommentToken => IsComment(x)
    case EndOfStream => x == "\0"
    case ErrorToken => IsStray(x, after)
  }

  // ---------------------------------------------------------------- letters

  lemma WhiteIff(c: char)
    ensures IsSpace(c) <==> c in WHITE
  {
  }

  lemma NumberLetterIff(c: char)
    ensures IsNumberChar(c) <==> c in NUMBER_LETTERS
    ensures IsDigit(c) || c == '-' <==> c in "-0123456789"
  {
    if IsDigit(c) {
      assert "0123456789+-.eE"[c as int - '0' as int] == c;
      assert "-0123456789"[c as int - '0' as int + 1] == c;
    }
  }

  // ---------------------------------------------------------------- scanners

  lemma {:induction false} NumberLenIs(s: string, n: nat)
    ensures NumberLen(s) == n <==> n <= |s| && AllNumberLetters(s[..n]) && NumberEnds(s[n..])
    decreases |s|
  {
    if s != "" {
      NumberLetterIff(s[0]);
      if IsNumberChar(s[0]) && 0 < n <= |s| {
        NumberLenIs(s[1..], n - 1);
        assert s[1..][..n - 1] == s[..n][1..] && s[1..][n - 1..] == s[n..];
        assert s[..n] == [s[0]] + s[1..][..n - 1];
      } else if 0 < n <= |s| {
        assert s[..n][0] == s[0];
      } else if n == 0 {
        assert s[0..] == s;
      }
    }
  }

  /** A literal ends at the first quote that no backslash protects, and fails only at the end of the text. */
  lemma {:induction false} StringScanIs(s: string, n: nat)
    ensures StringScan(s) == Scanned(n, true) <==> 0 < n <= |s| && s[n - 1] == '"' && IsInside(s[..n - 1])
    ensures !StringScan(s).ok ==> StringScan(s).len == |s|
    decreases |s|
  {
    if s == "" {
    } else if s[0] == '"' {
      if 1 < n <= |s| {
        assert s[..n - 1][0] == '"';
      }
    } else if s[0] != '\\' {
      if n >= 1 {
        StringScanIs(s[1..], n - 1);
        if 1 < n <= |s| {
          assert s[..n - 1][1..] == s[1..][..n - 2] && s[..n - 1][0] == s[0];
        }
      } else {
        StringScanIs(s[1..], 0);
      }
    } else if |s| > 1 {
      if n >= 2 {
        StringScanIs(s[2..], n - 2);
        if 3 <= n <= |s| {
          assert s[..n - 1][2..] == s[2..][..n - 3] && s[..n - 1][0] == s[0];
        } else if n == 2 {
          assert s[..1][0] == '\\';
        }
      } else {
        StringScanIs(s[2..], 0);
      }
    }
  }

  lemma {:induction false} BlockScanIs(s: string, n: nat)
    ensures CStyleScan(s) == Scanned(n, true) <==>
              2 <= n <= |s| && s[n - 2..n] == "*/" && IsBlank(Block(s[..n - 2]))
    ensures !CStyleScan(s).ok ==> CStyleScan(s).len == |s|
    decreases |s|
  {
    if s == "" {
    } else if s[0] == '*' && |s| > 1 && s[1] == '/' {
      assert s[0..2] == "*/";
      if 2 < n <= |s| && s[n - 2..n] == "*/" {
        var text := s[..n - 2];
        assert (text + "*/")[0] == s[0] && (text + "*/")[0 + 1] == s[1];
      } else if n == 2 {
        assert s[..0] == "";
      }
    } else {
      if n == 0 {
        BlockScanIs(s[1..], 0);
      } else {
        BlockScanIs(s[1..], n - 1);
        if 2 < n <= |s| {
          LastTwo(s, n);
        }
        if 2 < n <= |s| && s[n - 2..n] == "*/" {
          BlockFront(s, n);
        } else if n == 2 && |s| >= 2 {
          assert s[0..2] == [s[0], s[1]];
        }
      }
    }
  }

  lemma LastTwo(s: string, n: nat)
    requires 2 < n <= |s|
    ensures s[1..][n - 3..n - 1] == s[n - 2..n] && s[n - 2..n] == [s[n - 2], s[n - 1]]
  {
    assert s[1..][n - 3..n - 1] == [s[1..][n - 3], s[1..][n - 2]];
  }

  lemma BlockFront(s: string, n: nat)
    requires 2 < n <= |s| && s[n - 2..n] == "*/" && !(s[0] == '*' && s[1] == '/')
    ensures IsBlank(Block(s[..n - 2])) <==> IsBlank(Block(s[1..][..n - 3]))
  {
    var a, b := s[..n - 2], s[1..][..n - 3];
    assert a == [s[0]] + b;
    assert forall i :: 0 <= i < n - 1 ==> (a + "*/")[i + 1] == (b + "*/")[i];
    assert (a + "*/")[0] == s[0] && (a + "*/")[1] == s[1];
    if IsBlank(Block(a)) {
      forall i | 0 <= i < |b| ensures !((b + "*/")[i] == '*' && (b + "*/")[i + 1] == '/') {
        assert !((a + "*/")[i + 1] == '*' && (a + "*/")[i + 1 + 1] == '/');
      }
    }
    if IsBlank(Block(b)) {
      forall i | 0 <= i < |a| ensures !((a + "*/")[i] == '*' && (a + "*/")[i + 1] == '/') {
        if i > 0 {
          assert !((b + "*/")[i - 1] == '*' && (b + "*/")[i - 1 + 1] == '/');
        }
      }
    }
  }

  lemma {:induction false} LineLenIs(s: string, n: nat)
    requires n < |s|
    ensures CppStyleLen(s) == n <==> 0 < n && IsBlank(Line(s[..n - 1], s[n - 1]))
    decreases |s|
  {
    if s[0] == '\r' || s[0] == '\n' {
      if n > 1 {
        assert s[..n - 1][0] == s[0];
      }
    } else if n > 0 {
      LineLenIs(s[1..], n - 1);
      if n > 1 {
        assert s[..n - 1] == [s[0]] + s[1..][..n - 2];
        assert s[1..][..n - 2] == s[..n - 1][1..];
      }
    } else {
      assert CppStyleLen(s) > 0;
    }
  }

  // ---------------------------------------------------------------- the first token

  /** A failing token ends the text, and a line comment may: neither can be followed by anything. */
  predicate CanEnd(kind: TokenKind) {
    kind != CommentToken && kind != ErrorToken
  }

  lemma ScanQuote(s: string, kind: TokenKind, n: nat)
    requires s != "" && s[0] == '"' && 0 < n <= |s| && (CanEnd(kind) || n < |s|)
    ensures Scan(s) == Lexed(kind, n) <==> kind == StringToken && IsSpelled(kind, s[..n], s[n..])
    ensures kind != StringToken ==> !IsSpelled(kind, s[..n], s[n..])
  {
    hide StringScan, CommentScan, NumberLen, IsInside, IsBlank, AllNumberLetters;
    StringScanIs(s[1..], n - 1);
    assert s[..n][0] == s[0];
    if n >= 2 {
      assert s[..n][1..n - 1] == s[1..][..n - 2];
    }
  }

  /** What a slash can begin */
  lemma SlashSpelled(kind: TokenKind, x: string, after: string)
    requires x != "" && x[0] == '/'
    ensures IsSpelled(kind, x, after) <==>
              || (kind == CommentToken && IsComment(x))
              || (kind == ErrorToken && |x| == 2 && x[1] != '*' && x[1] != '/')
  {
    hide IsComment, AllNumberLetters, IsInside;
  }

  lemma SlashScan(s: string)
    requires |s| >= 2 && s[0] == '/'
    ensures s[1] == '*' ==> Scan(s) == Lexed(KindIf(CStyleScan(s[2..]).ok, CommentToken), 2 + CStyleScan(s[2..]).len)
    ensures s[1] == '/' ==> Scan(s) == Lexed(CommentToken, 2 + CppStyleLen(s[2..]))
    ensures s[1] != '*' && s[1] != '/' ==> Scan(s) == Lexed(ErrorToken, 2)
  {
    hide CStyleScan, CppStyleLen, StringScan, NumberLen;
    assert s[1..][1..] == s[2..];
  }

  lemma CommentParts(s: string, n: nat)
    requires |s| >= 2 && s[0] == '/' && 2 <= n <= |s|
    ensures s[1] == '*' ==>
              (IsComment(s[..n]) <==> n >= 4 && s[2..][n - 4..n - 2] == "*/" && IsBlank(Block(s[2..][..n - 4])))
    ensures s[1] == '/' ==> (IsComment(s[..n]) <==> n >= 3 && IsBlank(Line(s[2..][..n - 3], s[2..][n - 3])))
    ensures s[1] != '*' && s[1] != '/' ==> !IsComment(s[..n])
  {
    hide IsBlank;
    var x := s[..n];
    assert x[..2] == [s[0], s[1]];
    if n >= 4 {
      assert x[n - 2..] == s[2..][n - 4..n - 2] && x[2..n - 2] == s[2..][..n - 4];
    }
    if n >= 3 {
      assert x[2..n - 1] == s[2..][..n - 3] && x[n - 1] == s[2..][n - 3];
    }
  }

  lemma ScanSlash(s: string, kind: TokenKind, n: nat)
    requires s != "" && s[0] == '/' && 0 < n <= |s| && (CanEnd(kind) || n < |s|)
    ensures Scan(s) == Lexed(kind, n) <==> IsSpelled(kind, s[..n], s[n..])
  {
    hide Scan, IsSpelled, IsComment, CStyleScan, CppStyleLen, IsBlank;
    SlashSpelled(kind, s[..n], s[n..]);
    if |s| >= 2 {
      SlashScan(s);
      if n >= 2 {
        CommentParts(s, n);
        BlockScanIs(s[2..], n - 2);
        if n < |s| {
          LineLenIs(s[2..], n - 2);
        }
      } else {
        ShortComment(s[..n]);
      }
    } else {
      LoneSlash(s);
    }
  }

  lemma ShortComment(x: string)
    requires |x| < 2
    ensures !IsComment(x)
  {
  }

  lemma LoneSlash(s: string)
    requires |s| == 1 && s[0] == '/'
    ensures Scan(s) == Lexed(ErrorToken, 1) && !IsComment(s)
  {
  }

  lemma ScanNumber(s: string, kind: TokenKind, n: nat)
    requires s != "" && s[0] in "-0123456789" && 0 < n <= |s|
    ensures Scan(s) == Lexed(kind, n) <==> IsSpelled(kind, s[..n], s[n..])
  {
    hide StringScan, CommentScan, IsInside, IsBlank;
    NumberLetterIff(s[0]);
    NumberLenIs(s[1..], n - 1);
    hide NumberLen, AllNumberLetters;
    var x := s[..n];
    assert x[0] == s[0] && x[1..] == s[1..][..n - 1] && s[1..][n - 1..] == s[n..];
    LettersOfNumber(x);
  }

  lemma LettersOfNumber(x: string)
    requires x != "" && x[0] in "-0123456789"
    ensures AllNumberLetters(x) <==> AllNumberLetters(x[1..])
    ensures x[0] !in "{}[],:\"/\0tfn"
  {
    NumberLetterIff(x[0]);
    assert forall i :: 0 <= i < |x[1..]| ==> x[1..][i] == x[i + 1];
  }

  /** What a letter or a sign of punctuation can be */
  lemma OtherSpelled(kind: TokenKind, x: string, after: string)
    requires x != "" && x[0] !in "-0123456789" && x[0] != '"' && x[0] != '/'
    ensures IsSpelled(kind, x, after) <==>
              match kind
              case TrueToken => x == "true"
              case FalseToken => x == "false"
              case NullToken => x == "null"
              case ErrorToken =>
                |x| == 1 && PunctuationKind(x[0]) == ErrorToken && !(x[0] == 't' && "rue" <= after)
                    && !(x[0] == 'f' && "alse" <= after) && !(x[0] == 'n' && "ull" <= after)
              case _ => |x| == 1 && PunctuationKind(x[0]) == kind
  {
    hide AllNumberLetters, IsInside, IsBlank;
    assert |x| == 1 ==> x == [x[0]];
  }

  lemma OtherScan(s: string)
    requires s != "" && s[0] !in "-0123456789" && s[0] != '"' && s[0] != '/'
    ensures Scan(s) == if s[0] == 't' then Literal(s[1..], "rue", TrueToken)
                       else if s[0] == 'f' then Literal(s[1..], "alse", FalseToken)
                       else if s[0] == 'n' then Literal(s[1..], "ull", NullToken)
                       else Lexed(PunctuationKind(s[0]), 1)
  {
    hide StringScan, CommentScan, NumberLen, Literal, PunctuationKind;
    NumberLetterIff(s[0]);
  }

  lemma LettersAreNoPunctuation(c: char)
    ensures c == 't' || c == 'f' || c == 'n' ==> PunctuationKind(c) == ErrorToken
    ensures PunctuationKind(c) != TrueToken && PunctuationKind(c) != FalseToken && PunctuationKind(c) != NullToken
  {
  }

  lemma ScanOther(s: string, kind: TokenKind, n: nat)
    requires s != "" && s[0] !in "-0123456789" && s[0] != '"' && s[0] != '/' && 0 < n <= |s|
    ensures Scan(s) == Lexed(kind, n) <==> IsSpelled(kind, s[..n], s[n..])
  {
    hide Scan, IsSpelled, PunctuationKind;
    assert s[..n][0] == s[0];
    OtherSpelled(kind, s[..n], s[n..]);
    OtherScan(s);
    LettersAreNoPunctuation(s[0]);
    WordStarts(s, "true", n);
    WordStarts(s, "false", n);
    WordStarts(s, "null", n);
  }

  lemma WordStarts(s: string, word: string, n: nat)
    requires s != "" && word != "" && 0 < n <= |s|
    ensures s[..n] == word ==> s[0] == word[0]
    ensures s[0] == word[0] ==> (s[..n] == word <==> n == |word| && word[1..] <= s[1..])
    ensures s[0] == word[0] && n == 1 ==> (word[1..] <= s[1..] <==> word[1..] <= s[n..])
  {
    assert s[..n][0] == s[0];
    if s[0] == word[0] {
      WordIs(s, word, n);
    }
  }

  lemma WordIs(s: string, word: string, n: nat)
    requires s != "" && word != "" && s[0] == word[0] && 0 < n <= |s|
    ensures s[..n] == word <==> n == |word| && word[1..] <= s[1..]
    ensures n == 1 ==> (word[1..] <= s[1..] <==> word[1..] <= s[n..])
  {
    assert word == [word[0]] + word[1..];
    if n == |word| && word[1..] <= s[1..] {
      assert s[..n] == [s[0]] + s[1..][..n - 1];
    }
    if s[..n] == word {
      assert s[1..][..n - 1] == word[1..];
    }
  }

  /** A token that does not fail at the end of the text is read for what it is spelled like, and for nothing else. */
  lemma ScanIff(s: string, kind: TokenKind, n: nat)
    requires s != "" && s[0] !in WHITE && 0 < n <= |s| && (CanEnd(kind) || n < |s|)
    ensures Scan(s) == Lexed(kind, n) <==> IsSpelled(kind, s[..n], s[n..])
  {
    hide Scan, IsSpelled;
    if s[0] == '"' {
      ScanQuote(s, kind, n);
    } else if s[0] == '/' {
      ScanSlash(s, kind, n);
    } else if s[0] in "-0123456789" {
      ScanNumber(s, kind, n);
    } else {
      ScanOther(s, kind, n);
    }
  }

  // ---------------------------------------------------------------- texts and their tokens

  /** A token in front of a text */
  lemma SpelledTexts(kind: TokenKind, x: string, s: string)
    requires IsSpelled(kind, x, s) && x != "" && x[0] !in WHITE && (CanEnd(kind) || s != "")
    ensures Texts(x + s) == [Lexeme(kind, x)] + Texts(s)
  {
    hide Texts, Scan, IsSpelled;
    var t := x + s;
    assert t[..|x|] == x && t[|x|..] == s && t[0] == x[0];
    ScanIff(t, kind, |x|);
    WhiteIff(x[0]);
    TextsLexeme(x, kind, s);
  }

  lemma {:induction false} WhiteTexts(w: string, s: string)
    requires AllWhite(w)
    ensures Texts(w + s) == Texts(s)
  {
    hide Texts;
    if w == "" {
      assert w + s == s;
    } else {
      WhiteIff(w[0]);
      TextsSpace(w[0], w[1..] + s);
      WhiteTexts(w[1..], s);
      assert w + s == [w[0]] + (w[1..] + s);
    }
  }

  lemma {:induction false} TrimOff(s: string) returns (w: string)
    ensures AllWhite(w) && s == w + Trim(s)
    ensures Trim(s) != "" ==> Trim(s)[0] !in WHITE
  {
    hide Trim;
    if s != "" {
      WhiteIff(s[0]);
      TrimStep(s);
    }
    if s != "" && IsSpace(s[0]) {
      w := TrimOff(s[1..]);
      w := [s[0]] + w;
    } else {
      w := "";
      TrimEmpty();
    }
  }

  lemma TrimStep(s: string)
    requires s != ""
    ensures Trim(s) == if IsSpace(s[0]) then Trim(s[1..]) else s
    ensures s == [s[0]] + s[1..]
  {
  }

  lemma TrimEmpty()
    ensures Trim("") == ""
  {
  }

  /** The first token of a text, with the whitespace in front of it and what follows it */
  lemma Take(s: string) returns (w: string, x: string, r: string)
    requires Texts(s) != []
    ensures AllWhite(w) && x != "" && x[0] !in WHITE && s == w + (x + r) && |r| < |s|
    ensures Texts(s)[0].text == x && Texts(r) == Texts(s)[1..]
    ensures CanEnd(Texts(s)[0].kind) || r != "" ==> IsSpelled(Texts(s)[0].kind, x, r)
  {
    hide Texts, Scan, IsSpelled, Trim, First, Rest;
    w := TrimOff(s);
    UnfoldTexts(s);
    FirstIs(s);
    var t := Trim(s);
    var n := Scan(t).len;
    x, r := t[..n], t[n..];
    assert t == x + r && x[0] == t[0];
    if CanEnd(Scan(t).kind) || r != "" {
      ScanIff(t, Scan(t).kind, n);
    }
  }

  lemma FirstIs(s: string)
    requires Trim(s) != ""
    ensures var t, r := Trim(s), Scan(Trim(s));
            && First(s) == Lexeme(r.kind, t[..r.len]) && Rest(s) == t[r.len..] && r == Lexed(r.kind, r.len)
            && |t| <= |s|
  {
    hide Scan;
  }

  function Spaces(w: string): seq<Blank> {
    if w == "" then [] else [Space(w[0])] + Spaces(w[1..])
  }

  lemma {:induction false} SpacesAreBlanks(w: string)
    requires AllWhite(w)
    ensures AreBlanks(Spaces(w)) && NoComments(Spaces(w)) && SpellBlanks(Spaces(w)) == w
  {
    if w != "" {
      SpacesAreBlanks(w[1..]);
      assert ([Space(w[0])] + Spaces(w[1..]))[1..] == Spaces(w[1..]);
      assert w == [w[0]] + w[1..];
    }
  }

  /** A comment that something follows is one in full. */
  lemma CommentIsBlank(x: string) returns (b: Blank)
    requires IsComment(x)
    ensures IsBlank(b) && !b.Space? && SpellBlank(b) == x
  {
    if |x| >= 4 && x[..2] == "/*" && x[|x| - 2..] == "*/" && IsBlank(Block(x[2..|x| - 2])) {
      b := Block(x[2..|x| - 2]);
      assert x == x[..2] + (x[2..|x| - 2] + x[|x| - 2..]);
    } else {
      b := Line(x[2..|x| - 1], x[|x| - 1]);
      assert x == x[..2] + (x[2..|x| - 1] + [x[|x| - 1]]);
    }
  }

  lemma {:induction false} SpellJoins(a: seq<Blank>, b: seq<Blank>)
    ensures SpellBlanks(a + b) == SpellBlanks(a) + SpellBlanks(b)
    ensures AreBlanks(a) && AreBlanks(b) ==> AreBlanks(a + b)
  {
    hide SpellBlank;
    if a == [] {
      assert a + b == b;
    } else {
      SpellJoins(a[1..], b);
      assert (a + b)[1..] == a[1..] + b;
    }
  }

  /** The whitespace and the comments in front of a token */
  lemma {:induction false} TakeBlanks(s: string) returns (bs: seq<Blank>, r: string)
    requires DropComments(Texts(s)) != []
    ensures AreBlanks(bs) && s == SpellBlanks(bs) + r && Texts(r) == DropComments(Texts(s)) && |r| <= |s|
    ensures r != "" && r[0] !in WHITE
    ensures NoComments(bs) <==> Texts(s)[0].kind != CommentToken
    decreases |s|
  {
    hide Texts, IsSpelled, IsComment, IsBlank, SpellBlank, IsStray;
    var w, x, q := Take(s);
    SpacesAreBlanks(w);
    if Texts(s)[0].kind == CommentToken {
      var more;
      more, r := TakeBlanks(q);
      assert q != "" by {
        NothingToTake();
      }
      var b := SpelledComment(x, q);
      var here := Spaces(w) + [b];
      SpellJoins(Spaces(w), [b]);
      SpellJoins(here, more);
      BlanksJoin(here, more);
      BlanksJoin(Spaces(w), [b]);
      OneComment(b);
      bs := here + more;
      assert s == w + x + (SpellBlanks(more) + r);
      assert w + x + (SpellBlanks(more) + r) == (w + x + SpellBlanks(more)) + r;
    } else {
      bs, r := Spaces(w), x + q;
      WhiteTexts(w, r);
    }
  }

  lemma NothingToTake()
    ensures Texts("") == []
  {
  }

  lemma SpelledComment(x: string, after: string) returns (b: Blank)
    requires IsSpelled(CommentToken, x, after)
    ensures IsBlank(b) && !b.Space? && SpellBlank(b) == x
  {
    hide IsBlank, SpellBlank;
    b := CommentIsBlank(x);
  }

  lemma OneComment(b: Blank)
    requires !b.Space?
    ensures SpellBlanks([b]) == SpellBlank(b) && !NoComments([b]) && (IsBlank(b) ==> AreBlanks([b]))
  {
    hide SpellBlank, IsBlank;
    assert [b][1..] == [];
    assert SpellBlanks([]) == "";
  }
}
