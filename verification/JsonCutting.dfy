/**
 Cutting a text at the end of a token: the tokens before the cut do not change, and the token
 sequence of the whole text is that of the two parts.
 */
module JsonCutting {
  import opened JsonGrammar
  import opened JsonLexer
  import opened JsonTool

  // ---------------------------------------------------------------- cutting a text after a token

  lemma {:induction false} StringScanCut(s: string, n: nat)
    requires StringScan(s).len <= n <= |s|
    ensures StringScan(s[..n]) == StringScan(s)
  {
    var cut := s[..n];
    if s != "" && s[0] != '"' {
      if s[0] != '\\' {
        assert cut[1..] == s[1..][..n - 1];
        StringScanCut(s[1..], n - 1);
      } else if |s| > 1 {
        assert cut[2..] == s[2..][..n - 2];
        StringScanCut(s[2..], n - 2);
      }
    }
  }

  lemma {:induction false} CStyleScanCut(s: string, n: nat)
    requires CStyleScan(s).len <= n <= |s|
    ensures CStyleScan(s[..n]) == CStyleScan(s)
  {
    var cut := s[..n];
    if s != "" && !(s[0] == '*' && |s| > 1 && s[1] == '/') {
      assert cut[1..] == s[1..][..n - 1];
      CStyleScanCut(s[1..], n - 1);
    }
  }

  lemma {:induction false} CppStyleLenCut(s: string, n: nat)
    requires CppStyleLen(s) <= n <= |s|
    ensures CppStyleLen(s[..n]) == CppStyleLen(s)
  {
    var cut := s[..n];
    if s != "" && s[0] != '\r' && s[0] != '\n' {
      assert cut[1..] == s[1..][..n - 1];
      CppStyleLenCut(s[1..], n - 1);
    }
  }

  lemma {:induction false} NumberLenCut(s: string, n: nat)
    requires NumberLen(s) <= n <= |s|
    ensures NumberLen(s[..n]) == NumberLen(s)
  {
    var cut := s[..n];
    if s != "" && IsNumberChar(s[0]) {
      assert cut[1..] == s[1..][..n - 1];
      NumberLenCut(s[1..], n - 1);
    }
  }

  lemma {:induction false} SpaceLenCut(s: string, n: nat)
    requires SpaceLen(s) <= n <= |s|
    ensures SpaceLen(s[..n]) == SpaceLen(s)
  {
    var cut := s[..n];
    if s != "" && IsSpace(s[0]) {
      assert cut[1..] == s[1..][..n - 1];
      SpaceLenCut(s[1..], n - 1);
    }
  }

  lemma CommentScanCut(s: string, n: nat)
    requires CommentScan(s).len <= n <= |s|
    ensures CommentScan(s[..n]) == CommentScan(s)
  {
    hide CStyleScan, CppStyleLen;
    var cut := s[..n];
    if s != "" {
      assert n > 0 ==> cut[1..] == s[1..][..n - 1];
      if s[0] == '*' {
        CStyleScanCut(s[1..], n - 1);
      } else if s[0] == '/' {
        CppStyleLenCut(s[1..], n - 1);
      }
    }
  }

  lemma LiteralCut(rest: string, n: nat, pattern: string, kind: TokenKind)
    requires Literal(rest, pattern, kind).len - 1 <= n <= |rest|
    ensures Literal(rest[..n], pattern, kind) == Literal(rest, pattern, kind)
  {
    assert pattern <= rest[..n] ==> rest[..|pattern|] == rest[..n][..|pattern|];
    assert pattern <= rest ==> rest[..n][..|pattern|] == rest[..|pattern|];
  }

  /** A token does not depend on what follows it, once it is known where it ends. */
  lemma ScanCut(s: string, n: nat)
    requires s != "" && Scan(s).len <= n <= |s|
    ensures Scan(s[..n]) == Scan(s)
  {
    hide StringScan, CommentScan, NumberLen, Literal;
    var c, rest := s[0], s[1..];
    assert s[..n][0] == c && s[..n][1..] == rest[..n - 1];
    if c == '"' {
      StringScanCut(rest, n - 1);
    } else if c == '/' {
      CommentScanCut(rest, n - 1);
    } else if IsDigit(c) || c == '-' {
      NumberLenCut(rest, n - 1);
    } else if c == 't' {
      LiteralCut(rest, n - 1, "rue", TrueToken);
    } else if c == 'f' {
      LiteralCut(rest, n - 1, "alse", FalseToken);
    } else if c == 'n' {
      LiteralCut(rest, n - 1, "ull", NullToken);
    }
  }

  // ---------------------------------------------------------------- positions between tokens

  /** Position `b` is reached from `a` by reading tokens. */
  ghost predicate Steps(doc: string, a: nat, b: nat)
    requires a <= |doc|
    decreases |doc| - a
  {
    var t := Next(doc, a);
    a == b || (t.start < t.limit <= b && Steps(doc, t.limit, b))
  }

  lemma {:induction false} StepsForward(doc: string, a: nat, b: nat)
    requires a <= |doc| && Steps(doc, a, b)
    ensures a <= b <= |doc|
    decreases |doc| - a
  {
    hide Next;
    if a != b {
      StepsForward(doc, Next(doc, a).limit, b);
    }
  }

  lemma {:induction false} StepsTransitive(doc: string, a: nat, b: nat, c: nat)
    requires a <= |doc| && b <= |doc| && Steps(doc, a, b) && Steps(doc, b, c)
    ensures Steps(doc, a, c)
    decreases |doc| - a
  {
    hide Next;
    if a != b {
      StepsTransitive(doc, Next(doc, a).limit, b, c);
      StepsForward(doc, b, c);
    }
  }

  lemma StepsNext(doc: string, a: nat)
    requires a <= |doc| && Next(doc, a).start < Next(doc, a).limit
    ensures Steps(doc, a, Next(doc, a).limit)
  {
    hide Next;
    assert Steps(doc, Next(doc, a).limit, Next(doc, a).limit);
  }

  lemma {:induction false} TrimmedHasNoSpace(s: string)
    ensures SpaceLen(Trim(s)) == 0
  {
    if s != "" && IsSpace(s[0]) {
      TrimmedHasNoSpace(s[1..]);
      assert Trim(s) == Trim(s[1..]);
    }
  }

  /** Spaces before a token do not matter. */
  lemma NextTrimmed(doc: string, a: nat)
    requires a <= |doc|
    ensures Next(doc, a + SpaceLen(doc[a..])) == Next(doc, a)
    ensures Next(doc, Next(doc, a).start) == Next(doc, a)
  {
    hide Scan, SpaceLen;
    TrimmedHasNoSpace(doc[a..]);
    assert doc[a + SpaceLen(doc[a..])..] == Trim(doc[a..]);
    NextStart(doc, a);
  }

  lemma EmptyTokenAtEnd(doc: string, a: nat)
    requires a <= |doc|
    ensures Next(doc, a).start < Next(doc, a).limit || Next(doc, a).limit == |doc|
  {
  }

  lemma {:induction false} StepsNonComment(doc: string, a: nat)
    requires a <= |doc|
    ensures Next(doc, NonComment(doc, a).start) == NonComment(doc, a)
    ensures var t := NonComment(doc, a);
            if t.start < t.limit then Steps(doc, a, t.limit) else t.limit == |doc|
    decreases |doc| - a
  {
    hide Next;
    NextTrimmed(doc, a);
    EmptyTokenAtEnd(doc, a);
    var t := Next(doc, a);
    if t.start < t.limit {
      StepsNext(doc, a);
    }
    if t.kind == CommentToken {
      StepsNonComment(doc, t.limit);
    }
  }

  lemma StepsFromSpace(doc: string, a: nat, b: nat)
    requires a <= |doc| && a + SpaceLen(doc[a..]) < b && Steps(doc, a + SpaceLen(doc[a..]), b)
    ensures Steps(doc, a, b)
  {
    NextTrimmed(doc, a);
    hide Next, SpaceLen;
  }

  lemma TrimCut(s: string, n: nat)
    requires SpaceLen(s) <= n <= |s|
    ensures Trim(s[..n]) == Trim(s)[..n - SpaceLen(s)]
  {
    hide SpaceLen;
    SpaceLenCut(s, n);
  }

  /** The first token of a text that is cut at or after its end */
  lemma FirstCut(s: string, n: nat)
    requires Trim(s) != "" && SpaceLen(s) + Scan(Trim(s)).len <= n <= |s|
    ensures Trim(s[..n]) != "" && First(s[..n]) == First(s)
    ensures Rest(s[..n]) == s[SpaceLen(s) + Scan(Trim(s)).len..n]
  {
    hide Scan, SpaceLen, Trim;
    TrimCut(s, n);
    var t, m := Trim(s), n - SpaceLen(s);
    assert t == s[SpaceLen(s)..] by {
      TrimDrops(s);
    }
    ScanCut(t, m);
    TakenParts(t, Scan(t).len, m);
    DroppedPart(s, SpaceLen(s), Scan(t).len, n);
  }

  lemma TakenParts(t: string, k: nat, m: nat)
    requires k <= m <= |t|
    ensures t[..m][..k] == t[..k] && t[..m][k..] == t[k..m]
  {
  }

  lemma DroppedPart(s: string, j: nat, k: nat, n: nat)
    requires j + k <= n <= |s|
    ensures s[j..][k..n - j] == s[j + k..n]
  {
  }

  lemma TrimDrops(s: string)
    ensures Trim(s) == s[SpaceLen(s)..]
  {
  }

  lemma NextLimit(doc: string, a: nat)
    requires a <= |doc| && Next(doc, a).start < Next(doc, a).limit
    ensures Trim(doc[a..]) != "" && Next(doc, a).limit == a + SpaceLen(doc[a..]) + Scan(Trim(doc[a..])).len
  {
    hide Scan, SpaceLen;
    assert Trim(doc[a..]) == doc[a + SpaceLen(doc[a..])..];
  }

  lemma UnfoldFirst(s: string)
    requires Trim(s) != ""
    ensures Texts(s) == [First(s)] + Texts(Rest(s))
  {
  }

  lemma FirstOfSlice(doc: string, a: nat, b: nat)
    requires a <= |doc| && Next(doc, a).start < Next(doc, a).limit <= b <= |doc|
    ensures Trim(doc[a..]) != "" && Trim(doc[a..b]) != "" && First(doc[a..b]) == First(doc[a..])
    ensures Rest(doc[a..b]) == doc[Next(doc, a).limit..b]
  {
    hide Next, Trim, First, Rest, Scan, SpaceLen;
    NextLimit(doc, a);
    var s := doc[a..];
    assert s[..b - a] == doc[a..b];
    FirstCut(s, b - a);
    var k := SpaceLen(s) + Scan(Trim(s)).len;
    assert s[k..b - a] == doc[a + k..b];
  }

  lemma SplitFirst(doc: string, a: nat, b: nat)
    requires a <= |doc| && Next(doc, a).start < Next(doc, a).limit <= b <= |doc|
    ensures Trim(doc[a..]) != "" && TextsAt(doc, a) == [First(doc[a..])] + TextsAt(doc, Next(doc, a).limit)
    ensures Texts(doc[a..b]) == [First(doc[a..])] + Texts(doc[Next(doc, a).limit..b])
  {
    hide Next, Trim, First, Rest, Texts;
    FirstOfSlice(doc, a, b);
    NextIsFirst(doc, a);
    UnfoldFirst(doc[a..]);
    UnfoldFirst(doc[a..b]);
  }

  lemma NoTexts()
    ensures Texts("") == []
  {
  }

  /** At a position that is reached by tokens the token sequence splits. */
  lemma {:induction false} TextsSplit(doc: string, a: nat, b: nat)
    requires a <= |doc| && Steps(doc, a, b)
    ensures a <= b <= |doc| && TextsAt(doc, a) == Texts(doc[a..b]) + TextsAt(doc, b)
    decreases |doc| - a
  {
    hide Next, Texts, First, Rest;
    StepsForward(doc, a, b);
    if a == b {
      assert doc[a..b] == "";
      NoTexts();
    } else {
      TextsSplit(doc, Next(doc, a).limit, b);
      SplitFirst(doc, a, b);
    }
  }
}
