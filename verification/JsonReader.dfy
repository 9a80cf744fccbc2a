/**
 `Json::Reader`: the class, method by method. Every method is proved to compute what the
 functions of `JsonLexer` and `JsonParser` say about the document and the position.
 */
module JsonReader {
  import opened JsonLexer
  import opened JsonParser
  import opened JsonTool
  import opened JsonValue
  import opened Wrappers

  class Reader {
    const features: Features
    const lib: CLibrary
    var document: string
    var current: nat
    /** The stack of the values that are being read, the innermost one last. */
    var nodes: seq<Value>
    var errors: seq<Error>

    constructor (features: Features, lib: CLibrary)
      ensures this.features == features && this.lib == lib
      ensures document == "" && current == 0 && nodes == [] && errors == []
    {
      this.features := features;
      this.lib := lib;
      document, current, nodes, errors := "", 0, [], [];
    }

    predicate InBounds()
      reads this
    {
      current <= |document|
    }

    // -------------------------------------------------------------- scanners

    method GetNextChar() returns (c: char)
      requires InBounds()
      modifies this`current
      ensures if old(current) == |document| then c == '\0' && current == old(current)
              else c == document[old(current)] && current == old(current) + 1
    {
      if current == |document| {
        return '\0';
      }
      c := document[current];
      current := current + 1;
    }

    /** The character at the position; the document is followed by a NUL. */
    function Peek(): char
      requires InBounds()
      reads this
    {
      if current == |document| then '\0' else document[current]
    }

    method SkipSpaces()
      requires InBounds()
      modifies this`current
      ensures current == old(current) + SpaceLen(document[old(current)..])
    {
      while current != |document|
        invariant InBounds()
        invariant old(current) + SpaceLen(document[old(current)..]) == current + SpaceLen(document[current..])
      {
        if IsSpace(document[current]) {
          assert document[current..][1..] == document[current + 1..];
          current := current + 1;
        } else {
          break;
        }
      }
    }

    method Match(pattern: string) returns (ok: bool)
      requires InBounds()
      modifies this`current
      ensures ok == (pattern <= document[old(current)..])
      ensures current == old(current) + if ok then |pattern| else 0
    {
      if |document| - current < |pattern| {
        return false;
      }
      var index := |pattern|;
      while index != 0
        invariant 0 <= index <= |pattern|
        invariant document[current + index..current + |pattern|] == pattern[index..]
      {
        index := index - 1;
        if document[current + index] != pattern[index] {
          assert document[current..][index] != pattern[index];
          return false;
        }
        assert pattern[index..] == [pattern[index]] + pattern[index + 1..];
      }
      assert document[current..][..|pattern|] == pattern;
      current := current + |pattern|;
      return true;
    }

    method ReadCStyleComment() returns (ok: bool)
      requires InBounds()
      modifies this`current
      ensures var r := CStyleScan(document[old(current)..]); ok == r.ok && current == old(current) + r.len
    {
      ghost var whole := CStyleScan(document[current..]);
      var closing := false;
      while current != |document| && !closing
        invariant old(current) <= current <= |document|
        invariant !closing ==> whole == Further(current - old(current), CStyleScan(document[current..]))
        invariant closing ==> current < |document| && document[current] == '/'
        invariant closing ==> whole == Scanned(current - old(current) + 1, true)
        decreases |document| - current
      {
        assert document[current..][1..] == document[current + 1..];
        var c := GetNextChar();
        closing := c == '*' && Peek() == '/';
      }
      var c := GetNextChar();
      ok := c == '/';
    }

    method ReadCppStyleComment() returns (ok: bool)
      requires InBounds()
      modifies this`current
      ensures ok && current == old(current) + CppStyleLen(document[old(current)..])
    {
      ghost var whole := CppStyleLen(document[current..]);
      var atNewLine := false;
      while current != |document| && !atNewLine
        invariant InBounds()
        invariant old(current) + whole == current + if atNewLine then 0 else CppStyleLen(document[current..])
        decreases |document| - current
      {
        assert document[current..][1..] == document[current + 1..];
        var c := GetNextChar();
        atNewLine := c == '\r' || c == '\n';
      }
      ok := true;
    }

    method ReadComment() returns (ok: bool)
      requires InBounds()
      modifies this`current
      ensures var r := CommentScan(document[old(current)..]); ok == r.ok && current == old(current) + r.len
    {
      ghost var rest := document[current..];
      assert rest != "" ==> rest[1..] == document[current + 1..];
      var c := GetNextChar();
      ok := false;
      if c == '*' {
        ok := ReadCStyleComment();
      } else if c == '/' {
        ok := ReadCppStyleComment();
      }
    }

    method ReadNumber()
      requires InBounds()
      modifies this`current
      ensures current == old(current) + NumberLen(document[old(current)..])
    {
      while current != |document|
        invariant InBounds()
        invariant old(current) + NumberLen(document[old(current)..]) == current + NumberLen(document[current..])
      {
        if !IsNumberChar(document[current]) {
          break;
        }
        assert document[current..][1..] == document[current + 1..];
        current := current + 1;
      }
    }

    method ReadString() returns (ok: bool)
      requires InBounds()
      modifies this`current
      ensures var r := StringScan(document[old(current)..]); ok == r.ok && current == old(current) + r.len
    {
      ghost var whole := StringScan(document[current..]);
      var c := '\0';
      while current != |document|
        invariant old(current) <= current <= |document| && c != '"'
        invariant whole == Further(current - old(current), StringScan(document[current..]))
        decreases |document| - current
      {
        ghost var rest := document[current..];
        assert rest[1..] == document[current + 1..];
        assert |rest| > 1 ==> rest[2..] == document[current + 2..];
        c := GetNextChar();
        if c == '\\' {
          var _ := GetNextChar();
        } else if c == '"' {
          break;
        }
      }
      ok := c == '"';
    }

    /** The switch of `readToken`, after the first character `c` of the token was taken. */
    method ReadAfter(c: char, ghost start: nat) returns (kind: TokenKind)
      requires InBounds() && start <= |document|
      requires if start == |document| then c == '\0' && current == start
               else c == document[start] && current == start + 1
      modifies this`current
      ensures start == |document| ==> kind == EndOfStream && current == start
      ensures start < |document| ==>
                kind == Scan(document[start..]).kind && current == start + Scan(document[start..]).len
    {
      assert start < |document| ==> document[start..][1..] == document[start + 1..];
      kind := PunctuationKind(c);
      var ok := true;
      if c == '"' {
        kind := StringToken;
        ok := ReadString();
      } else if c == '/' {
        kind := CommentToken;
        ok := ReadComment();
      } else if IsDigit(c) || c == '-' {
        kind := NumberToken;
        ReadNumber();
      } else if c == 't' {
        kind := TrueToken;
        ok := Match("rue");
      } else if c == 'f' {
        kind := FalseToken;
        ok := Match("alse");
      } else if c == 'n' {
        kind := NullToken;
        ok := Match("ull");
      }
      if !ok {
        kind := ErrorToken;
      }
    }

    method ReadToken() returns (token: Token)
      requires InBounds()
      modifies this`current
      ensures token == Next(document, old(current)) && current == token.limit
    {
      SkipSpaces();
      var start := current;
      var c := GetNextChar();
      var kind := ReadAfter(c, start);
      token := Token(kind, start, current);
    }

    method ReadNonComment() returns (token: Token)
      requires InBounds()
      modifies this`current
      ensures token == NonComment(document, old(current)) && current == token.limit
    {
      token := ReadToken();
      while token.kind == CommentToken
        invariant InBounds() && current == token.limit
        invariant NonComment(document, old(current))
               == if token.kind == CommentToken then NonComment(document, current) else token
        decreases if token.kind == CommentToken then |document| - current + 1 else 0
      {
        token := ReadToken();
      }
    }

    method SkipCommentTokens() returns (token: Token)
      requires InBounds()
      modifies this`current
      ensures token == ValueToken(features, document, old(current)) && current == token.limit
    {
      if features.allowComments {
        token := ReadNonComment();
      } else {
        token := ReadToken();
      }
    }

    // -------------------------------------------------------------- errors

    method AddError(kind: ErrorKind, token: Token) returns (ok: bool)
      modifies this`errors
      ensures !ok && errors == old(errors) + [ErrorAt(kind, token)]
    {
      errors := errors + [ErrorAt(kind, token)];
      ok := false;
    }

    method RecoverFromError(until: TokenKind) returns (ok: bool)
      requires InBounds()
      modifies this`current, this`errors
      ensures !ok && current == Recover(document, old(current), until) && errors == old(errors)
    {
      var errorCount := |errors|;
      var skip := ReadToken();
      while skip.kind != until && skip.kind != EndOfStream
        invariant InBounds() && current == skip.limit && errors == old(errors)
        invariant Recover(document, old(current), until)
               == if skip.kind == until || skip.kind == EndOfStream then current else Recover(document, current, until)
        decreases if skip.kind == EndOfStream then 0 else |document| - current + 1
      {
        skip := ReadToken();
      }
      errors := errors[..errorCount];
      ok := false;
    }

    method AddErrorAndRecover(kind: ErrorKind, token: Token, until: TokenKind) returns (ok: bool)
      requires InBounds()
      modifies this`current, this`errors
      ensures !ok && current == Recover(document, old(current), until)
      ensures errors == old(errors) + [ErrorAt(kind, token)]
    {
      var _ := AddError(kind, token);
      ok := RecoverFromError(until);
    }

    // -------------------------------------------------------------- the value stack

    function Top(): Value
      requires nodes != []
      reads this
    {
      nodes[|nodes| - 1]
    }

    method SetTop(v: Value)
      requires nodes != []
      modifies this`nodes
      ensures nodes == old(nodes)[..|old(nodes)| - 1] + [v]
    {
      nodes := nodes[..|nodes| - 1] + [v];
    }

    // -------------------------------------------------------------- decoders

    method IsDoubleText(text: string) returns (isDouble: bool)
      ensures isDouble <==> !HasIntegerForm(text)
    {
      isDouble := false;
      var inspect := 0;
      while inspect != |text|
        invariant 0 <= inspect <= |text|
        invariant isDouble <==> !HasIntegerForm(text[..inspect])
      {
        ghost var before := text[..inspect];
        var c := text[inspect];
        isDouble := isDouble || c == '.' || c == 'e' || c == 'E' || c == '+' || (c == '-' && inspect != 0);
        assert text[..inspect + 1] == before + [c];
        inspect := inspect + 1;
      }
      assert text[..|text|] == text;
    }

    /** The overflow-safe loop of `decodeNumber`: the value, unless it exceeds the limit. */
    method AccumulateDigits(digits: string, maxIntegerValue: nat) returns (value: Option<nat>)
      requires AllDigits(digits) && 10 <= maxIntegerValue <= MAX_UINT64
      ensures value == if DecimalValue(digits) <= maxIntegerValue then Some(DecimalValue(digits)) else None
    {
      var threshold := maxIntegerValue / 10;
      var sum := 0;
      var at := 0;
      while at < |digits|
        invariant 0 <= at <= |digits|
        invariant sum == DecimalValue(digits[..at]) <= maxIntegerValue
      {
        var digit := DigitOf(digits[at]);
        assert digits[..at + 1][..at] == digits[..at];
        at := at + 1;
        if sum >= threshold {
          if sum > threshold || at != |digits| || digit > maxIntegerValue % 10 {
            TooLarge(digits, at - 1, maxIntegerValue);
            return None;
          }
        }
        sum := sum * 10 + digit;
      }
      assert digits[..|digits|] == digits;
      return Some(sum);
    }

    /** `decodeNumber(token, decoded)`; its "not a number" branch needs a character that no token has. */
    method DecodeNumberData(token: Token) returns (decoded: Option<Data>)
      requires token.start < token.limit <= |document| && IsNumberText(TextOf(document, token))
      modifies this`errors
      ensures decoded == DecodeNumber(lib, TextOf(document, token))
      ensures errors == old(errors) + if decoded.Some? then [] else [ErrorAt(NotANumber, token)]
    {
      hide DecimalValue, AllDigits, HasIntegerForm, IsNumberText;
      var text := TextOf(document, token);
      var isDouble := IsDoubleText(text);
      if isDouble {
        decoded := DecodeDouble(token);
        return;
      }
      IntegerFormDigits(text);
      var isNegative := text[0] == '-';
      var maxIntegerValue := if isNegative then ToUInt64(ToInt64(-MIN_INT64)) else MAX_UINT64;
      var value := AccumulateDigits(WithoutSign(text), maxIntegerValue);
      if value.None? {
        decoded := DecodeDouble(token);
      } else if isNegative {
        decoded := Some(Int(ToInt64(-ToInt64(value.value))));
      } else if value.value <= MAX_INT {
        decoded := Some(Int(value.value));
      } else {
        decoded := Some(UInt(value.value));
      }
    }

    method DecodeDouble(token: Token) returns (decoded: Option<Data>)
      requires token.start <= token.limit <= |document|
      modifies this`errors
      ensures decoded == DoubleData(lib.parseDouble(TextOf(document, token)))
      ensures errors == old(errors) + if decoded.Some? then [] else [ErrorAt(NotANumber, token)]
    {
      var value := lib.parseDouble(TextOf(document, token));
      if value.None? {
        var _ := AddError(NotANumber, token);
        return None;
      }
      return Some(Real(value.value));
    }

    method DecodeNumberToken(token: Token) returns (ok: bool)
      requires token.start < token.limit <= |document| && IsNumberText(TextOf(document, token))
      requires nodes != []
      modifies this`errors, this`nodes
      ensures var r := Decoded(token, DecodeNumber(lib, TextOf(document, token)), NotANumber, old(Top()));
              ok == r.ok && errors == old(errors) + r.errors && nodes == old(nodes)[..|old(nodes)| - 1] + [r.value]
    {
      var decoded := DecodeNumberData(token);
      if decoded.None? {
        return false;
      }
      SetTop(Value(decoded.value, token.start, token.limit));
      return true;
    }

    /** `decodeUnicodeEscapeSequence`: the code point, or the error, and the position after it. */
    method DecodeUnicodeEscapeSequence(body: string, at: nat) returns (r: CodePoint, next: nat)
      requires at <= |body|
      ensures r == UnescapeHex4(body[at..])
      ensures r.CodePoint? ==> next == at + 4 <= |body|
    {
      next := at;
      if |body| - at < 4 {
        return BadCodePoint(FourDigitsExpected), next;
      }
      var unicode := 0;
      ghost var s := body[at..];
      for index := 0 to 4
        invariant next == at + index
        invariant HexPrefix(s, index) == Some(unicode)
      {
        var c := body[next];
        assert c == s[index];
        next := next + 1;
        unicode := unicode * 16;
        if '0' <= c <= '9' {
          unicode := unicode + (c as int - '0' as int);
        } else if 'a' <= c <= 'f' {
          unicode := unicode + (c as int - 'a' as int + 10);
        } else if 'A' <= c <= 'F' {
          unicode := unicode + (c as int - 'A' as int + 10);
        } else {
          HexPrefixFails(s, index + 1, 4);
          return BadCodePoint(HexDigitExpected), next;
        }
      }
      return CodePoint(unicode, 4), next;
    }

    method DecodeUnicodeCodePoint(body: string, at: nat) returns (r: CodePoint, next: nat)
      requires at <= |body|
      ensures r == UnescapeCodePoint(body[at..])
      ensures r.CodePoint? ==> next == at + r.used <= |body|
    {
      ghost var s := body[at..];
      r, next := DecodeUnicodeEscapeSequence(body, at);
      if r.CodePoint? && 0xD800 <= r.cp <= 0xDBFF {
        if |body| - next < 6 {
          return BadCodePoint(SixCharactersExpected), next;
        }
        assert s[4] == body[next] && s[5] == body[next + 1] && s[6..] == body[next + 2..];
        if body[next] == '\\' && body[next + 1] == 'u' {
          var second;
          second, next := DecodeUnicodeEscapeSequence(body, next + 2);
          if second.BadCodePoint? {
            return second, next;
          }
          return CodePoint(0x1_0000 + r.cp % 0x400 * 0x400 + second.cp % 0x400, 10), next;
        }
        return BadCodePoint(SecondHalfExpected), next;
      }
    }

    /** `decodeString(token, decoded)` */
    method DecodeStringText(token: Token) returns (decoded: Unquoted)
      requires token.start + 2 <= token.limit <= |document|
      modifies this`errors
      ensures decoded == Unquote(Body(document, token))
      ensures errors == old(errors) + if decoded.Text? then [] else [ErrorAt(BadString(decoded.error), token)]
    {
      var body := Body(document, token);
      var text := "";
      var at := 0;
      while at != |body|
        invariant 0 <= at <= |body|
        invariant errors == old(errors)
        invariant Unquote(body) == Prepend(text, Unquote(body[at..]))
        decreases |body| - at
      {
        ghost var s := body[at..];
        var c := body[at];
        at := at + 1;
        assert s[0] == c && s[1..] == body[at..];
        if c == '"' {
          break;
        } else if c == '\\' {
          if at == |body| {
            var _ := AddError(BadString(EmptyEscape), token);
            return Malformed(EmptyEscape);
          }
          var escape := body[at];
          at := at + 1;
          assert s[1] == escape && s[2..] == body[at..];
          if SimpleEscape(escape).Some? {
            PrependTwice(text, [SimpleEscape(escape).value], Unquote(s[2..]));
            text := text + [SimpleEscape(escape).value];
          } else if escape == 'u' {
            CodePointInRange(s[2..]);
            var r, next := DecodeUnicodeCodePoint(body, at);
            if r.BadCodePoint? {
              var _ := AddError(BadString(r.error), token);
              return Malformed(r.error);
            }
            assert s[2 + r.used..] == body[next..];
            PrependTwice(text, CodePointToUtf8(r.cp), Unquote(body[next..]));
            text := text + CodePointToUtf8(r.cp);
            at := next;
          } else {
            var _ := AddError(BadString(UnknownEscape), token);
            return Malformed(UnknownEscape);
          }
        } else {
          PrependTwice(text, [c], Unquote(s[1..]));
          text := text + [c];
        }
      }
      return Text(text);
    }

    method DecodeStringToken(token: Token) returns (ok: bool)
      requires token.start + 2 <= token.limit <= |document|
      requires nodes != []
      modifies this`errors, this`nodes
      ensures var u := Unquote(Body(document, token));
              var r := Decoded(token, UnquotedData(u), UnquotedError(u), old(Top()));
              ok == r.ok && errors == old(errors) + r.errors && nodes == old(nodes)[..|old(nodes)| - 1] + [r.value]
    {
      var decoded := DecodeStringText(token);
      if decoded.Malformed? {
        return false;
      }
      SetTop(Value(Str(Some(CStr(decoded.text))), token.start, token.limit));
      return true;
    }

    // -------------------------------------------------------------- values

    /** The state that `Parsed` describes, given the state before. */
    twostate predicate Reached(r: Parsed, ok: bool)
      requires old(nodes) != []
      reads this
    {
      && ok == r.ok
      && current == r.cur
      && errors == old(errors) + r.errors
      && nodes == old(nodes)[..|old(nodes)| - 1] + [r.value]
    }

    /** The state that `Filled` describes for the container `v` without its offsets' end. */
    twostate predicate ReachedFilled(r: Filled, v: Value, ok: bool)
      requires old(nodes) != []
      reads this
    {
      && ok == r.ok
      && current == r.cur
      && errors == old(errors) + r.errors
      && nodes == old(nodes)[..|old(nodes)| - 1] + [v]
    }

    method ReadScalar(token: Token) returns (ok: bool)
      requires InBounds() && nodes != [] && current == token.limit && token.start <= token.limit
      requires token.kind == StringToken ==> token.start + 2 <= token.limit
      requires token.kind == ArraySeparator ==> token.start + 1 == token.limit
      requires token.kind == NumberToken ==> token.start < token.limit && IsNumberText(TextOf(document, token))
      modifies this`current, this`nodes, this`errors
      ensures Reached(ParseScalar(features, lib, document, token, old(Top())), ok)
    {
      hide DecodeNumber, Unquote;
      ok := true;
      if token.kind == NumberToken {
        ok := DecodeNumberToken(token);
      } else if token.kind == StringToken {
        ok := DecodeStringToken(token);
      } else if token.kind == TrueToken {
        SetTop(Value(Bool(true), token.start, token.limit));
      } else if token.kind == FalseToken {
        SetTop(Value(Bool(false), token.start, token.limit));
      } else if token.kind == NullToken {
        SetTop(Value(Null, token.start, token.limit));
      } else if token.kind == ArraySeparator && features.allowDroppedNullPlaceholders {
        current := current - 1;
        SetTop(Value(Null, OffsetBefore(current), current));
      } else {
        SetTop(Top().(start := token.start, limit := token.limit));
        ok := AddError(ValueExpected, token);
      }
    }

    method ReadValue() returns (ok: bool)
      requires InBounds() && nodes != []
      modifies this`current, this`nodes, this`errors
      ensures Reached(ParseValue(features, lib, document, old(current), old(Top())), ok)
      decreases |document| - current, 0
    {
      hide ParseMembers, ParseArray, ParseScalar, ValueToken;
      ValueTokenNumber(features, document, current);
      var token := SkipCommentTokens();
      if token.kind == ObjectBegin {
        ok := ReadObject(token);
        SetTop(Top().(limit := current));
      } else if token.kind == ArrayBegin {
        ok := ReadArray(token);
        SetTop(Top().(limit := current));
      } else {
        ok := ReadScalar(token);
      }
    }

    method ReadArray(tokenStart: Token) returns (ok: bool)
      requires InBounds() && nodes != []
      modifies this`current, this`nodes, this`errors
      ensures var r := ParseArray(features, lib, document, old(current));
              ReachedFilled(r, Value(Arr(r.entries), tokenStart.start, 0), ok)
      decreases |document| - current, 4
    {
      hide ParseElements, SpaceLen, Next;
      SetTop(Value(Arr(Nil), tokenStart.start, 0));
      SkipSpaces();
      if Peek() == ']' {
        NextAtBracket(document, current);
        var _ := ReadToken();
        return true;
      }
      ok := ReadElements();
    }

    /**
     Reads a value into the slot of `key` in the current container: the slot is pushed, read
     and popped, and its value is then the entry of the container.
     */
    method ReadSlot(key: Key) returns (ok: bool)
      requires InBounds() && nodes != [] && IsContainer(Top())
      modifies this`current, this`nodes, this`errors
      ensures var parent := old(Top());
              var v := ParseValue(features, lib, document, old(current), Lookup(Children(parent), key));
              && ok == v.ok && current == v.cur && errors == old(errors) + v.errors
              && nodes == old(nodes[..|nodes| - 1]) + [WithChildren(parent, Put(Children(parent), key, v.value))]
      decreases |document| - current, 1
    {
      hide ParseValue, Put, Lookup;
      var parent := Top();
      nodes := nodes + [Lookup(Children(parent), key)];
      ok := ReadValue();
      var child := Top();
      nodes := nodes[..|nodes| - 1];
      SetTop(WithChildren(parent, Put(Children(parent), key, child)));
    }

    /** The state after an entry: `Step` with the container `v` without its entries on top. */
    twostate predicate Stepped(r: Step, below: seq<Value>, v: Value, ok: bool, done: bool)
      requires IsContainer(v)
      reads this
    {
      if r.Stop? then
        done && ok == r.filled.ok && current == r.filled.cur && errors == old(errors) + r.filled.errors
        && nodes == below + [WithChildren(v, r.filled.entries)]
      else
        !done && current == r.cur && errors == old(errors) && nodes == below + [WithChildren(v, r.entries)]
    }

    /** One round of the loop of `readArray` */
    method ReadElement(index: nat) returns (ok: bool, done: bool)
      requires InBounds() && nodes != [] && Top().data.Arr?
      modifies this`current, this`nodes, this`errors
      ensures var entries := old(Top()).data.elems;
              var v := ParseValue(features, lib, document, old(current), Lookup(entries, Index(index)));
              Stepped(AfterElement(document, v, Put(entries, Index(index), v.value)), old(nodes[..|nodes| - 1]),
                      old(Top()), ok, done)
      decreases |document| - current, 2
    {
      hide NonComment, Recover, ParseValue, Put, Lookup;
      ok := ReadSlot(Index(index));
      if !ok {
        ok := RecoverFromError(ArrayEnd);
        return ok, true;
      }
      var token := ReadNonComment();
      if token.kind != ArraySeparator && token.kind != ArrayEnd {
        ok := AddErrorAndRecover(CommaOrBracketExpected, token, ArrayEnd);
        return ok, true;
      }
      done := token.kind == ArrayEnd;
    }

    /** The loop of `readArray` */
    method ReadElements() returns (ok: bool)
      requires InBounds() && nodes != [] && Top().data == Arr(Nil)
      modifies this`current, this`nodes, this`errors
      ensures var r := ParseElements(features, lib, document, old(current), Nil, 0);
              ReachedFilled(r, old(Top()).(data := Arr(r.entries)), ok)
      decreases |document| - current, 3
    {
      hide AfterElement, ParseValue;
      ghost var whole := ParseElements(features, lib, document, current, Nil, 0);
      ghost var below := nodes[..|nodes| - 1];
      ghost var entries := Nil;
      var index := 0;
      while true
        invariant InBounds() && old(current) <= current && errors == old(errors)
        invariant nodes == below + [old(Top()).(data := Arr(entries))]
        invariant whole == ParseElements(features, lib, document, current, entries, index)
        decreases |document| - current
      {
        assert nodes[..|nodes| - 1] == below;
        var done;
        ok, done := ReadElement(index);
        if done {
          return;
        }
        entries := Top().data.elems;
        index := index + 1;
      }
    }

    /** The name of a member from its token, as in `readObject`. */
    method DecodeName(token: Token) returns (name: MemberName)
      requires token.start <= token.limit <= |document|
      requires token.kind == StringToken ==> token.start + 2 <= token.limit
      requires token.kind == NumberToken ==> token.start < token.limit && IsNumberText(TextOf(document, token))
      modifies this`errors
      ensures name == ReadName(features, lib, document, token)
      ensures errors == old(errors) + if name.Unreadable? then [ErrorAt(name.kind, token)] else []
    {
      if token.kind == StringToken {
        var decoded := DecodeStringText(token);
        return if decoded.Text? then Named(decoded.text) else Unreadable(BadString(decoded.error));
      } else if token.kind == NumberToken && features.allowNumericKeys {
        var decoded := DecodeNumberData(token);
        return if decoded.Some? then Named(NumberAsString(lib, decoded.value)) else Unreadable(NotANumber);
      }
      return NoName;
    }

    /** `readObject` from a member's name to its colon; `name` is the previous member's name. */
    method ReadMemberStart(name: string) returns (ok: bool, done: bool, name': string)
      requires InBounds() && nodes != [] && Top().data.Obj?
      modifies this`current, this`errors
      ensures var r := StartMember(features, lib, document, old(current), Top().data.members, name);
              if r.ValueAt? then !done && name' == r.name && current == r.cur && errors == old(errors)
              else done && ok == r.filled.ok && current == r.filled.cur && errors == old(errors) + r.filled.errors
                   && r.filled.entries == Top().data.members
    {
      hide Next, NonComment, Recover, ReadName;
      name' := "";
      NonCommentNumber(document, current);
      var tokenName := ReadNonComment();
      if tokenName.kind == ObjectEnd && name == "" {
        return true, true, name';
      }
      var decoded := DecodeName(tokenName);
      if decoded.Unreadable? {
        ok := RecoverFromError(ObjectEnd);
        return ok, true, name';
      }
      if decoded.NoName? {
        ok := AddErrorAndRecover(BraceOrNameExpected, tokenName, ObjectEnd);
        return ok, true, name';
      }
      name' := decoded.name;
      var colon := ReadToken();
      if colon.kind != MemberSeparator {
        ok := AddErrorAndRecover(ColonExpected, colon, ObjectEnd);
        return ok, true, name';
      }
      ok, done := true, false;
    }

    /** `readObject` from the colon of a member to the next member */
    method ReadMemberValue(name: string) returns (ok: bool, done: bool)
      requires InBounds() && nodes != [] && Top().data.Obj?
      modifies this`current, this`nodes, this`errors
      ensures var entries := old(Top()).data.members;
              var v := ParseValue(features, lib, document, old(current), Lookup(entries, MemberKey(name)));
              Stepped(AfterMember(document, v, Put(entries, MemberKey(name), v.value)), old(nodes[..|nodes| - 1]),
                      old(Top()), ok, done)
      decreases |document| - current, 2
    {
      hide Next, Recover, ParseValue, Put, Lookup, CStr;
      ok := ReadSlot(MemberKey(name));
      if !ok {
        ok := RecoverFromError(ObjectEnd);
        return ok, true;
      }
      var comma := ReadToken();
      if comma.kind != ObjectEnd && comma.kind != ArraySeparator && comma.kind != CommentToken {
        ok := AddErrorAndRecover(CommaOrBraceExpected, comma, ObjectEnd);
        return ok, true;
      }
      if comma.kind == CommentToken {
        comma := ReadNonComment();
      }
      done := comma.kind == ObjectEnd;
    }

    method ReadObject(tokenStart: Token) returns (ok: bool)
      requires InBounds() && nodes != []
      modifies this`current, this`nodes, this`errors
      ensures var r := ParseMembers(features, lib, document, old(current), Nil, "");
              ReachedFilled(r, Value(Obj(r.entries), tokenStart.start, 0), ok)
      decreases |document| - current, 4
    {
      hide StartMember, AfterMember, ParseValue;
      SetTop(Value(Obj(Nil), tokenStart.start, 0));
      ghost var whole := ParseMembers(features, lib, document, current, Nil, "");
      ghost var below := nodes[..|nodes| - 1];
      ghost var entries := Nil;
      var name := "";
      while true
        invariant InBounds() && old(current) <= current && errors == old(errors)
        invariant nodes == below + [Value(Obj(entries), tokenStart.start, 0)]
        invariant whole == ParseMembers(features, lib, document, current, entries, name)
        decreases |document| - current
      {
        assert nodes[..|nodes| - 1] == below;
        var done;
        ok, done, name := ReadMemberStart(name);
        if done {
          return;
        }
        ok, done := ReadMemberValue(name);
        if done {
          return;
        }
        entries := Top().data.members;
      }
    }

    // -------------------------------------------------------------- documents

    method Parse(beginDoc: string, root: Value) returns (ok: bool, root': Value)
      modifies this`document, this`current, this`nodes, this`errors
      ensures document == beginDoc
      ensures Outcome(ok, root', errors) == ParseDocument(features, lib, beginDoc, root)
      ensures |nodes| == 1
    {
      document := beginDoc;
      current := 0;
      errors := [];
      nodes := [root];
      assert document[0..] == document;
      var successful := ReadValue();
      root' := Top();
      var _ := SkipCommentTokens();
      if features.strictRoot {
        if !IsContainer(root') {
          ok := AddError(ContainerExpected, Token(ErrorToken, 0, |beginDoc|));
          return;
        }
      }
      ok := successful;
    }
  }

  function Children(v: Value): Entries
    requires IsContainer(v)
  {
    if v.data.Arr? then v.data.elems else v.data.members
  }

  function WithChildren(v: Value, es: Entries): Value
    requires IsContainer(v)
  {
    v.(data := if v.data.Arr? then Arr(es) else Obj(es))
  }

  lemma NextAtBracket(doc: string, at: nat)
    requires at < |doc| && doc[at] == ']'
    ensures SpaceLen(doc[at..]) == 0
    ensures Next(doc, at) == Token(ArrayEnd, at, at + 1)
  {
  }

  /** After the sign, an integer-form number token has only digits. */
  lemma IntegerFormDigits(text: string)
    requires IsNumberText(text) && HasIntegerForm(text)
    ensures AllDigits(WithoutSign(text))
  {
    var digits := WithoutSign(text);
    forall i | 0 <= i < |digits| ensures IsDigit(digits[i]) {
      var j := i + |text| - |digits|;
      assert digits[i] == text[j] && IsNumberChar(text[j]);
    }
  }

  /**
   A token without fraction and exponent decodes to an integer exactly if its value fits 64 bits, and then to
   that value.
   */
  lemma IntegerIffItFits(lib: CLibrary, text: string)
    requires IsNumberText(text) && HasIntegerForm(text)
    ensures AllDigits(WithoutSign(text))
    ensures var n: int, decoded := DecimalValue(WithoutSign(text)), DecodeNumber(lib, text);
            var fits := n <= if IsNegative(text) then 0x8000_0000_0000_0000 else 0xFFFF_FFFF_FFFF_FFFF;
            && (fits <==> decoded.Some? && (decoded.value.Int? || decoded.value.UInt?))
            && (fits ==> (decoded.value.Int? <==> IsNegative(text) || n <= 0x7FFF_FFFF))
            && (fits ==>
                  (if decoded.value.Int? then decoded.value.i else decoded.value.u)
                  == if IsNegative(text) then -n else n)
  {
    hide DecimalValue, AllDigits;
    IntegerFormDigits(text);
  }

  lemma {:induction false} HexPrefixFails(s: string, j: nat, k: nat)
    requires j <= k <= |s| && HexPrefix(s, j) == None
    ensures HexPrefix(s, k) == None
  {
    if j < k {
      HexPrefixFails(s, j, k - 1);
    }
  }

  /** A value beyond the limit stays beyond it, whatever digits follow. */
  lemma {:induction false} TooLarge(digits: string, k: nat, limit: nat)
    requires AllDigits(digits) && k < |digits|
    requires var value := DecimalValue(digits[..k]);
             value >= limit / 10
             && (value > limit / 10 || k + 1 != |digits| || DigitOf(digits[k]) > limit % 10)
    requires limit >= 10
    ensures DecimalValue(digits) > limit
  {
    var value := DecimalValue(digits[..k]);
    assert digits[..k + 1][..k] == digits[..k];
    assert DecimalValue(digits[..k + 1]) == 10 * value + DigitOf(digits[k]);
    DecimalGrows(digits, k + 1);
    if k + 1 < |digits| {
      assert digits[..k + 2][..k + 1] == digits[..k + 1];
      DecimalGrows(digits, k + 2);
    }
  }

  lemma {:induction false} DecimalGrows(digits: string, k: nat)
    requires AllDigits(digits) && k <= |digits|
    ensures DecimalValue(digits[..k]) <= DecimalValue(digits)
    decreases |digits| - k
  {
    if k == |digits| {
      assert digits[..k] == digits;
    } else {
      assert digits[..k + 1][..k] == digits[..k];
      DecimalGrows(digits, k + 1);
    }
  }

  lemma ValueTokenNumber(f: Features, doc: string, cur: nat)
    requires cur <= |doc|
    ensures var t := ValueToken(f, doc, cur);
            t.kind == NumberToken ==> t.start < t.limit && IsNumberText(TextOf(doc, t))
  {
    if f.allowComments {
      NonCommentNumber(doc, cur);
    } else if Next(doc, cur).kind == NumberToken {
      NumberTokenText(doc, cur);
    }
  }

  lemma {:induction false} NonCommentNumber(doc: string, cur: nat)
    requires cur <= |doc|
    ensures var t := NonComment(doc, cur);
            t.kind == NumberToken ==> t.start < t.limit && IsNumberText(TextOf(doc, t))
    decreases |doc| - cur
  {
    var t := Next(doc, cur);
    if t.kind == CommentToken {
      NonCommentNumber(doc, t.limit);
    } else if t.kind == NumberToken {
      NumberTokenText(doc, cur);
    }
  }
}
