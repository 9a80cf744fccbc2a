/** `hbm::string::split` and the inverse of joining. */
module Split {
  import opened Wrappers

  /** `std::string::find`: where `pattern` occurs first at or after `start`. */
  function Find(text: string, pattern: string, start: nat): (r: Option<nat>)
    requires start <= |text|
    ensures r.Some? ==> start <= r.value && r.value + |pattern| <= |text|
    decreases |text| - start
  {
    if pattern <= text[start..] then Some(start)
    else if start == |text| then None
    else Find(text, pattern, start + 1)
  }

  predicate OccursAt(text: string, pattern: string, i: nat) {
    i <= |text| && pattern <= text[i..]
  }

  /** `Find` gives the first occurrence, if there is one. */
  lemma {:induction false} FindIsFirst(text: string, pattern: string, start: nat)
    requires start <= |text|
    ensures var r := Find(text, pattern, start);
            && (r.Some? ==> OccursAt(text, pattern, r.value))
            && forall i :: start <= i && (r.Some? ==> i < r.value) ==> !OccursAt(text, pattern, i)
    decreases |text| - start
  {
    if !(pattern <= text[start..]) && start < |text| {
      FindIsFirst(text, pattern, start + 1);
    }
  }

  /** The pieces of `text` from `start` on. */
  function Pieces(text: string, separator: string, start: nat): seq<string>
    requires separator != "" && start <= |text|
    decreases |text| - start
  {
    match Find(text, separator, start)
    case None => [text[start..]]
    case Some(end) => [text[start..end]] + Pieces(text, separator, end + |separator|)
  }

  function SplitText(text: string, separator: string): seq<string> {
    if separator == "" then [text] else Pieces(text, separator, 0)
  }

  function Join(tokens: seq<string>, separator: string): string {
    if tokens == [] then ""
    else if |tokens| == 1 then tokens[0]
    else tokens[0] + separator + Join(tokens[1..], separator)
  }

  lemma UnfoldPieces(text: string, separator: string, start: nat)
    requires separator != "" && start <= |text|
    ensures Pieces(text, separator, start) ==
              match Find(text, separator, start)
              case None => [text[start..]]
              case Some(end) => [text[start..end]] + Pieces(text, separator, end + |separator|)
  {
  }

  method Split(text: string, separator: string) returns (tokens: seq<string>)
    ensures tokens == SplitText(text, separator)
    ensures Join(tokens, separator) == text
  {
    hide Find, Pieces, Join;
    JoinSplit(text, separator);
    if |separator| == 0 {
      return [text];
    }
    tokens := [];
    var start := 0;
    while true
      invariant start <= |text|
      invariant SplitText(text, separator) == tokens + Pieces(text, separator, start)
      decreases |text| - start
    {
      UnfoldPieces(text, separator, start);
      var end := Find(text, separator, start);
      if end.None? {
        return tokens + [text[start..]];
      }
      tokens := tokens + [text[start..end.value]];
      start := end.value + |separator|;
    }
  }

  lemma {:induction false} JoinPieces(text: string, separator: string, start: nat)
    requires separator != "" && start <= |text|
    ensures Pieces(text, separator, start) != [] && Join(Pieces(text, separator, start), separator) == text[start..]
    decreases |text| - start
  {
    match Find(text, separator, start)
    case None =>
    case Some(end) =>
      FindIsFirst(text, separator, start);
      var next := end + |separator|;
      JoinPieces(text, separator, next);
      var tail := Pieces(text, separator, next);
      assert Pieces(text, separator, start) == [text[start..end]] + tail;
      assert ([text[start..end]] + tail)[1..] == tail;
      assert text[end..next] == separator by {
        assert text[end..][..|separator|] == text[end..next];
      }
      assert text[start..] == text[start..end] + text[end..next] + text[next..];
  }

  /** Nothing is lost: joining the pieces gives the text back. */
  lemma JoinSplit(text: string, separator: string)
    ensures SplitText(text, separator) != [] && Join(SplitText(text, separator), separator) == text
  {
    if separator != "" {
      JoinPieces(text, separator, 0);
    }
  }

  lemma {:induction false} PiecesLackSeparator(text: string, c: char, start: nat)
    requires start <= |text|
    ensures forall n :: 0 <= n < |Pieces(text, [c], start)| ==> c !in Pieces(text, [c], start)[n]
    decreases |text| - start
  {
    FindIsFirst(text, [c], start);
    var end := match Find(text, [c], start) case None => |text| case Some(e) => e;
    forall i | start <= i < end ensures text[i] != c {
      assert !OccursAt(text, [c], i);
    }
    assert c !in text[start..end];
    if end < |text| {
      PiecesLackSeparator(text, c, end + 1);
    }
  }

  lemma FindInPrefix(head: string, c: char, tail: string, start: nat)
    requires start <= |head| && c !in head[start..]
    ensures Find(head + [c] + tail, [c], start) == Some(|head|)
  {
    var text := head + [c] + tail;
    FindIsFirst(text, [c], start);
    assert OccursAt(text, [c], |head|);
    forall r | start <= r < |head| ensures !OccursAt(text, [c], r) {
      assert text[r] == head[start..][r - start];
    }
  }

  lemma FindNothing(text: string, c: char, start: nat)
    requires start <= |text| && c !in text[start..]
    ensures Find(text, [c], start) == None
  {
    FindIsFirst(text, [c], start);
    forall r | start <= r < |text| ensures !OccursAt(text, [c], r) {
      assert text[r] == text[start..][r - start];
    }
  }

  lemma FirstPiece(head: string, token: string, c: char, tail: string)
    requires c !in token
    ensures Pieces(head + token + [c] + tail, [c], |head|)
         == [token] + Pieces(head + token + [c] + tail, [c], |head + token + [c]|)
  {
    hide Find, Pieces;
    var first := head + token;
    assert first[|head|..] == token;
    FindInPrefix(first, c, tail, |head|);
    UnfoldPieces(first + [c] + tail, [c], |head|);
    assert (first + [c] + tail)[|head|..|first|] == token;
  }

  lemma LastPiece(head: string, token: string, c: char)
    requires c !in token
    ensures Pieces(head + token, [c], |head|) == [token]
  {
    assert (head + token)[|head|..] == token;
    FindNothing(head + token, c, |head|);
  }

  lemma {:induction false} PiecesOfJoin(head: string, tokens: seq<string>, c: char)
    requires tokens != [] && forall n :: 0 <= n < |tokens| ==> c !in tokens[n]
    ensures Pieces(head + Join(tokens, [c]), [c], |head|) == tokens
    decreases |tokens|
  {
    hide Find, Pieces;
    if |tokens| == 1 {
      LastPiece(head, tokens[0], c);
    } else {
      var tail := Join(tokens[1..], [c]);
      FirstPiece(head, tokens[0], c, tail);
      PiecesOfJoin(head + tokens[0] + [c], tokens[1..], c);
      assert head + (tokens[0] + [c] + tail) == head + tokens[0] + [c] + tail;
    }
  }

  /** Splitting inverts joining exactly when no token holds the separator. */
  lemma SplitInvertsJoin(tokens: seq<string>, c: char)
    requires tokens != []
    ensures SplitText(Join(tokens, [c]), [c]) == tokens <==> forall n :: 0 <= n < |tokens| ==> c !in tokens[n]
  {
    var text := Join(tokens, [c]);
    PiecesLackSeparator(text, c, 0);
    if forall n :: 0 <= n < |tokens| ==> c !in tokens[n] {
      assert "" + text == text;
      PiecesOfJoin("", tokens, c);
    }
  }
}
