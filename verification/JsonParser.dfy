/**
 What `Json::Reader` computes, as functions of the document and the position: the value, the
 position after it and the recorded errors, with the recovery after an error.
 */
module JsonParser {
  import opened JsonLexer
  import opened JsonTool
  import opened JsonValue
  import opened Wrappers

  datatype Features = Features(
    allowComments: bool,
    strictRoot: bool,
    allowDroppedNullPlaceholders: bool,
    allowNumericKeys: bool)

  const DEFAULT_FEATURES: Features := Features(true, false, false, false)

  /** The conversions of the C library between text and `double`. */
  datatype CLibrary = CLibrary(parseDouble: string -> Option<Double>, printDouble: Double -> string)

  datatype ErrorKind =
    | ValueExpected
    | ColonExpected
    | CommaOrBraceExpected
    | BraceOrNameExpected
    | CommaOrBracketExpected
    | NotANumber
    | BadString(error: EscapeError)
    | ContainerExpected

  /** An error and the token it was found at. */
  datatype Error = Error(kind: ErrorKind, start: nat, limit: nat)

  function ErrorAt(kind: ErrorKind, t: Token): Error {
    Error(kind, t.start, t.limit)
  }

  // ---------------------------------------------------------------- scalars

  predicate HasIntegerForm(text: string) {
    forall i :: 0 <= i < |text| ==>
      text[i] != '.' && text[i] != 'e' && text[i] != 'E' && text[i] != '+' && (text[i] == '-' ==> i == 0)
  }

  predicate IsNegative(text: string) {
    text != "" && text[0] == '-'
  }

  function WithoutSign(text: string): string {
    if IsNegative(text) then text[1..] else text
  }

  function DoubleData(d: Option<Double>): Option<Data> {
    if d.Some? then Some(Real(d.value)) else None
  }

  /** An integer if the text has integer form and fits 64 bits, else what the C library reads. */
  function DecodeNumber(lib: CLibrary, text: string): Option<Data> {
    if !HasIntegerForm(text) then DoubleData(lib.parseDouble(text))
    else if !AllDigits(WithoutSign(text)) then None
    else
      var n: int := DecimalValue(WithoutSign(text));
      if IsNegative(text) && n <= -MIN_INT64 then Some(Int(-n))
      else if !IsNegative(text) && n <= MAX_INT then Some(Int(n))
      else if !IsNegative(text) && n <= MAX_UINT64 then Some(UInt(n))
      else DoubleData(lib.parseDouble(text))
  }

  /** `asString` of a number. */
  function NumberAsString(lib: CLibrary, d: Data): string {
    match d
    case Int(i) => IntText(i)
    case UInt(u) => Digits(u)
    case Real(x) => lib.printDouble(x)
    case _ => ""
  }

  function TextOf(doc: string, t: Token): string
    requires t.start <= t.limit <= |doc|
  {
    doc[t.start..t.limit]
  }

  /** The text between the quotes of a string token. */
  function Body(doc: string, t: Token): string
    requires t.start + 2 <= t.limit <= |doc|
  {
    doc[t.start + 1..t.limit - 1]
  }

  // ---------------------------------------------------------------- recovery

  /** Skips tokens up to and including one of the given kind, or to the end of the stream. */
  function Recover(doc: string, cur: nat, until: TokenKind): (r: nat)
    requires cur <= |doc|
    ensures cur <= r <= |doc|
    decreases |doc| - cur
  {
    var t := Next(doc, cur);
    if t.kind == until || t.kind == EndOfStream then t.limit else Recover(doc, t.limit, until)
  }

  // ---------------------------------------------------------------- values

  datatype Parsed = Parsed(ok: bool, value: Value, cur: nat, errors: seq<Error>)

  /** A failure records exactly one error, a success none. */
  predicate OneErrorIff(ok: bool, errors: seq<Error>) {
    |errors| == if ok then 0 else 1
  }

  /** The entries read so far of an array or object. */
  datatype Filled = Filled(ok: bool, entries: Entries, cur: nat, errors: seq<Error>)

  function FailAndRecover(doc: string, kind: ErrorKind, t: Token, entries: Entries, until: TokenKind): (r: Filled)
    requires t.start <= t.limit <= |doc|
    ensures t.limit <= r.cur <= |doc|
    ensures OneErrorIff(r.ok, r.errors)
  {
    Filled(false, entries, Recover(doc, t.limit, until), [ErrorAt(kind, t)])
  }

  function ValueToken(f: Features, doc: string, cur: nat): (t: Token)
    requires cur <= |doc|
    ensures cur <= t.start <= t.limit <= |doc|
    ensures t.kind != EndOfStream ==> t.start < t.limit
    ensures t.kind == StringToken ==> t.start + 2 <= t.limit
    ensures t.kind == ArraySeparator ==> t.start + 1 == t.limit
  {
    if f.allowComments then NonComment(doc, cur) else Next(doc, cur)
  }

  function Decoded(t: Token, d: Option<Data>, bad: ErrorKind, prev: Value): (r: Parsed)
    ensures r.cur == t.limit && OneErrorIff(r.ok, r.errors)
  {
    if d.Some? then Parsed(true, Value(d.value, t.start, t.limit), t.limit, [])
    else Parsed(false, prev, t.limit, [ErrorAt(bad, t)])
  }

  function UnquotedData(u: Unquoted): Option<Data> {
    if u.Text? then Some(Str(Some(CStr(u.text)))) else None
  }

  function UnquotedError(u: Unquoted): ErrorKind {
    if u.Malformed? then BadString(u.error) else ValueExpected
  }

  /** The offset in front of a position; in front of the first it is -1, as a `size_t`. */
  function OffsetBefore(at: nat): nat {
    if at == 0 then MAX_UINT64 else at - 1
  }

  /** A value that is not a container; `prev` is what its slot held before. */
  function ParseScalar(f: Features, lib: CLibrary, doc: string, t: Token, prev: Value): (r: Parsed)
    requires t.start <= t.limit <= |doc|
    requires t.kind == StringToken ==> t.start + 2 <= t.limit
    requires t.kind == ArraySeparator ==> t.start + 1 == t.limit
    ensures t.start <= r.cur <= t.limit && OneErrorIff(r.ok, r.errors)
    ensures !(t.kind == ArraySeparator && f.allowDroppedNullPlaceholders) ==> r.cur == t.limit
  {
    if t.kind == NumberToken then
      Decoded(t, DecodeNumber(lib, TextOf(doc, t)), NotANumber, prev)
    else if t.kind == StringToken then
      var u := Unquote(Body(doc, t));
      Decoded(t, UnquotedData(u), UnquotedError(u), prev)
    else if t.kind == TrueToken then
      Decoded(t, Some(Bool(true)), ValueExpected, prev)
    else if t.kind == FalseToken then
      Decoded(t, Some(Bool(false)), ValueExpected, prev)
    else if t.kind == NullToken then
      Decoded(t, Some(Null), ValueExpected, prev)
    else if t.kind == ArraySeparator && f.allowDroppedNullPlaceholders then
      Parsed(true, Value(Null, OffsetBefore(t.limit - 1), t.limit - 1), t.limit - 1, [])
    else
      Parsed(false, prev.(start := t.start, limit := t.limit), t.limit, [ErrorAt(ValueExpected, t)])
  }

  /** The name of an object member, or why there is none. */
  datatype MemberName = Named(name: string) | Unreadable(kind: ErrorKind) | NoName

  function ReadName(f: Features, lib: CLibrary, doc: string, t: Token): MemberName
    requires t.start <= t.limit <= |doc|
    requires t.kind == StringToken ==> t.start + 2 <= t.limit
  {
    if t.kind == StringToken then
      match Unquote(Body(doc, t))
      case Text(s) => Named(s)
      case Malformed(e) => Unreadable(BadString(e))
    else if t.kind == NumberToken && f.allowNumericKeys then
      match DecodeNumber(lib, TextOf(doc, t))
      case Some(d) => Named(NumberAsString(lib, d))
      case None => Unreadable(NotANumber)
    else NoName
  }

  function ParseValue(f: Features, lib: CLibrary, doc: string, cur: nat, prev: Value): (r: Parsed)
    requires cur <= |doc|
    ensures cur <= r.cur <= |doc| && OneErrorIff(r.ok, r.errors)
    decreases |doc| - cur, 0
  {
    var t := ValueToken(f, doc, cur);
    if t.kind == ObjectBegin then
      var c := ParseMembers(f, lib, doc, t.limit, Nil, "");
      Parsed(c.ok, Value(Obj(c.entries), t.start, c.cur), c.cur, c.errors)
    else if t.kind == ArrayBegin then
      var c := ParseArray(f, lib, doc, t.limit);
      Parsed(c.ok, Value(Arr(c.entries), t.start, c.cur), c.cur, c.errors)
    else
      ParseScalar(f, lib, doc, t, prev)
  }

  /** After `[` */
  function ParseArray(f: Features, lib: CLibrary, doc: string, cur: nat): (r: Filled)
    requires cur <= |doc|
    ensures cur <= r.cur <= |doc| && OneErrorIff(r.ok, r.errors)
    decreases |doc| - cur, 2
  {
    var first := cur + SpaceLen(doc[cur..]);
    if first < |doc| && doc[first] == ']' then Filled(true, Nil, first + 1, [])
    else ParseElements(f, lib, doc, first, Nil, 0)
  }

  /** After one entry: the container is finished, or the next entry starts at `cur`. */
  datatype Step = Stop(filled: Filled) | Continue(cur: nat, entries: Entries)

  /** After the value of an array element */
  function AfterElement(doc: string, v: Parsed, entries: Entries): (r: Step)
    requires v.cur <= |doc| && OneErrorIff(v.ok, v.errors)
    ensures r.Stop? ==> v.cur <= r.filled.cur <= |doc| && OneErrorIff(r.filled.ok, r.filled.errors)
    ensures r.Continue? ==> v.cur < r.cur <= |doc|
  {
    if !v.ok then Stop(Filled(false, entries, Recover(doc, v.cur, ArrayEnd), v.errors))
    else
      var t := NonComment(doc, v.cur);
      if t.kind == ArrayEnd then Stop(Filled(true, entries, t.limit, []))
      else if t.kind == ArraySeparator then Continue(t.limit, entries)
      else Stop(FailAndRecover(doc, CommaOrBracketExpected, t, entries, ArrayEnd))
  }

  function ParseElements(f: Features, lib: CLibrary, doc: string, cur: nat, entries: Entries, index: nat): (r: Filled)
    requires cur <= |doc|
    ensures cur <= r.cur <= |doc| && OneErrorIff(r.ok, r.errors)
    decreases |doc| - cur, 1
  {
    var v := ParseValue(f, lib, doc, cur, Lookup(entries, Index(index)));
    match AfterElement(doc, v, Put(entries, Index(index), v.value))
    case Stop(r) => r
    case Continue(next, entries') => ParseElements(f, lib, doc, next, entries', index + 1)
  }

  /** Up to the colon of a member: the object is finished, or a value for `name` starts at `cur`. */
  datatype MemberStart = NoMember(filled: Filled) | ValueAt(cur: nat, name: string)

  function StartMember(f: Features, lib: CLibrary, doc: string, cur: nat, entries: Entries,
                       last: string)
    : (r: MemberStart)
    requires cur <= |doc|
    ensures r.NoMember? ==> cur <= r.filled.cur <= |doc| && OneErrorIff(r.filled.ok, r.filled.errors)
    ensures r.ValueAt? ==> cur < r.cur <= |doc|
  {
    var t := NonComment(doc, cur);
    if t.kind == ObjectEnd && last == "" then NoMember(Filled(true, entries, t.limit, []))
    else
      match ReadName(f, lib, doc, t)
      case NoName => NoMember(FailAndRecover(doc, BraceOrNameExpected, t, entries, ObjectEnd))
      case Unreadable(kind) => NoMember(FailAndRecover(doc, kind, t, entries, ObjectEnd))
      case Named(name) =>
        var colon := Next(doc, t.limit);
        if colon.kind == MemberSeparator then ValueAt(colon.limit, name)
        else NoMember(FailAndRecover(doc, ColonExpected, colon, entries, ObjectEnd))
  }

  /** After the value of a member; a comment there hides what follows it from the check. */
  function AfterMember(doc: string, v: Parsed, entries: Entries): (r: Step)
    requires v.cur <= |doc| && OneErrorIff(v.ok, v.errors)
    ensures r.Stop? ==> v.cur <= r.filled.cur <= |doc| && OneErrorIff(r.filled.ok, r.filled.errors)
    ensures r.Continue? ==> v.cur <= r.cur <= |doc|
  {
    if !v.ok then Stop(Filled(false, entries, Recover(doc, v.cur, ObjectEnd), v.errors))
    else
      var comma := Next(doc, v.cur);
      if comma.kind != ObjectEnd && comma.kind != ArraySeparator && comma.kind != CommentToken then
        Stop(FailAndRecover(doc, CommaOrBraceExpected, comma, entries, ObjectEnd))
      else
        var after := NonComment(doc, v.cur);
        if after.kind == ObjectEnd then Stop(Filled(true, entries, after.limit, []))
        else Continue(after.limit, entries)
  }

  /** After `{` or a separator; `last` is the name of the previous member. */
  function ParseMembers(f: Features, lib: CLibrary, doc: string, cur: nat, entries: Entries, last: string): (r: Filled)
    requires cur <= |doc|
    ensures cur <= r.cur <= |doc| && OneErrorIff(r.ok, r.errors)
    decreases |doc| - cur, 1
  {
    match StartMember(f, lib, doc, cur, entries, last)
    case NoMember(r) => r
    case ValueAt(at, name) =>
      var v := ParseValue(f, lib, doc, at, Lookup(entries, MemberKey(name)));
      match AfterMember(doc, v, Put(entries, MemberKey(name), v.value))
      case Stop(r) => r
      case Continue(next, entries') => ParseMembers(f, lib, doc, next, entries', name)
  }

  /** Names are cut at their first NUL, like every C string. */
  function MemberKey(name: string): Key {
    Name(CStr(name))
  }

  // ---------------------------------------------------------------- documents

  datatype Outcome = Outcome(ok: bool, root: Value, errors: seq<Error>)

  predicate IsContainer(v: Value) {
    v.data.Arr? || v.data.Obj?
  }

  /** `Reader::parse`; `prev` is what the root held before. */
  function ParseDocument(f: Features, lib: CLibrary, doc: string, prev: Value): (r: Outcome)
    ensures r.ok <==> r.errors == []
    ensures !f.strictRoot ==> OneErrorIff(r.ok, r.errors)
    ensures |r.errors| <= 2
  {
    var v := ParseValue(f, lib, doc, 0, prev);
    if f.strictRoot && !IsContainer(v.value) then
      Outcome(false, v.value, v.errors + [Error(ContainerExpected, 0, |doc|)])
    else
      Outcome(v.ok, v.value, v.errors)
  }
}
