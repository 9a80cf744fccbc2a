/**
 `Json::StyledWriter` and `Json::StyledStreamWriter` for values without comments. Both classes
 share their code apart from `writeIndent` and the text of one indentation step, so one class
 with a `Style` stands for the two.
 */
module JsonStyled {
  import opened JsonParser
  import opened JsonTool
  import opened JsonValue
  import opened JsonWriter
  import opened Wrappers

  const RIGHT_MARGIN: int := 74

  /** `stream`: `StyledStreamWriter`, which cannot look at what it wrote. */
  datatype Style = Style(stream: bool, unit: string)

  const STYLED: Style := Style(false, "   ")

  // ---------------------------------------------------------------- the printed text

  /** The last character written so far. */
  function LastOf(s: string, last: Option<char>): Option<char> {
    if s == "" then last else Some(s[|s| - 1])
  }

  /** `writeIndent` after `last` */
  function IndentText(st: Style, indent: string, last: Option<char>): string {
    if st.stream then "\n" + indent
    else if last.None? then indent
    else if last.value == ' ' then ""
    else if last.value == '\n' then indent
    else "\n" + indent
  }

  predicate IsEmptyContainer(d: Data) {
    (d.Arr? && ArraySize(d.elems) == 0) || d == Obj(Nil)
  }

  /** The values that `pushValue` prints as one text. */
  predicate IsSimple(d: Data) {
    (!d.Arr? && !d.Obj?) || IsEmptyContainer(d)
  }

  function SimpleText(lib: CLibrary, d: Data): string {
    if d.Arr? then "[]" else if d.Obj? then "{}" else ScalarText(lib, d)
  }

  /** `value[index]` */
  function Element(es: Entries, index: nat): Value {
    Lookup(es, Index(index))
  }

  /** The texts of the elements from `index` on. */
  function ElementTexts(lib: CLibrary, es: Entries, index: nat, size: nat): seq<string>
    decreases size - index
  {
    if index >= size then [] else [SimpleText(lib, Element(es, index).data)] + ElementTexts(lib, es, index + 1, size)
  }

  function TotalLength(texts: seq<string>): nat {
    if texts == [] then 0 else |texts[0]| + TotalLength(texts[1..])
  }

  predicate AllSimple(es: Entries, index: nat, size: nat)
    decreases size - index
  {
    index >= size || (IsSimple(Element(es, index).data) && AllSimple(es, index + 1, size))
  }

  /** Whether the children were printed into the buffer to measure the line. */
  predicate IsMeasured(es: Entries) {
    ArraySize(es) * 3 < RIGHT_MARGIN && AllSimple(es, 0, ArraySize(es))
  }

  /** `isMultineArray` */
  predicate IsMultiline(lib: CLibrary, es: Entries) {
    !IsMeasured(es)
    || 4 + (ArraySize(es) - 1) * 2 + TotalLength(ElementTexts(lib, es, 0, ArraySize(es))) >= RIGHT_MARGIN
  }

  /** Texts with `, ` between them. */
  function JoinTexts(texts: seq<string>): string {
    if texts == [] then ""
    else if |texts| == 1 then texts[0]
    else texts[0] + ", " + JoinTexts(texts[1..])
  }

  /** What `writeValue` appends after `last`, at indentation `indent`. */
  function StyledText(st: Style, lib: CLibrary, indent: string, last: Option<char>, v: Value): string
    decreases v, 0, 0
  {
    if IsSimple(v.data) then SimpleText(lib, v.data)
    else if v.data.Arr? then
      if IsMultiline(lib, v.data.elems) then MultilineText(st, lib, indent, last, v.data.elems)
      else
        "[ " + JoinTexts(ElementTexts(lib, v.data.elems, 0, ArraySize(v.data.elems))) + " ]"
    else
      var body := StyledMembers(st, lib, indent + st.unit, Some('{'), v.data.members);
      IndentText(st, indent, last) + "{" + body + IndentText(st, indent, LastOf(body, Some('{'))) + "}"
  }

  /** All elements on lines of their own. */
  function MultilineText(st: Style, lib: CLibrary, indent: string, last: Option<char>, es: Entries): string
    decreases es, 2, 0
  {
    var body := StyledElements(st, lib, indent + st.unit, Some('['), es, 0, ArraySize(es));
    IndentText(st, indent, last) + "[" + body + IndentText(st, indent, LastOf(body, Some('['))) + "]"
  }

  /** One element on its own line. */
  function StyledElement(st: Style, lib: CLibrary, indent: string, last: Option<char>, es: Entries, index: nat): string
    decreases es, 0, 0
  {
    var head := IndentText(st, indent, last);
    head + match Find(es, Index(index))
           case Some(v) => StyledText(st, lib, indent, LastOf(head, last), v)
           case None => "null"
  }

  function StyledElements(st: Style, lib: CLibrary, indent: string, last: Option<char>, es: Entries, index: nat,
                          size: nat): string
    decreases es, 1, size - index
  {
    if index >= size then ""
    else
      var element := StyledElement(st, lib, indent, last, es, index);
      if index + 1 == size then element
      else element + "," + StyledElements(st, lib, indent, Some(','), es, index + 1, size)
  }

  function StyledMember(st: Style, lib: CLibrary, indent: string, last: Option<char>, k: Key, v: Value): string
    decreases v, 1, 0
  {
    IndentText(st, indent, last) + Quote(KeyText(k)) + " : " + StyledText(st, lib, indent, Some(' '), v)
  }

  function StyledMembers(st: Style, lib: CLibrary, indent: string, last: Option<char>, es: Entries): string
    decreases es, 1, 0
  {
    match es
    case Nil => ""
    case Cons(k, v, rest) =>
      var member := StyledMember(st, lib, indent, last, k, v);
      if rest.Nil? then member else member + "," + StyledMembers(st, lib, indent, Some(','), rest)
  }

  function StyledDocument(st: Style, lib: CLibrary, root: Value): string {
    StyledText(st, lib, "", None, root) + "\n"
  }

  // ---------------------------------------------------------------- the class

  class StyledWriter {
    const lib: CLibrary
    const style: Style
    var childValues: seq<string>
    var document: string
    var indentString: string
    var addChildValues: bool

    constructor (style: Style, lib: CLibrary)
      ensures this.style == style && this.lib == lib
    {
      this.style, this.lib := style, lib;
      childValues, document, indentString, addChildValues := [], "", "", false;
    }

    function Last(): Option<char>
      reads this
    {
      LastOf(document, None)
    }

    method Write(root: Value) returns (text: string)
      requires WellFormed(root) && SizedBelow(root, MAX_INT / 3)
      modifies this
      ensures text == document == StyledDocument(style, lib, root)
    {
      document := "";
      addChildValues := false;
      indentString := "";
      WriteValue(root);
      document := document + "\n";
      text := document;
    }

    method PushValue(value: string)
      modifies this`childValues, this`document
      ensures addChildValues ==> childValues == old(childValues) + [value] && document == old(document)
      ensures !addChildValues ==> childValues == old(childValues) && document == old(document) + value
    {
      if addChildValues {
        childValues := childValues + [value];
      } else {
        document := document + value;
      }
    }

    method WriteIndent()
      modifies this`document
      ensures document == old(document) + IndentText(style, indentString, old(Last()))
    {
      if style.stream {
        document := document + ("\n" + indentString);
        return;
      }
      if document != "" {
        var last := document[|document| - 1];
        if last == ' ' {
          return;
        }
        if last != '\n' {
          document := document + "\n";
        }
      }
      document := document + indentString;
    }

    method WriteWithIndent(value: string)
      modifies this`document
      ensures document == old(document) + IndentText(style, indentString, old(Last())) + value
    {
      WriteIndent();
      document := document + value;
    }

    method Indent()
      modifies this`indentString
      ensures indentString == old(indentString) + style.unit
    {
      indentString := indentString + style.unit;
    }

    method Unindent()
      requires |indentString| >= |style.unit|
      modifies this`indentString
      ensures indentString == old(indentString)[..|old(indentString)| - |style.unit|]
    {
      indentString := indentString[..|indentString| - |style.unit|];
    }

    /** While children are being collected, only values of one text are written. */
    method WriteValue(value: Value)
      requires WellFormed(value) && SizedBelow(value, MAX_INT / 3)
      requires addChildValues ==> IsSimple(value.data)
      modifies this
      ensures indentString == old(indentString) && addChildValues == old(addChildValues)
      ensures addChildValues ==>
                childValues == old(childValues) + [SimpleText(lib, value.data)] && document == old(document)
      ensures !addChildValues ==>
                document == old(document) + StyledText(style, lib, indentString, old(Last()), value)
      decreases value, 0, 4
    {
      hide StyledText, SimpleText, IsSimple, WellFormedAll, SizedAllBelow;
      if value.data.Arr? {
        WriteArrayValue(value);
      } else if value.data.Obj? {
        ObjectText(style, lib, indentString, Last(), value);
        if value.data.members.Nil? {
          PushValue("{}");
        } else {
          WriteObjectValue(value);
        }
      } else {
        ScalarIsSimple(style, lib, indentString, Last(), value);
        var text := ScalarToString(lib, value);
        PushValue(text);
      }
    }

    method WriteObjectValue(value: Value)
      requires WellFormed(value) && SizedBelow(value, MAX_INT / 3)
      requires value.data.Obj? && value.data.members.Cons? && !addChildValues
      modifies this
      ensures indentString == old(indentString) && !addChildValues
      ensures document == old(document) + StyledText(style, lib, indentString, old(Last()), value)
      decreases value, 0, 3
    {
      hide StyledMembers, IndentText, WellFormedAll, SizedAllBelow;
      WriteWithIndent("{");
      Indent();
      ghost var body := StyledMembers(style, lib, indentString, Some('{'), value.data.members);
      WriteMembers(value.data.members);
      Unindent();
      WriteWithIndent("}");
    }

    method WriteMembers(members: Entries)
      requires members.Cons? && Sorted(members) && WellFormedAll(members, false) && SizedAllBelow(members, MAX_INT / 3)
      requires !addChildValues
      modifies this
      ensures indentString == old(indentString) && !addChildValues
      ensures document == old(document) + StyledMembers(style, lib, indentString, old(Last()), members)
      decreases members, 2
    {
      hide StyledMember, WellFormed, WellFormedAll, SizedAllBelow, NamesOf, Skip, Find, Sorted;
      var names := MemberNames(members);
      var it := 0;
      ghost var whole := document + StyledMembers(style, lib, indentString, Last(), members);
      SkipNone(members);
      NamesFollowEntries(members);
      while true
        invariant 0 <= it < |names| && !addChildValues && indentString == old(indentString)
        invariant whole == document + StyledMembers(style, lib, indentString, Last(), Skip(members, it))
        decreases |names| - it
      {
        NamesLookup(members, it);
        FoundIsSized(members, MAX_INT / 3, Name(names[it]));
        WriteMember(members, names[it]);
        it := it + 1;
        if it == |names| {
          SkipAll(members);
          break;
        }
        NamesLookup(members, it);
        document := document + ",";
      }
    }

    method WriteMember(members: Entries, name: string)
      requires Find(members, Name(name)).Some? && NulFree(name) && !addChildValues
      requires WellFormed(Find(members, Name(name)).value) && SizedBelow(Find(members, Name(name)).value, MAX_INT / 3)
      modifies this
      ensures indentString == old(indentString) && !addChildValues
      ensures document == old(document)
                        + StyledMember(style, lib, indentString, old(Last()), Name(name),
                                       Find(members, Name(name)).value)
      decreases members, 1
    {
      hide StyledText, IndentText, Quote, IsSimple;
      var quoted := ValueToQuotedString(Some(name));
      WriteWithIndent(quoted);
      document := document + " : ";
      WriteValue(Find(members, Name(name)).value);
    }

    // -------------------------------------------------------------- arrays

    method WriteArrayValue(value: Value)
      requires WellFormed(value) && SizedBelow(value, MAX_INT / 3) && value.data.Arr?
      requires addChildValues ==> IsSimple(value.data)
      modifies this
      ensures indentString == old(indentString) && addChildValues == old(addChildValues)
      ensures addChildValues ==>
                childValues == old(childValues) + [SimpleText(lib, value.data)] && document == old(document)
      ensures !addChildValues ==>
                document == old(document) + StyledText(style, lib, indentString, old(Last()), value)
      decreases value, 0, 3
    {
      hide StyledElements, IndentText, WellFormedAll, SizedAllBelow, JoinTexts, ElementTexts, IsMultiline, ScalarText;
      var elems := value.data.elems;
      var size := ArraySize(elems);
      if size == 0 {
        PushValue("[]");
        return;
      }
      var isArrayMultiline := IsMultilineArray(elems);
      ElementTextsLength(lib, elems, 0, size);
      if isArrayMultiline {
        WriteMultilineArray(elems);
      } else {
        SingleLineIsMeasured(lib, elems);
        assert |childValues| == size;
        document := document + "[ ";
        WriteJoined(size);
        document := document + " ]";
      }
    }

    method WriteMultilineArray(elems: Entries)
      requires WellFormedAll(elems, true) && SizedAllBelow(elems, MAX_INT / 3) && 0 < ArraySize(elems)
      requires childValues == if IsMeasured(elems) then ElementTexts(lib, elems, 0, ArraySize(elems)) else []
      requires !addChildValues
      modifies this
      ensures indentString == old(indentString) && !addChildValues
      ensures document == old(document) + MultilineText(style, lib, indentString, old(Last()), elems)
      decreases elems, 4
    {
      hide StyledElements, IndentText, WellFormedAll, SizedAllBelow, ElementTexts, IsMeasured, ArraySize;
      WriteWithIndent("[");
      ghost var head := document;
      Indent();
      ghost var body := StyledElements(style, lib, indentString, Some('['), elems, 0, ArraySize(elems));
      assert Last() == Some('[');
      WriteElements(elems);
      LastAppended(head, body);
      Unindent();
      WriteWithIndent("]");
    }

    /** Prints the children into the buffer if the line has to be measured. */
    method IsMultilineArray(elems: Entries) returns (isMultiline: bool)
      requires WellFormedAll(elems, true) && SizedAllBelow(elems, MAX_INT / 3)
      requires 0 < ArraySize(elems) <= MAX_INT / 3 && !addChildValues
      modifies this
      ensures isMultiline == IsMultiline(lib, elems)
      ensures childValues == if IsMeasured(elems) then ElementTexts(lib, elems, 0, ArraySize(elems)) else []
      ensures document == old(document) && indentString == old(indentString) && !addChildValues
      decreases elems, 3
    {
      hide WellFormedAll, SizedAllBelow, ElementTexts, Lookup, ScalarText, IsSimple;
      var size := ArraySize(elems);
      isMultiline := size * 3 >= RIGHT_MARGIN;
      childValues := [];
      var index := 0;
      while index < size && !isMultiline
        invariant 0 <= index <= size
        invariant if isMultiline then !IsMeasured(elems)
                  else size * 3 < RIGHT_MARGIN && (IsMeasured(elems) <==> AllSimple(elems, index, size))
        invariant childValues == [] && document == old(document) && indentString == old(indentString) && !addChildValues
      {
        isMultiline := !IsSimple(Element(elems, index).data);
        index := index + 1;
      }
      if !isMultiline {
        addChildValues := true;
        var lineLength := CollectChildren(elems);
        addChildValues := false;
        isMultiline := lineLength >= RIGHT_MARGIN;
      }
    }

    method CollectChildren(elems: Entries) returns (lineLength: int)
      requires WellFormedAll(elems, true) && SizedAllBelow(elems, MAX_INT / 3)
      requires AllSimple(elems, 0, ArraySize(elems)) && childValues == [] && addChildValues
      modifies this
      ensures childValues == ElementTexts(lib, elems, 0, ArraySize(elems))
      ensures lineLength == 4 + (ArraySize(elems) - 1) * 2 + TotalLength(childValues)
      ensures document == old(document) && indentString == old(indentString) && addChildValues
      decreases elems, 2
    {
      hide WellFormedAll, SizedAllBelow, Element, SimpleText, IsSimple, ArraySize;
      var size := ArraySize(elems);
      lineLength := 4 + (size - 1) * 2;
      var index := 0;
      while index < size
        invariant 0 <= index <= size && |childValues| == index
        invariant childValues + ElementTexts(lib, elems, index, size) == ElementTexts(lib, elems, 0, size)
        invariant AllSimple(elems, index, size)
        invariant lineLength == 4 + (size - 1) * 2 + TotalLength(childValues)
        invariant document == old(document) && indentString == old(indentString) && addChildValues
      {
        TotalLengthSnoc(childValues, SimpleText(lib, Element(elems, index).data));
        WriteElementValue(elems, index);
        lineLength := lineLength + |childValues[index]|;
        index := index + 1;
      }
    }

    /** `writeValue(value[index])`; a missing index is the null value. */
    method WriteElementValue(elems: Entries, index: nat)
      requires WellFormedAll(elems, true) && SizedAllBelow(elems, MAX_INT / 3)
      requires addChildValues ==> IsSimple(Element(elems, index).data)
      modifies this
      ensures indentString == old(indentString) && addChildValues == old(addChildValues)
      ensures addChildValues ==>
                childValues == old(childValues) + [SimpleText(lib, Element(elems, index).data)]
                    && document == old(document)
      ensures !addChildValues ==>
                document == old(document)
                          + match Find(elems, Index(index))
                            case Some(v) => StyledText(style, lib, indentString, old(Last()), v)
                            case None => "null"
      decreases elems, 1
    {
      hide StyledText, SimpleText, IsSimple;
      FoundIsWellFormed(elems, true, Index(index));
      FoundIsSized(elems, MAX_INT / 3, Index(index));
      match Find(elems, Index(index))
      case Some(v) =>
        WriteValue(v);
      case None =>
        NullIsSimple(lib);
        PushValue("null");
    }

    method WriteJoined(size: nat)
      requires |childValues| == size > 0
      modifies this`document
      ensures document == old(document) + JoinTexts(childValues)
    {
      var index := 0;
      while index < size
        invariant 0 <= index <= size
        invariant old(document) + JoinTexts(childValues)
               == document + (if 0 < index < size then ", " else "") + JoinTexts(childValues[index..])
      {
        if index > 0 {
          document := document + ", ";
        }
        document := document + childValues[index];
        index := index + 1;
      }
    }

    method WriteElements(elems: Entries)
      requires WellFormedAll(elems, true) && SizedAllBelow(elems, MAX_INT / 3) && 0 < ArraySize(elems)
      requires childValues == if IsMeasured(elems) then ElementTexts(lib, elems, 0, ArraySize(elems)) else []
      requires !addChildValues
      modifies this
      ensures indentString == old(indentString) && !addChildValues
      ensures document == old(document)
              + StyledElements(style, lib, indentString, old(Last()), elems, 0, ArraySize(elems))
      decreases elems, 3
    {
      hide WellFormedAll, SizedAllBelow, ElementTexts, IsMeasured, StyledElement, ArraySize;
      var size := ArraySize(elems);
      ElementTextsLength(lib, elems, 0, size);
      var hasChildValue := childValues != [];
      var index := 0;
      ghost var whole := document + StyledElements(style, lib, indentString, Last(), elems, 0, size);
      while true
        invariant 0 <= index < size && !addChildValues && indentString == old(indentString)
        invariant hasChildValue <==> IsMeasured(elems)
        invariant hasChildValue ==> childValues == ElementTexts(lib, elems, 0, size)
        invariant whole == document + StyledElements(style, lib, indentString, Last(), elems, index, size)
        decreases size - index
      {
        WriteElement(elems, index, hasChildValue);
        index := index + 1;
        if index == size {
          break;
        }
        document := document + ",";
      }
    }

    method WriteElement(elems: Entries, index: nat, hasChildValue: bool)
      requires WellFormedAll(elems, true) && SizedAllBelow(elems, MAX_INT / 3) && index < ArraySize(elems)
      requires hasChildValue ==> IsMeasured(elems) && childValues == ElementTexts(lib, elems, 0, ArraySize(elems))
      requires !addChildValues
      modifies this
      ensures indentString == old(indentString) && !addChildValues
      ensures hasChildValue ==> childValues == old(childValues)
      ensures document == old(document) + StyledElement(style, lib, indentString, old(Last()), elems, index)
      decreases elems, 2
    {
      hide WellFormedAll, SizedAllBelow, ElementTexts, AllSimple, StyledText, SimpleText, IsSimple, IndentText;
      hide ArraySize;
      if hasChildValue {
        ElementTextsLength(lib, elems, 0, ArraySize(elems));
        ElementTextsAt(lib, elems, 0, ArraySize(elems), index);
        SimpleElementText(style, lib, indentString, Last(), elems, index);
        WriteWithIndent(childValues[index]);
      } else {
        WriteIndent();
        WriteElementValue(elems, index);
      }
    }
  }

  lemma {:induction false} ElementTextsLength(lib: CLibrary, es: Entries, index: nat, size: nat)
    requires index <= size
    ensures |ElementTexts(lib, es, index, size)| == size - index
    decreases size - index
  {
    if index < size {
      ElementTextsLength(lib, es, index + 1, size);
    }
  }

  lemma {:induction false} ElementTextsAt(lib: CLibrary, es: Entries, index: nat, size: nat, at: nat)
    requires index <= at < size && AllSimple(es, index, size)
    ensures IsSimple(Element(es, at).data)
    ensures |ElementTexts(lib, es, index, size)| == size - index
    ensures ElementTexts(lib, es, index, size)[at - index] == SimpleText(lib, Element(es, at).data)
    decreases size - index
  {
    ElementTextsLength(lib, es, index, size);
    hide IsSimple, SimpleText, Element;
    if index < at {
      ElementTextsAt(lib, es, index + 1, size, at);
    }
  }

  lemma {:induction false} TotalLengthSnoc(texts: seq<string>, text: string)
    ensures TotalLength(texts + [text]) == TotalLength(texts) + |text|
  {
    if texts == [] {
      assert [] + [text] == [text];
      assert TotalLength([text][1..]) == 0;
    } else {
      assert (texts + [text])[1..] == texts[1..] + [text];
      TotalLengthSnoc(texts[1..], text);
    }
  }

  lemma SingleLineIsMeasured(lib: CLibrary, es: Entries)
    requires !IsMultiline(lib, es)
    ensures IsMeasured(es)
  {
    hide IsMeasured, ElementTexts;
  }

  lemma LastAppended(head: string, body: string)
    requires head != ""
    ensures LastOf(head + body, None) == LastOf(body, Some(head[|head| - 1]))
  {
  }

  lemma NullIsSimple(lib: CLibrary)
    ensures IsSimple(Null) && SimpleText(lib, Null) == "null"
  {
  }

  /** A simple element prints its one text on its line. */
  lemma SimpleElementText(st: Style, lib: CLibrary, indent: string, last: Option<char>, es: Entries, index: nat)
    requires IsSimple(Element(es, index).data)
    ensures StyledElement(st, lib, indent, last, es, index)
         == IndentText(st, indent, last) + SimpleText(lib, Element(es, index).data)
  {
    hide IndentText, IsMultiline, StyledElements, StyledMembers;
    NullIsSimple(lib);
  }

  lemma NamesFollowEntries(es: Entries)
    requires es.Cons?
    ensures 0 < |NamesOf(es)|
  {
  }

  lemma ScalarIsSimple(st: Style, lib: CLibrary, indent: string, last: Option<char>, v: Value)
    requires !IsContainer(v)
    ensures IsSimple(v.data) && SimpleText(lib, v.data) == ScalarText(lib, v.data)
    ensures StyledText(st, lib, indent, last, v) == ScalarText(lib, v.data)
  {
  }

  lemma ObjectText(st: Style, lib: CLibrary, indent: string, last: Option<char>, v: Value)
    requires v.data.Obj?
    ensures IsSimple(v.data) <==> v.data.members.Nil?
    ensures v.data.members.Nil? ==> SimpleText(lib, v.data) == "{}" && StyledText(st, lib, indent, last, v) == "{}"
  {
  }
}
