# A verified model of the scan client's core

The repository is a client library for scanning devices in a network. Devices announce
themselves with JSON messages; the client parses them, keeps a table of the devices that are
present, and tells the application about changes. This project models five of its parts in
Dafny and proves what they promise.

* **JSON text engine** (`Json*.dfy`): the tree of values, the reader with its error recovery,
  the two styles of writers, the order on values, and the operations that change a value in
  place. The reader and the writers are classes whose methods are proved equal to functions;
  the theorems about parsing, printing, slices and layout are about these functions. The accepted
  documents, the errors of the others, the printed texts and the order are characterised in both
  directions.
* **Event loop** (`EventLoop*.dfy`): the change list that other threads fill and the loop
  applies, and the edge triggered dispatch, once as a class and once as a machine whose steps
  interleave; what the class does is a run of the machine.
* **Device monitor** (`Split.dfy`, `Device*.dfy`): the table of announcements with expiry, seen
  over whole runs, and the view of a client that only hears the callbacks.
* **Byte stream** (`ByteStream.dfy`): receiving and sending complete blocks over a socket that
  hands out and takes bytes in pieces of any size.
* **Batch allocator** (`BatchAllocator.dfy`): pages of blocks and a list of released blocks that
  is threaded through the blocks themselves.

`dafny verify dfyconfig.toml` checks everything.

## How things are modelled

* A Dafny `char` is one byte of text. Beyond the end of a document the reader sees a NUL, as
  behind the characters of a `std::string`. Names and string values are cut at their first NUL
  where the source makes a C string of them.
* `std::map` is a list of entries in key order; storing under a present key overwrites.
* Integers are unbounded; the conversions to 32 and 64 bits, the wrap of the negated smallest
  `int64`, the `size_t` view of -1 and the full eventfd counter are written out.
* The conversions between text and `double` belong to the C library and are a parameter. The
  theorems about printing ask of it that each real in the tree prints as `null` or as a number
  that it can read; for trees without reals they ask nothing.
* A throwing call is a result that says so. `operator[]` of the source returns a reference; the
  model has one method for the access and one for the access followed by an assignment.
* The network, the kernel, the handlers and the callbacks of the application are scripts: any
  finite list of what they do. Time is an argument of the calls that read the clock.
* A hash map is walked in an order that the model does not choose.

## Where the code differs from what one might expect

These are kept as they are in the code, each with its exact condition.

* The reader takes more than the grammar of RFC 8259; this and nothing else it takes beyond it
  (`JsonAccepted.AcceptedIff`). Control characters in literals, leading
  zeros and anything behind the value are taken always (`JsonSyntax.GrammarIsRead` covers them).
  A lone `-` reads as 0, the only token without digits (`JsonExtensions.OnlyMinusLacksDigits`,
  `JsonExtensions.MinusIsZero`). In an object a comment after a value hides what follows it from
  the comma check (`JsonExtensions.MissingCommaIff`, `JsonExtensions.CommentHidesMissingComma`),
  and a comma may follow the last member exactly if that has the empty name
  (`JsonExtensions.TrailingCommaIff`, `JsonExtensions.TrailingCommaIsTaken`).
* Comments are taken after a value and before a name even if they are not allowed, and refused
  before a colon and in an empty array even if they are (`JsonSyntax.GrammarIsRead`,
  `JsonExtensions.CommentIsTakenThoughForbidden`, `JsonExtensions.EmptyArrayTakesNoComment`).
* The second half of a surrogate pair is not checked (`JsonTool.PairIsReadIff`,
  `JsonTool.SecondHalfIsNotChecked`). A lone second half is encoded as three bytes that a conforming
  decoder refuses (`JsonTool.Utf8RoundTrip`).
* A dropped null gets the range of the character in front of its separator, which is not its text
  (`JsonSlices.DroppedSliceIff`, `JsonSlices.DroppedSliceFails`).
* A string value whose buffer pointer is 0 prints as nothing, so that a tree with one never comes
  back (`JsonRoundTrip.FastRoundTripIff`).
* `FastWriter` prints nothing of an array of 2^31 or more elements, which a single assignment makes
  (`JsonSparse.CutPrintsSame`, `JsonRoundTrip.FastRoundTripIff`, `JsonRoundTrip.LargeArrayIsLost`).
* Printing with dropped nulls loses a null at the end of an array, an object or the text, and what
  it prints for any other null or gap is refused by the default reader
  (`JsonDropped.DroppedRoundTripIff`).
* With something behind a NaN in a container, `operator<` is not transitive; with nothing behind it,
  it is (`JsonNaN.LateIff`, `JsonOrder.LateTransitive`, `JsonOrder.NaNBreaksTransitivity`). A value
  with any NaN is neither less than, nor greater than, nor equal to some other
  (`JsonNaN.TrichotomyIff`). Sizes that differ by 2^31 modulo 2^32 make two containers less than
  each other, and size differences that add up beyond 32 bits break transitivity
  (`JsonOrder.ContainersTrichotomyIff`,
  `JsonOrder.ContainersTransitiveIff`, `JsonOrder.HugeArraysAreBothLess`,
  `JsonOrder.HugeArraysAreNotTransitive`).
* `resize` fails its assertion in front of a gap, and does nothing useful for an array that holds the
  last possible index (`JsonMutation.ResizedElements`, `JsonMutation.ResizeFailsAtGap`).
* The event loop returns as soon as it meets the stop notification. What follows it in the batch
  is forgotten, so that a later `execute` may wait although data is there or a change is queued
  (`EventLoopRuns.StopKeepsInvIff`, `EventLoopRuns.StopCanLoseReadiness`,
  `EventLoopRuns.StopCanLoseChange`). A descriptor that hung up is not read any more. A hang up or
  error of the change notification itself queues its removal, so that later changes are not seen
  (`EventLoops.HungUpNotificationIsLost`).
* A device with a colon in one of its names expires without the client hearing of it, and a client
  that sets its callback later is not told of it (`DeviceMonitorClient.ExpireNoteIff`,
  `DeviceMonitorClient.AnnounceNoteIff`, `DeviceMonitorClient.ColonDeviceStaysVisible`). A message is
  reported as dropped although the table has it exactly if it is announced and the callback throws
  (`DeviceMonitors.KeptButReportedIff`,
  `DeviceMessages.ThrowingCallbackReportsDrop`).
* `receiveComplete` gives up if a signal interrupts it before the last byte, although sending goes
  on after one (`ByteStream.GivesUpIff`, `ByteStream.SignalDefeatsReceive`).
* `sendBlocks` returns -1 if the first attempt would block, although its comparison of error
  numbers lets it go on: the count -1 is taken as an unsigned number above every sum
  (`ByteStream.SocketNonblocking.SendBlocks`).
* A page of the allocator counts objects, its memory is counted in blocks; if the block size
  does not divide the page size, the page is never found full and blocks behind its memory are
  handed out (`BatchAllocators.BlocksStayInsideIff`, `BatchAllocators.RunOver`,
  `BatchAllocators.RunOverDefaultPage`).

## Model

| member | source | states |
|---|---|---|
| `JsonReader.Reader.Parse` | jsoncpp/src/lib_json/json_reader.cpp:108-147 | whatever the reader and the root held before, parsing ends with the outcome of `ParseDocument`: the flag, the tree with all offsets and the recorded errors; the node stack is back to depth one; which documents that accepts, and as which tree, is told by `JsonAccepted.AcceptedIff` |
| `JsonAccepted.AcceptedIff` | jsoncpp/src/lib_json/json_reader.cpp:108-496 | a document is accepted as a tree exactly if it is blanks, a value spelled in literal characters that stands for this tree, and any rest: for every setting, with the values of RFC 8259 and exactly what is taken beyond them, namely comments in their places, any token instead of a comma behind a comment, a closing brace behind the empty name and a separator, number texts that decode, dropped nulls and numeric names |
| `JsonErrors.FirstErrorIff` | jsoncpp/src/lib_json/json_reader.cpp:108-496 | the first error of a document is of a kind exactly if the document is a beginning that the reader takes, spelled in literal characters and cut off where a value, a name, a colon or a separator has to come, and the token there is wrong for the reason of this kind; the error about the root is added exactly if the settings ask for a container and the root is none |
| `JsonErrors.CutIsReported` | jsoncpp/src/lib_json/json_reader.cpp:723-730 | the first error is recorded at the token that must not stand there, or at the end of the text |
| `JsonReader.Reader.ReadValue` | jsoncpp/src/lib_json/json_reader.cpp:149-220 | the value, position, errors and slot on top of the stack are those of the specification, for every token, setting and failure; recursion ends because positions grow, also across the un-read of a separator |
| `JsonReader.Reader.ReadObject` | jsoncpp/src/lib_json/json_reader.cpp:406-459 | members are stored in the object on the stack under their NUL-cut names, with the quirks of the loop: a name is mandatory after a comma unless the previous name was empty, and a comment after a value hides what follows from the comma check |
| `JsonReader.Reader.ReadArray` | jsoncpp/src/lib_json/json_reader.cpp:461-496 | elements get ascending indices; an immediate `]` makes the empty array; a failing element recovers to the end of the array |
| `JsonReader.Reader.ReadToken` | jsoncpp/src/lib_json/json_reader.cpp:239-308 | the token at the current position, by kind, start and end; reading stops at its end |
| `JsonLexemes.ScanIff` | jsoncpp/src/lib_json/json_reader.cpp:239-308 | a text is read for a token of some kind exactly if it is spelled like one: the signs of punctuation, the three words, numbers up to their last letter, literals up to the first quote that no backslash protects, comments up to their first end, and single characters that begin nothing |
| `JsonReader.Reader.SkipCommentTokens` | jsoncpp/src/lib_json/json_reader.cpp:222-230 | the first token that is not a comment if comments are allowed, else the next token |
| `JsonReader.Reader.RecoverFromError` | jsoncpp/src/lib_json/json_reader.cpp:732-743 | skips to the wanted token or the end and leaves the recorded errors as they were before |
| `JsonReader.Reader.ReadComment` | jsoncpp/src/lib_json/json_reader.cpp:331-383 | both comment forms: what they consume and when they fail |
| `JsonReader.Reader.ReadString` | jsoncpp/src/lib_json/json_reader.cpp:394-404 | stops after the first quote that no backslash protects |
| `JsonReader.Reader.AccumulateDigits` | jsoncpp/src/lib_json/json_reader.cpp:526-546 | the accumulation returns the decimal value exactly if it does not exceed the limit, and never wraps before it notices |
| `JsonReader.Reader.DecodeNumberData` | jsoncpp/src/lib_json/json_reader.cpp:508-554 | one error exactly if nothing could be decoded; otherwise the value of `DecodeNumber` |
| `JsonReader.IntegerIffItFits` | jsoncpp/src/lib_json/json_reader.cpp:508-554 | a token in integer form decodes to an integer exactly if its decimal value fits 64 bits, signed or unsigned, and then to that value, which is a signed one exactly if it is negative or fits 31 bits |
| `JsonReader.IntegerFormDigits` | jsoncpp/src/lib_json/json_reader.cpp:528-533 | the branch that reports a non-digit inside an integer token is never reached |
| `JsonReader.Reader.DecodeStringText` | jsoncpp/src/lib_json/json_reader.cpp:612-663 | the text with all escapes replaced, or one error of the right kind |
| `JsonReader.Reader.DecodeUnicodeCodePoint` | jsoncpp/src/lib_json/json_reader.cpp:665-720 | one escape or a surrogate pair gives the code point and moves behind it; the second half of a pair is not checked to be one |
| `JsonParser.ParseValue` | jsoncpp/src/lib_json/json_reader.cpp:149-220 | the position stays in the document and never goes back before the start; a failed value has recorded exactly one error, however deep it occurred, and a good one none |
| `JsonParser.ParseDocument` | jsoncpp/src/lib_json/json_reader.cpp:108-147 | parse returns true exactly when no error was recorded; without `strictRoot` a failure records exactly one error, with it at most two |
| `JsonParser.ParseMembers` | jsoncpp/src/lib_json/json_reader.cpp:406-459 | termination on every text and every setting; a position not before the start; one error exactly on failure |
| `JsonParser.ParseElements` | jsoncpp/src/lib_json/json_reader.cpp:461-496 | the same for the elements of an array, with a step that may consume nothing when a placeholder is dropped |
| `JsonLexer.Next` | jsoncpp/src/lib_json/json_reader.cpp:239-308 | each token advances or reports the end of the stream, inside the document |
| `JsonGrammar.DocumentMatches` | jsoncpp/src/lib_json/json_reader.cpp:108-220 | acceptance and the tree depend on the token texts alone: they are those of a reference parser over token lists that has no positions, errors or recovery |
| `JsonGrammar.ValueMatches` | jsoncpp/src/lib_json/json_reader.cpp:149-220 | the same for a value at any position, together with the tokens that are left |
| `JsonSyntax.GrammarIsRead` | jsoncpp/src/lib_json/json_reader.cpp:108-496 | every text of the grammar of RFC 8259, with any whitespace, escapes and number spelling and with comments wherever whitespace may be, is accepted exactly if its comments are where the reader takes them and no string or number in it denotes nothing, and then gives the tree that the text denotes, whatever follows the value (behind a number, anything that does not continue it); a strict reader takes containers only |
| `JsonSyntax.JsonReads` | jsoncpp/src/lib_json/json_reader.cpp:149-220 | the same for a value anywhere: comments are taken before a value if they are allowed, after a value and before a name always, before a colon and in an empty array never |
| `JsonSpelling.UnquoteChars` | jsoncpp/src/lib_json/json_reader.cpp:612-663 | a string literal in any spelling is read as the bytes of its characters; it fails exactly at a first half of a surrogate pair without a unit behind it |
| `JsonSpelling.ShortEscapes` | jsoncpp/src/lib_json/json_reader.cpp:625-650 | the short escapes are the eight of section 7 of RFC 8259, with its meanings |
| `JsonLiterals.TextIff` | jsoncpp/src/lib_json/json_reader.cpp:612-663 | reading the inside of a literal gives a text exactly if it is a row of characters of section 7 that has this text |
| `JsonLiterals.MalformedIff` | jsoncpp/src/lib_json/json_reader.cpp:612-720 | it fails exactly if behind such a row stands an escape that is refused, and with the reason of that: a backslash before any other letter, fewer than four digits, a digit that is none, a first half of a surrogate pair without a unit behind it |
| `JsonLiterals.UnitIff` | jsoncpp/src/lib_json/json_reader.cpp:692-720 | four hexadecimal digits in upper or lower case give their number, and nothing else is read |
| `JsonSpelling.MeantIsRead` | jsoncpp/src/lib_json/json_reader.cpp:665-720 | a literal without half surrogate pairs is read as the text that section 7 of RFC 8259 gives it |
| `JsonSpelling.NumberReads` | jsoncpp/src/lib_json/json_reader.cpp:508-579 | a number in any spelling of section 6 of RFC 8259 decodes to the integer it denotes if it has neither fraction nor exponent and fits 64 bits, else to what the C library reads |
| `JsonSyntax.LastNameWins` | jsoncpp/src/lib_json/json_reader.cpp:437-441 | of members with equal names the object keeps the value of the last |
| `JsonSyntax.PortableDenotes` | jsoncpp/src/lib_json/json_reader.cpp:108-496 | a text whose numbers are integers of 64 bits and whose literals hold no half surrogate pair denotes a tree whatever the C library does |
| `JsonExtensions.MissingCommaIff` | jsoncpp/src/lib_json/json_reader.cpp:444-455 | two lists of members with any other token instead of the comma, a literal, a bracket, a colon or no token of the grammar at all, are accepted exactly if a comment stands between the value and that token, which is then skipped |
| `JsonExtensions.CommentHidesMissingComma` | jsoncpp/src/lib_json/json_reader.cpp:444-455 | an object in which a literal is taken for the comma |
| `JsonExtensions.TrailingCommaIff` | jsoncpp/src/lib_json/json_reader.cpp:411-418 | a comma behind the last member is accepted exactly if that member has the empty name |
| `JsonExtensions.TrailingCommaIsTaken` | jsoncpp/src/lib_json/json_reader.cpp:411-418 | an object with such a comma |
| `JsonExtensions.OnlyMinusLacksDigits` | jsoncpp/src/lib_json/json_reader.cpp:508-533 | of the number tokens without fraction and exponent only the lone minus has no digits |
| `JsonExtensions.MinusIsZero` | jsoncpp/src/lib_json/json_reader.cpp:508-533 | an array with a lone minus reads as the array of 0, for every setting |
| `JsonExtensions.CommentIsTakenThoughForbidden` | jsoncpp/src/lib_json/json_reader.cpp:479-483 | a comment behind an element is accepted although comments are not allowed |
| `JsonExtensions.EmptyArrayTakesNoComment` | jsoncpp/src/lib_json/json_reader.cpp:465-471 | a comment in an empty array is refused for every setting |
| `JsonSlices.SliceParsesAlone` | jsoncpp/src/lib_json/json_reader.cpp:149-220 | the text between the offsets of any node at any depth of a parsed document, for every reader setting, parses alone to that same subtree (a scalar is refused only by `strictRoot`), whatever the new root held before; this excludes nulls that were dropped, which have no text |
| `JsonSlices.DocumentIsTiled` | jsoncpp/src/lib_json/json_reader.cpp:406-510 | every node lies strictly inside its parent and apart from its siblings, also when a repeated member name overwrote an earlier value; only a dropped null may begin one character in front of the inside of its parent |
| `JsonSlices.ValueTiles` | jsoncpp/src/lib_json/json_reader.cpp:149-220 | the range of a value starts at its first token, ends where reading stopped, and both ends are token boundaries; a dropped null ends in front of its separator, which is read next |
| `JsonSlices.ValueIsLocal` | jsoncpp/src/lib_json/json_reader.cpp:149-220 | a value that was read and not dropped takes at least one token, and reads the same whatever comes after it |
| `JsonSlices.DroppedIsLocal` | jsoncpp/src/lib_json/json_reader.cpp:197-206 | a dropped null takes nothing but comments, and is dropped whatever stands behind its separator |
| `JsonSlices.DroppedSliceIff` | jsoncpp/src/lib_json/json_reader.cpp:197-206 | the range of a dropped null is the one character in front of its separator; that character parses alone to a null exactly if it is a separator itself |
| `JsonSlices.DroppedSliceFails` | jsoncpp/src/lib_json/json_reader.cpp:197-206 | an array whose first element is a dropped null with the opening bracket for its range, which does not parse alone |
| `JsonCutting.TextsSplit` | jsoncpp/src/lib_json/json_reader.cpp:239-308 | cutting the text between two tokens splits the token sequence there |
| `JsonTool.ValueToQuotedString` | jsoncpp/src/lib_json/json_writer.cpp:111-171 | the unescaped fast path and the escaping loop give the same literal for every C string; a null pointer gives the empty text |
| `JsonTool.UnquoteEscapeAll` | jsoncpp/src/lib_json/json_writer.cpp:111-171 | reading the printed literal of any string gives the string back |
| `JsonTokens.StringScanQuoted` | jsoncpp/src/lib_json/json_reader.cpp:394-404 | after the opening quote of a printed literal, whatever text follows, scanning stops exactly at its closing quote |
| `JsonTokens.TextsQuoted` | jsoncpp/src/lib_json/json_writer.cpp:111-171 | a printed literal followed by any text is one string token and the tokens of that text |
| `JsonTool.UIntToString` | jsoncpp/src/lib_json/json_tool.h:63-69 | digits are written backwards inside a buffer of 25 bytes, closed by a NUL, and denote the number |
| `JsonTool.IntValueToString` | jsoncpp/src/lib_json/json_writer.cpp:39-50 | prints every signed 64-bit number, also the smallest one, whose negation wraps to itself |
| `JsonTool.DigitsDenote` | jsoncpp/src/lib_json/json_tool.h:63-69 | the printed digits have the printed number as decimal value |
| `JsonLiterals.NoZeroInFront` | jsoncpp/src/lib_json/json_tool.h:63-69 | no number but 0 is printed with a zero in front |
| `JsonLiterals.PrintedIs` | jsoncpp/src/lib_json/json_writer.cpp:111-171 | quotes, backslashes and five control characters are printed as their short escape, the other control characters as `\u00` and two upper-case digits, and everything else as itself |
| `JsonRoundTrip.IntegerDecodes` | jsoncpp/src/lib_json/json_writer.cpp:39-58 | printed integers decode to themselves, with the type that the reader picks for their size |
| `JsonTool.UnquoteUnicodeEscape` | jsoncpp/src/lib_json/json_reader.cpp:665-720 | every escape of section 7 of RFC 8259 for a Unicode scalar value, one or two units with digits in any mix of upper and lower case, is read as its UTF-8 bytes |
| `JsonTool.ScalarHasEscape` | jsoncpp/src/lib_json/json_reader.cpp:665-720 | every Unicode scalar value has such an escape |
| `JsonTool.PairIsReadIff` | jsoncpp/src/lib_json/json_reader.cpp:665-690 | a first half and any escape behind it are read as the code point of their pair exactly if the escape is a second half |
| `JsonTool.SecondHalfIsNotChecked` | jsoncpp/src/lib_json/json_reader.cpp:665-690 | two escapes that are no pair and are read as one code point |
| `JsonTool.CodePointInRange` | jsoncpp/src/lib_json/json_reader.cpp:665-720 | every escape or pair that is accepted gives a code point up to 0x10FFFF from characters that are there |
| `JsonTool.Utf8RoundTrip` | jsoncpp/src/lib_json/json_tool.h:18-44 | a decoder as in section 3 of RFC 3629 maps the bytes back to the code point exactly if it is a scalar value; a lone surrogate is encoded but not decodable |
| `JsonTool.Utf8ShapeInverts` | jsoncpp/src/lib_json/json_tool.h:18-44 | the encoding is never empty and its length and code point can be read off before any text |
| `JsonTool.Utf8PrefixFree` | jsoncpp/src/lib_json/json_tool.h:18-44 | no encoding is a prefix of another one, so the encoding is injective |
| `JsonWriter.FastWriter.Write` | jsoncpp/src/lib_json/json_writer.cpp:190-196 | returns the text of the tree for every setting, also when an earlier document was written |
| `JsonWriter.FastWriter.WriteValue` | jsoncpp/src/lib_json/json_writer.cpp:198-244 | appends the text of the value to the document, with gaps of arrays as null |
| `JsonWhitespace.FastDocumentIs` | jsoncpp/src/lib_json/json_writer.cpp:190-244 | character by character: the texts of the tokens with nothing between them, a blank behind each colon if YAML is to understand it, and a line feed at the end unless that is omitted |
| `JsonWriter.MemberNames` | jsoncpp/src/lib_json/json_value.cpp:1100-1125 | the names in the order of the map |
| `JsonWriter.NamesLookup` | jsoncpp/src/lib_json/json_writer.cpp:229-242 | looking up the names one after the other finds the entries in order |
| `JsonStyled.StyledWriter.Write` | jsoncpp/src/lib_json/json_writer.cpp:252-261 | returns the styled text; the same class stands for the stream writer, whose output differs in line breaks only |
| `JsonLines.StyledDocumentIs` | jsoncpp/src/lib_json/json_writer.cpp:252-404 | the styled document is a list of lines, each ended by a line feed: a container has its brackets on lines of their own and its entries between them, one unit further in, with a comma behind all but the last |
| `JsonStyled.StyledWriter.WriteArrayValue` | jsoncpp/src/lib_json/json_writer.cpp:315-356 | one entry per element is in `childValues` whenever it is read, so that the assertion about its size holds, and nothing but simple values is written while children are collected |
| `JsonStyled.StyledWriter.IsMultilineArray` | jsoncpp/src/lib_json/json_writer.cpp:358-381 | decides by size, nesting and line length, and leaves the texts of all elements in `childValues` exactly if it measured them |
| `JsonStyled.StyledWriter.WriteJoined` | jsoncpp/src/lib_json/json_writer.cpp:342-354 | joins the collected texts with separators |
| `JsonStyled.StyledWriter.WriteObjectValue` | jsoncpp/src/lib_json/json_writer.cpp:281-306 | members on lines of their own, indentation restored |
| `JsonRoundTrip.FastRoundTrip` | jsoncpp/src/lib_json/json_writer.cpp:190-244 | parsing what `FastWriter` prints, with either spacing and line feed setting, gives the canonical tree, with every array emptied whose size is beyond `int`, for every reader setting and whatever the root held before; a strict reader takes containers only |
| `JsonRoundTrip.FastRoundTripIff` | jsoncpp/src/lib_json/json_writer.cpp:190-244 | the tree comes back exactly if no string value in it lacks a buffer, which prints as nothing, no array at any depth has 2^31 or more elements, and a strict reader takes it |
| `JsonRoundTrip.LargeArrayIsLost` | jsoncpp/src/lib_json/json_writer.cpp:217-226 | an array with one element, at index 2^31, comes back as the empty array |
| `JsonSparse.CutPrintsSame` | jsoncpp/src/lib_json/json_writer.cpp:217-226 | the size of an array is taken as an `int`, so that an array of 2^31 or more elements prints as the empty one, at any depth and for every setting |
| `JsonRoundTrip.NothingReadsAs` | jsoncpp/src/lib_json/json_reader.cpp:108-147 | no text at all is read as a tree with such a string |
| `JsonLayout.StyledRoundTrip` | jsoncpp/src/lib_json/json_writer.cpp:252-404 | the same as for `FastWriter` for the styled writers |
| `JsonLayout.StyledRoundTripIff` | jsoncpp/src/lib_json/json_writer.cpp:252-404 | exactly then the tree comes back from styled text |
| `JsonDropped.DroppedRoundTripIff` | jsoncpp/src/lib_json/json_writer.cpp:198-244 | with nulls dropped by the writer the tree comes back exactly if it is not null itself, no string in it lacks a buffer, no array has 2^31 or more elements, no container at any depth ends with a null, and, unless the reader allows dropped placeholders, no container holds a null or a gap; for every reader setting |
| `JsonDropped.ReadsSomehow` | jsoncpp/src/lib_json/json_reader.cpp:197-206 | whatever a text with dropped nulls holds, and whether placeholders are allowed or not, a value of it is refused or read with nothing lost behind it; which of the two, and whether it is the canonical tree, is told by the tree |
| `JsonLayout.OneLineIff` | jsoncpp/src/lib_json/json_writer.cpp:358-381 | an array is printed on one line exactly if its elements are simple, at most 24, and the line itself is shorter than the right margin |
| `JsonWhitespace.LayoutKeepsTokens` | jsoncpp/src/lib_json/json_writer.cpp:263-404 | the styled writers and `FastWriter` print the same tokens exactly if no array has 2^31 or more elements, of which `FastWriter` prints nothing |
| `JsonWhitespace.DeletingGivesFastText` | jsoncpp/src/lib_json/json_writer.cpp:486-627 | exactly then deleting the whitespace outside string literals from styled output gives the text of `FastWriter` |
| `JsonWhitespace.DeletingIsSqueezing` | jsoncpp/src/lib_json/json_writer.cpp:263-404 | deleting that whitespace from a text of well-formed tokens leaves the token texts and nothing else |
| `JsonTokens.FastDocumentTexts` | jsoncpp/src/lib_json/json_writer.cpp:190-244 | the printed document consists of exactly the tokens of the tree, without those of the arrays that are cut |
| `JsonOrder.Trichotomy` | jsoncpp/src/lib_json/json_value.cpp:508-591 | on trees without NaN and without containers of 2^31 or more entries exactly one of less, greater and equal holds; which order it is, is told by the four lemmas of `JsonComparison` |
| `JsonComparison.EarlierTypeIsLess` | jsoncpp/src/lib_json/json_value.cpp:508-511 | every value of a type is less than every value of a later type: null, signed, unsigned, real, string, boolean, array, object |
| `JsonComparison.NextIsGreater` | jsoncpp/src/lib_json/json_value.cpp:512-528 | the next number is greater, true is greater than false, and every text greater than a missing buffer |
| `JsonComparison.StringsCompare` | jsoncpp/src/lib_json/json_value.cpp:524-528 | one string is less than another exactly if at the first place where they differ it has ended or has the smaller byte |
| `JsonComparison.ContainersCompareIff` | jsoncpp/src/lib_json/json_value.cpp:529-536 | a container is less than another of its type exactly if it has fewer entries, or as many and at the first entry where they differ the smaller key, or the same key and the smaller value |
| `JsonNaN.TrichotomyIff` | jsoncpp/src/lib_json/json_value.cpp:508-591 | a value of such sizes is less than, greater than or equal to every value without NaN, one of the three only, exactly if it holds no NaN itself |
| `JsonOrder.Transitive` | jsoncpp/src/lib_json/json_value.cpp:508-545 | on trees without NaN less is transitive through type rank, size first and lexicographic comparison of containers |
| `JsonOrder.LateTransitive` | jsoncpp/src/lib_json/json_value.cpp:508-545 | less is transitive on all values in which nothing comes after a NaN: every entry of a container but the last is free of NaN, and the last is such a value again |
| `JsonNaN.LateIff` | jsoncpp/src/lib_json/json_value.cpp:508-545 | for every other value, and for no such value, there are two values without NaN together with which less is not transitive |
| `JsonOrder.CompareAgrees` | jsoncpp/src/lib_json/json_value.cpp:500-506 | `compare` is negative exactly if the left side is less and positive exactly if the right side is, with or without NaN, and without is 0 exactly on equal values |
| `JsonOrder.SameIsErasedEquality` | jsoncpp/src/lib_json/json_value.cpp:553-591 | equality is equality of the trees, offsets apart |
| `JsonOrder.SameReflexive` | jsoncpp/src/lib_json/json_value.cpp:553-591 | a value equals itself exactly if it holds no NaN |
| `JsonOrder.SameSubstitutes` | jsoncpp/src/lib_json/json_value.cpp:508-591 | equal values compare alike with every third one, for all values of any size |
| `JsonOrder.NaNBreaksTransitivity` | jsoncpp/src/lib_json/json_value.cpp:519-520 | an instance: three arrays with a NaN in front of the last element of one of them |
| `JsonOrder.Asymmetric` | jsoncpp/src/lib_json/json_value.cpp:508-545 | no two values are less than each other, with or without NaN |
| `JsonOrder.ContainersTrichotomyIff` | jsoncpp/src/lib_json/json_value.cpp:530-545 | the size difference is cut to 32 bits: two containers of one type, of any size, are each less than the other exactly if their sizes differ by 2^31 modulo 2^32, and otherwise exactly one of less, greater and equal holds |
| `JsonOrder.ContainersTransitiveIff` | jsoncpp/src/lib_json/json_value.cpp:530-545 | for three containers of one type, each less than the next, the first is less than the last exactly if the cut differences together do not fall below -2^31, or fall to -2^32 with the entries in order |
| `JsonOrder.HugeArraysAreBothLess` | jsoncpp/src/lib_json/json_value.cpp:530-532 | an array of 2^31 elements and the empty one are each less than the other |
| `JsonOrder.HugeArraysAreNotTransitive` | jsoncpp/src/lib_json/json_value.cpp:530-532 | three arrays, each less than the next, of which the first is not less than the last |
| `JsonValue.FindPut` | jsoncpp/src/lib_json/json_value.cpp:913-989 | a lookup sees the last value stored under a key and is not affected by other keys |
| `JsonValue.PutKeepsSorted` | jsoncpp/src/lib_json/json_value.cpp:196-206 | storing keeps the map in the order of its keys |
| `JsonMutation.Node.At` | jsoncpp/src/lib_json/json_value.cpp:913-931 | a missing element is inserted as null, a null value becomes a fresh array, any other value is refused unchanged |
| `JsonMutation.Node.SetAt` | jsoncpp/src/lib_json/json_value.cpp:913-931 | assigning through the returned reference stores exactly that element |
| `JsonMutation.Node.Add` | jsoncpp/src/lib_json/json_value.cpp:1038 | the element is appended behind the highest index; behind the last possible index the size wraps and element 0 is overwritten |
| `JsonMutation.Node.ResolveReference` | jsoncpp/src/lib_json/json_value.cpp:969-989 | a missing member is inserted as null, a null value becomes a fresh object, any other value is refused unchanged |
| `JsonMutation.Node.RemoveMember` | jsoncpp/src/lib_json/json_value.cpp:1049-1072 | returns the removed member, or null, and removes nothing else; the offsets of the object stay |
| `JsonMutation.Node.Clear` | jsoncpp/src/lib_json/json_value.cpp:866-889 | no element and no member is left, and the offsets are reset |
| `JsonMutation.Node.Resize` | jsoncpp/src/lib_json/json_value.cpp:891-911 | the array becomes the resized one, whatever indices it holds; tells whether the assertion about the size, which is made after erasing, holds |
| `JsonMutation.ResizedElements` | jsoncpp/src/lib_json/json_value.cpp:891-911 | a resized array keeps what is before its new end; what is behind goes, unless the array holds the last possible index, whose size wraps to 0; it has the wanted size exactly if it became empty, or does not hold that index and grew or held the last index it keeps, so that the assertion fails in front of a gap |
| `JsonMutation.ResizeFailsAtGap` | jsoncpp/src/lib_json/json_value.cpp:891-911 | an array with the index 2 only, which is not resized to two elements |
| `JsonMutation.SizeIsHighest` | jsoncpp/src/lib_json/json_value.cpp:827-855 | the size of an array is one more than the highest index that is present |
| `JsonMutation.FindRemove` | jsoncpp/src/lib_json/json_value.cpp:1049-1072 | after removal a lookup finds everything else and nothing under that key |
| `EventLoops.EventLoop.constructor` | hbm/sys/linux/eventloop.cpp:22-44 | an event loop starts without handlers and without changes |
| `EventLoops.EventLoop.AddEvent` | hbm/sys/linux/eventloop.cpp:92-108 | queues the handler and announces it; an empty handler is ignored; a full counter stays positive |
| `EventLoops.EventLoop.EraseEvent` | hbm/sys/linux/eventloop.cpp:110-123 | queues a removal and announces it |
| `EventLoops.EventLoop.ChangeHandler` | hbm/sys/linux/eventloop.cpp:52-89 | applies the whole list, one change after the other, including what handlers queue while it is walked: each removes a descriptor or adds it and calls its handler until that is drained; epoll watches exactly the handled descriptors |
| `EventLoops.EventLoop.Drain` | hbm/sys/linux/eventloop.cpp:78-83 | a handler is called up to its first value that is not positive |
| `EventLoops.EventLoop.DrainChanges` | hbm/sys/linux/eventloop.cpp:153-157 | handling the announcement until nothing is left to read ends, with an empty list and a counter of 0, and all changes applied |
| `EventLoops.EventLoop.Dispatch` | hbm/sys/linux/eventloop.cpp:140-159 | a hung up descriptor is queued for removal and not read, be it a watched one or that of the change notification; the handler of a readable one is called once at least, until it returns a value that is not positive, and no other is; the announcement applies the changes, the stop notification stops and changes nothing |
| `EventLoops.HungUpNotificationIsLost` | hbm/sys/linux/eventloop.cpp:140-159 | after a hang up or error of the change notification epoll does not watch it any more once the changes are applied |
| `EventLoops.EventLoop.DispatchAll` | hbm/sys/linux/eventloop.cpp:140-159 | the events of one wait are handled in order, up to the stop notification |
| `EventLoops.EventLoop.Execute` | hbm/sys/linux/eventloop.cpp:125-161 | the value with which the loop is left is determined by the first failure, time out or stop notification, whatever the handlers do; exactly the events before that exit were handled, in order |
| `EventLoops.ExitIff` | hbm/sys/linux/eventloop.cpp:130-152 | the loop is left at the first wait that fails, times out or reports the stop notification, with -1 after a failure and 0 otherwise |
| `EventLoops.HandledUpTo` | hbm/sys/linux/eventloop.cpp:140-159 | all events of the waits before that are handled, and of its own those in front of the stop notification |
| `EventLoopRefinement.BatchIsARun` | hbm/sys/linux/eventloop.cpp:52-161 | what the class does with the events of one wait is a run of steps of the machine below, from every state with these events, handlers and changes: it ends with the same handlers and changes and makes the same calls, and neither a change nor readiness is lost on the way |
| `EventLoops.SettleFolds` | hbm/sys/linux/eventloop.cpp:52-89 | changes applied one after the other, with what the handlers queue in between, are one fold of all of them, and the calls are those that drain each added handler in turn |
| `EventLoops.LastWriterWins` | hbm/sys/linux/eventloop.cpp:58-67 | after a list of changes the last change of a descriptor alone decides whether it has a handler and which |
| `EventLoops.DrainStopsFirst` | hbm/sys/linux/eventloop.cpp:78-83 | draining stops at the first value that is not positive and not before |
| `EventLoopRuns.RunsAreConsistent` | hbm/sys/linux/eventloop.cpp:52-161 | in every interleaving of arrivals, requests of other threads and steps of the loop, stops included: while the lock is free a non-empty list has a non-zero counter, the handlers with the queued changes applied are the fold of all requests ever made, and epoll watches the handled descriptors |
| `EventLoopRuns.RunsLoseNothingIff` | hbm/sys/linux/eventloop.cpp:52-161 | in addition a counted change reaches the loop, and data of a watched descriptor is reported, in the batch or being drained, or its descriptor hung up and its change is queued: this holds up to any point of a run exactly if no stop before it drops a change or data that is not reported again |
| `EventLoopRuns.RunsLoseNothing` | hbm/sys/linux/eventloop.cpp:52-161 | the same at one point of a run, from the steps before it |
| `EventLoopRuns.StepKeepsInvIff` | hbm/sys/linux/eventloop.cpp:52-161 | a step keeps all of this exactly if it is not a stop that forgets; the condition is about the batch, the edges and the counter before the step |
| `EventLoopRuns.StepKeepsCount` | hbm/sys/linux/eventloop.cpp:92-123 | no step, stops included, leaves a queued change uncounted while the lock is free |
| `EventLoopRuns.StepKeepsNotice` | hbm/sys/linux/eventloop.cpp:92-123 | no step but a stop keeps a counted change from being noticed |
| `EventLoopRuns.StepKeepsReadiness` | hbm/sys/linux/eventloop.cpp:52-161 | no step but a stop loses the readiness of a watched descriptor |
| `EventLoopRuns.StepKeepsHandlers` | hbm/sys/linux/eventloop.cpp:58-67 | handlers together with the changes still queued are at all times what all requests so far ask for |
| `EventLoopRuns.StepKeepsConsistency` | hbm/sys/linux/eventloop.cpp:52-161 | every step, stops included, keeps what holds in every run |
| `EventLoopRuns.AppliedWhenQuiet` | hbm/sys/linux/eventloop.cpp:52-89 | in every run, with an empty list the handlers and the watched descriptors are what all requests so far ask for |
| `EventLoopRuns.WaitingLoopWakesUp` | hbm/sys/linux/eventloop.cpp:130-138 | a loop that waits while a change is queued or data is there, and nothing was forgotten, has something to be woken by |
| `EventLoopRuns.StopKeepsChangesIff` | hbm/sys/linux/eventloop.cpp:149-152 | leaving the loop at the stop notification, a counted change is still noticed exactly if it is reported once more |
| `EventLoopRuns.StopKeepsReadinessIff` | hbm/sys/linux/eventloop.cpp:149-152 | there readiness survives exactly if every ready descriptor whose event is dropped is reported once more, or hung up with its change queued |
| `EventLoopRuns.StopKeepsInvIff` | hbm/sys/linux/eventloop.cpp:149-152 | there nothing at all is lost exactly if both conditions hold |
| `EventLoopRuns.StopCanLoseReadiness` | hbm/sys/linux/eventloop.cpp:149-152 | a run after which data is at a watched descriptor and nothing will report it |
| `EventLoopRuns.StopCanLoseChange` | hbm/sys/linux/eventloop.cpp:149-152 | a run after which a change is queued and counted and nothing will report it |
| `Split.Split` | hbm/string/split.cpp:12-33 | the pieces between the separators; joining them gives the text back |
| `Split.SplitInvertsJoin` | hbm/string/split.cpp:12-33 | splitting gives back joined tokens exactly if no token holds the separator |
| `Split.FindIsFirst` | hbm/string/split.cpp:27 | the search finds the first occurrence, if there is one |
| `DeviceMonitors.PathRoundTrip` | devscanclient/lib/devicemonitor.cpp:26-38 | a key is taken apart into its four names exactly if none holds a colon |
| `DeviceMonitors.KeyOfPath` | devscanclient/lib/devicemonitor.cpp:26-38 | whatever is taken apart gives the key back |
| `DeviceMonitors.DeviceMonitor.ProcessReceivedAnnouncement` | devscanclient/lib/devicemonitor.cpp:87-157 | the entry, the callbacks and the errors for every message, also when a callback of the client throws after the table was changed; `DeviceVerdicts` says which |
| `DeviceVerdicts.AcceptedIff` | devscanclient/lib/devicemonitor.cpp:91-124 | a message is accepted as an announcement exactly if it parses, its method reads as "announce", the sending interface and the device read as names that are not empty, the router as its name, and the expiration as a number that is not 0, each in its place |
| `DeviceVerdicts.DroppedIff` | devscanclient/lib/devicemonitor.cpp:91-124 | every other message is dropped with the code of the first condition that it fails, from 0x80000001 to 0x80000006 |
| `DeviceVerdicts.AcceptedInFull` | devscanclient/lib/devicemonitor.cpp:108-157 | an accepted message is kept under its four names until its expiration in seconds; it is announced exactly if a callback is set and the table has no such message under these names, and an exception of that callback is reported with its code |
| `DeviceVerdicts.DroppedInFull` | devscanclient/lib/devicemonitor.cpp:91-124 | a dropped message changes nothing and is reported with its code and reason |
| `DeviceMonitors.KeptButReportedIff` | devscanclient/lib/devicemonitor.cpp:116-157 | an accepted message is in the table; it is reported as dropped exactly if the client is told of it and its callback throws |
| `DeviceMonitors.DeviceMonitor.SetAnnounceCb` | devscanclient/lib/devicemonitor.cpp:48-61 | a new client is told once of every device in the table whose key can be taken apart, in whatever order the table is walked |
| `DeviceMonitors.DeviceMonitor.CheckForExpiredAnnouncements` | devscanclient/lib/devicemonitor.cpp:168-188 | removes exactly the entries that were due before now and tells the client of each whose key can be taken apart |
| `DeviceMonitors.DeviceMonitor.CheckForExpiredTimerCb` | devscanclient/lib/devicemonitor.cpp:159-166 | a timer that did not fire changes nothing |
| `DeviceMonitorRuns.TableIsHistory` | devscanclient/lib/devicemonitor.cpp:116-188 | at any time of any run the table is determined by the messages and sweeps so far |
| `DeviceMonitorRuns.EntryIsLastAnnounced` | devscanclient/lib/devicemonitor.cpp:119-149 | every entry has the message of the last accepted announcement of its key and expires at its arrival plus its expiration |
| `DeviceMonitorRuns.AnnouncingDeviceStays` | devscanclient/lib/devicemonitor.cpp:168-188 | a device that announces itself again within its interval is in the table at all times |
| `DeviceMonitorRuns.NothingOutlivesExpiry` | devscanclient/lib/devicemonitor.cpp:168-188 | with sweeps at most a period apart no entry outlives its expiry by more than the period |
| `DeviceMonitorClient.ClientKnowsTheTable` | devscanclient/lib/devicemonitor.cpp:48-61 | for names without colon, what the callbacks told since the client set them is the table, at every point of every run |
| `DeviceMonitorClient.ActionKeepsAgreement` | devscanclient/lib/devicemonitor.cpp:87-188 | no message and no sweep lets the view of the client and the table differ |
| `DeviceMonitorClient.AnnouncesExactlyNews` | devscanclient/lib/devicemonitor.cpp:128-149 | an accepted message is announced exactly if the client does not know it yet |
| `DeviceMonitorClient.NoRepetition` | devscanclient/lib/devicemonitor.cpp:128-149 | between two announcements of the same message for a path it expired or announced something else |
| `DeviceMonitorClient.ExpireNoteIff` | devscanclient/lib/devicemonitor.cpp:174-183 | the client hears that a device expired exactly if none of its names holds a colon |
| `DeviceMonitorClient.AnnounceNoteIff` | devscanclient/lib/devicemonitor.cpp:48-61 | a new client is told of a device in the table exactly if none of its names holds a colon |
| `DeviceMonitorClient.ColonDeviceStaysVisible` | devscanclient/lib/devicemonitor.cpp:174-183 | an expired device with a colon in a name leaves the table, but not the view of the client |
| `DeviceMessages.FastMessageIsUnderstood` | devscanclient/lib/devicemonitor.cpp:91-124 | the monitor understands a message that `FastWriter` printed as it would understand the tree itself |
| `DeviceMessages.StyledMessageIsUnderstood` | devscanclient/lib/devicemonitor.cpp:91-124 | the same for the styled writers |
| `DeviceMessages.AnnouncementArrives` | devscanclient/lib/devicemonitor.cpp:91-124 | a complete announcement is accepted with exactly its names and its expiration, whichever writer printed it |
| `DeviceMessages.ThrowingCallbackReportsDrop` | devscanclient/lib/devicemonitor.cpp:141-157 | a complete announcement that is new, told to a callback that throws, is in the table and reported as dropped |
| `ByteStream.BufferedReader.Recv` | hbm/communication/bufferedreader.cpp:31-70 | bytes delivered and bytes unread are together the bytes received; a call delivers the next bytes of the stream, and none only at its end, at an error or signal, or without any at hand |
| `ByteStream.SocketNonblocking.ReceiveComplete` | hbm/communication/linux/socketnonblocking.cpp:186-218 | the block gets the next bytes of the stream; if waiting succeeds, the result depends on what is to come alone: the size if it comes before a signal, else -1 at a signal or an error, else what remained before the end |
| `ByteStream.GivesUpIff` | hbm/communication/linux/socketnonblocking.cpp:186-218 | a block that the stream holds is given up exactly if a signal interrupts `recv` before its last byte |
| `ByteStream.SignalDefeatsReceive` | hbm/communication/linux/socketnonblocking.cpp:186-218 | four bytes that are there and not received because the first `recv` is interrupted |
| `ByteStream.PiecesDoNotMatter` | hbm/communication/bufferedreader.cpp:31-70 | data that arrives in two pieces with a wait between is the same to come |
| `ByteStream.SocketNonblocking.SendBlock` | hbm/communication/linux/socketnonblocking.cpp:272-317 | what is on the wire is a prefix of the block; the size is returned exactly if it is the whole block |
| `ByteStream.SocketNonblocking.SendBlocks` | hbm/communication/linux/socketnonblocking.cpp:221-270 | what is on the wire is a prefix of all blocks; a positive result is their total length and all of it was sent; a first attempt that would block, is interrupted or fails sends nothing and returns -1, and 0 is returned exactly if it took nothing |
| `ByteStream.SocketNonblocking.SendRemaining` | hbm/communication/linux/socketnonblocking.cpp:251-267 | the blocks beyond what is written are sent from exactly that byte on; a count above all sums, as -1 becomes, sends nothing |
| `ByteStream.EmptyEntriesAddNothing` | hbm/communication/linux/socketnonblocking.cpp:223 | the six empty entries in front do not change what is written |
| `BatchAllocators.BatchAllocator.constructor` | jsoncpp/src/lib_json/json_batchallocator.h:31-41 | the first page is a full dummy; any positive block size is taken |
| `BatchAllocators.BatchAllocator.Allocate` | jsoncpp/src/lib_json/json_batchallocator.h:54-76 | returns a block that is not in use, in the memory of a page if the block size divides the page size; a released block is reused first, the last one first of all; else it is the next block of the current page, or the first of a new page exactly if the used part of the current one ends at its end |
| `BatchAllocators.BatchAllocator.Release` | jsoncpp/src/lib_json/json_batchallocator.h:81-85 | the block becomes the head of the list, which goes on as before |
| `BatchAllocators.BatchAllocator.Write` | jsoncpp/src/lib_json/json_batchallocator.h:51-54 | whatever the owner of a block in use writes there, the list and all invariants stay |
| `BatchAllocators.BatchAllocator.NextPage` | jsoncpp/src/lib_json/json_batchallocator.h:61-72 | no page behind the current one has room, so that a page is added at the head and is the current one |
| `BatchAllocators.BatchAllocator.LiveBlocksAreApart` | jsoncpp/src/lib_json/json_batchallocator.h:31-108 | blocks in use lie inside the used part of their pages, which is inside their memory if the block size divides the page size, and share no object |
| `BatchAllocators.BatchAllocator.FreeBlocksAreApart` | jsoncpp/src/lib_json/json_batchallocator.h:81-85 | a released block shares no object with a block in use |
| `BatchAllocators.BlocksStayInsideIff` | jsoncpp/src/lib_json/json_batchallocator.h:61-75 | the blocks of a page stay inside its memory exactly if the block size divides the page size: otherwise the page is never found full |
| `BatchAllocators.RunOver` | jsoncpp/src/lib_json/json_batchallocator.h:61-75 | for every block size that does not divide the page size allocations alone lead to a block behind the memory of its page |
| `BatchAllocators.RunOverDefaultPage` | jsoncpp/src/lib_json/json_batchallocator.h:31-75 | the same for the default page of 255 objects and blocks of two |

## Left out

- JsonReader.Reader.Parse: documents of 2 GiB and more are not modelled, where 32-bit lengths would wrap.
- JsonReader.Reader.ReadValue: the tree that is left of a refused document, with the ranges that the recovery gives it, is told by the recursive functions of `JsonParser` alone; what is refused, for which reason and at which token is proved.
- JsonReader.Reader.ReadObject: the stack of node pointers holds values; a slot is written back when its value was read, and aliasing of nodes is not captured.
- JsonReader.Reader.ReadToken: comments are skipped, never collected, and its result, which is always true, is dropped.
- JsonReader.Reader.DecodeNumberData: reading a `double` is a parameter, so nothing is said about its value or about formatted reals.
- JsonStyled.StyledWriter.Write: array sizes whose triple exceeds `int` and line lengths that exceed it are excluded, as C++ does not define what the overflow of `size * 3` gives and reserving a negative number of texts throws; what the theorems of `JsonLayout` and `JsonWhitespace` say of such an array is about the styled text as defined, without overflow.
- JsonStyled.StyledWriter.WriteArrayValue: comments of values are not printed; trees are free of comments.
- JsonLayout.StyledRoundTrip: asks that the indentation of the stream writer is whitespace; with any other text the output is whatever that text makes of it.
- JsonOrder.Trichotomy: asks that no container at any depth has 2^31 or more entries, and so do `LateTransitive`, `Asymmetric`, `CompareAgrees` and the theorems of `JsonNaN`; for the containers that are compared themselves `ContainersTrichotomyIff` and `ContainersTransitiveIff` do not.
- JsonMutation.Node.At: the returned reference is not an object of its own, so that writing to it later, after other changes, is not captured.
- EventLoops.EventLoop.Execute: `execute_for` runs the same dispatch with a deadline and is not modelled; a batch entry is identified by its descriptor, and nothing is claimed about an entry whose handler was erased meanwhile.
- EventLoops.EventLoop.ChangeHandler: the mutex is not part of the class; locking and the interleaving with other threads are in the machine of `EventLoopRuns`.
- EventLoopRefinement.BatchIsARun: a handler is taken to read all that is left in its last call, hang ups of the two notifications are not steps of the machine, and the waits are joined by steps of the environment.
- EventLoopRuns.RunsLoseNothing: excludes, before the point it speaks of, exactly the stops that forget something (`RunsLoseNothingIff`); a handler returns a value that is not positive only when its descriptor has nothing left, and arrivals are steps of their own; a descriptor number that hung up is not used again, and the change notification neither hangs up nor fails; fairness is not modelled.
- DeviceMonitors.DeviceMonitor.SetAnnounceCb: callbacks that call the monitor again are not modelled, as the monitor is not reentrant; two callbacks are not told apart, only whether one is set.
- ByteStream.SocketNonblocking.ReceiveComplete: after -1 the bytes that were taken already are in the block, but their number is known to the proof only, as in the source.
- ByteStream.SocketNonblocking.SendBlock: the flag that announces more data has no effect on the order of bytes and is left out.
- BatchAllocators.BatchAllocator.constructor: addresses are a page and an index without bound, so that a block behind the memory of its page is named but what it overwrites is not; the 32-bit size of the allocated memory and running out of memory are not modelled, nor is the destructor.
- Error messages, line and column numbers of errors, and structured errors: the model keeps the kind of each error and its token.
- `Value` conversions other than those the monitor uses, iterators, comments, `swap`, and the `JSON_VALUE_USE_INTERNAL_MAP` variant.
- `Path`, marked experimental in the source.
- Ownership of strings and reference counts.
- `Notifier`, `Timer`, `MulticastServer`, `TcpServer`, `Netlink`, `NetadapterList`, `ConfigureClient`, pid files, command line tools and everything for Windows: plumbing around system calls.
- `hbm::string::replace` and the trim functions.
