# Verified models of spn-core's parsers, printers, codecs and state machines

spn-core carries the machinery a node is built on: a JSON reader with two writers, the Catch section tracker
that runs its tests, a `getopt_long`, a CRC, a base-N codec, a small HTTP server and the code that applies a
bucket to the ledger piece by piece. This project models that machinery in Dafny and proves what it is for.
`dafny verify dfyconfig.toml` covers the whole project.

How the models are built:

- Code that updates state is a class or a method with a loop, and its contract ties the new state to a function
  of the old one. The theorems are then proved about those functions. Code made of expressions is functions.
- Characters and bytes: a text is a `string` whose characters stand for bytes, `'\0'` being the zero byte;
  CRC and base-N work on `bv8` and `bv16`.
- Pointers into a tree are ways from its root (the section tracker) or a stack of the values themselves (the
  JSON reader). A `std::map` is the sequence of its entries in key order.
- What the code calls but does not contain is a parameter: `sscanf` and `snprintf` for real numbers, the
  request handler, the order in which a socket's operations complete, and the places where a test throws.

| file | what it models |
|---|---|
| `JsonValue.dfy`, `JsonOrder.dfy`, `JsonNumber.dfy`, `JsonString.dfy`, `JsonEscape.dfy` | values and their maps; their order and what it means; numbers; strings; what their escapes mean |
| `JsonToken.dfy`, `JsonParser.dfy`, `JsonReader.dfy` | tokens and the parser as functions of the text; the `Reader` class |
| `JsonLexeme.dfy`, `JsonGrammar.dfy` | the language that the reader accepts, as a grammar, and what its sentences mean |
| `JsonText.dfy`, `JsonFastWriter.dfy`, `JsonStyledText.dfy`, `JsonStyledWriter.dfy` | tokens of a value; the fast writer; the document of the styled writer as a function of the value, and the writer |
| `JsonRoundTrip.dfy`, `JsonSizes.dfy`, `JsonCanonical.dfy`, `JsonWriteThenRead.dfy` | reading undoes writing; which sizes the writers can count; what was read is written and read back unchanged; writers and reader one after the other |
| `SectionTracker.dfy`, `SectionFaults.dfy`, `SectionRunner.dfy` | a test run as a function of the sections; what exceptions cost; the tracker and run context objects |
| `PermuteArgs.dfy`, `Getopt.dfy`, `GetoptPartition.dfy`, `GetoptItems.dfy` | the in-place block exchange; the scanner over several calls; the partition it computes, described without it; command lines and what they mean |
| `Crc16.dfy`, `BaseN.dfy` | table-driven CRC against polynomial division; 4, 5 and 6-bit regrouping |
| `RequestParser.dfy`, `HttpReply.dfy`, `HttpConnection.dfy` | the incremental parser; the header printer; the life of a connection |
| `BucketApplicator.dfy` | bucket entries applied in pieces of 255 |
| `Decimal.dfy`, `Wrappers.dfy` | decimal numerals; an option type and bit strings |

## Model

| member | source | states |
|---|---|---|
| `JsonValue.LessIsStrictTotalOrder` | lib/json/jsoncpp.cpp:1899-1990 | `operator<` is irreflexive, transitive and asymmetric on all values; two values it does not order are exactly those that `operator==` calls equal, and exactly for those `compare` gives 0 |
| `JsonOrder.TypesAreOrdered` | lib/json/jsoncpp.cpp:1907-1911 | values of different types are ordered by type: null, signed, unsigned and real numbers, strings, booleans, arrays, objects |
| `JsonOrder.ScalarsAreOrdered` | lib/json/jsoncpp.cpp:1912-1932 | numbers by their value, false before true, a null string before any other, strings by the first byte that differs, a proper prefix first |
| `JsonOrder.MapsAreOrdered` | lib/json/jsoncpp.cpp:1933-1939 | the smaller map first; of two of the same size the first entry where they differ decides, by its key and then by its value |
| `JsonOrder.KeysAreOrdered` | lib/json/jsoncpp.cpp:1669-1673 | indices by number, names as C strings |
| `JsonOrder.CompareMeans` | lib/json/jsoncpp.cpp:1899-1905 | `compare` is negative, positive or zero exactly when the first value is less, greater or equal |
| `JsonValue.LessTrichotomy` | lib/json/jsoncpp.cpp:1907-1944 | of any two values exactly one is less, or they are the same value, through size-first and then lexicographic map comparison |
| `JsonValue.LessTransitive` | lib/json/jsoncpp.cpp:1907-1944 | transitivity through nested arrays and objects |
| `JsonValue.SameIsEqual` | lib/json/jsoncpp.cpp:1952-1990 | `operator==` holds exactly of equal trees |
| `JsonValue.StrOrder` | lib/json/jsoncpp.cpp:1669-1679 | `strcmp` orders names totally |
| `JsonValue.StoreKeepsOrder` | lib/json/jsoncpp.cpp:2312-2330 | assignment through `operator[]` keeps the entries in key order |
| `JsonValue.FindsEntry` | lib/json/jsoncpp.cpp:2339-2355 | the lower bound finds the entry of a key that is present |
| `JsonValue.LookupStore` | lib/json/jsoncpp.cpp:2379-2399 | what is stored under a key is found there, nothing else changes, and no other key appears |
| `JsonNumber.UIntToString` | lib/json/jsoncpp.cpp:145-151 | the loop from the end of the buffer leaves the decimal numeral and a zero, uses at most 21 characters and touches nothing else |
| `JsonNumber.IntToString` | lib/json/jsoncpp.cpp:3003-3014 | every 64-bit integer is printed as its decimal numeral, the least one included, within the 25-byte buffer |
| `JsonNumber.UIntToText` | lib/json/jsoncpp.cpp:3016-3022 | the same for unsigned integers |
| `Decimal.NumeralDenotes` | lib/json/jsoncpp.cpp:145-151 | a numeral denotes the number it was made from |
| `Decimal.DigitCharIs` | lib/json/jsoncpp.cpp:145-151 | the ten digits in their order |
| `Decimal.DenotedConcat` | lib/json/jsoncpp.cpp:708-726 | by place value: digits in front of others count that many powers of ten more |
| `Decimal.NumeralLength` | lib/json/jsoncpp.cpp:131-135 | a number below a power of ten has at most that many digits, which is why the buffer is large enough |
| `JsonNumber.TooLarge` | lib/json/jsoncpp.cpp:714-724 | the check before a digit is added gives up only when the whole number exceeds the limit |
| `JsonNumber.Accumulate` | lib/json/jsoncpp.cpp:708-726 | the digits' value is never above `maxIntegerValue` on the way; the loop is left for a double exactly when the number is; otherwise the value is exact |
| `JsonNumber.DecodeNumber` | lib/json/jsoncpp.cpp:689-735 | an optional minus and digits become an integer exactly when the number is in [-2^63, 2^64-1], with that value and in the narrowest type; everything else goes to `sscanf` |
| `JsonNumber.PrintedIntegerIsRead` | lib/json/jsoncpp.cpp:689-735 | reading undoes printing for every integer of either 64-bit type |
| `JsonString.ValueToQuotedString` | lib/json/jsoncpp.cpp:3075-3135 | both the copying path and the escaping path give the text between quotes with every special and control character escaped |
| `JsonEscape.PrintedIsClean` | lib/json/jsoncpp.cpp:3120-3130 | what is printed of a zero-free text holds no control character, as section 7 of RFC 8259 demands |
| `JsonEscape.HexCharIs` | lib/json/jsoncpp.cpp:3122-3126 | hexadecimal digits are printed in upper case |
| `JsonString.UnescapeIsInverse` | lib/json/jsoncpp.cpp:793-844 | decoding the escaped form of a zero-free text gives that text |
| `JsonString.Utf8IsRead` | lib/json/jsoncpp.cpp:100-126 | every code point up to 0x10FFFF is written in the form that section 3 of RFC 3629 reads back, shortest form, whatever follows |
| `JsonEscape.CodePointEscapeIsRead` | lib/json/jsoncpp.cpp:846-901 | an escape for a code point of the basic plane, or a surrogate pair for one beyond, is decoded to its UTF-8 form, with digits in any mixture of cases |
| `JsonEscape.HexValueMeans` | lib/json/jsoncpp.cpp:884-895 | the digits of both cases have their values, and no other character has one |
| `JsonEscape.Hex4Means` | lib/json/jsoncpp.cpp:875-901 | four characters are read as a number exactly when they are its digits, in any mixture of cases |
| `JsonEscape.DecodesExactlyPieces` | lib/json/jsoncpp.cpp:793-873 | a text is decoded to another exactly when it consists of plain characters, the eight short escapes, escapes by number and pairs of them that mean it, up to a quote or the end |
| `JsonString.HexTextIsRead` | lib/json/jsoncpp.cpp:875-901 | four hexadecimal digits are read as the number they were printed from |
| `JsonToken.ReadToken` | lib/json/jsoncpp.cpp:422-491 | every token but the end of the text consumes at least one character; a number token is made of number characters and a string token stands between two quotes |
| `JsonToken.ReadPastComments` | lib/json/jsoncpp.cpp:405-413 | skipping comments ends, and delivers a token that is none |
| `JsonToken.Recover` | lib/json/jsoncpp.cpp:913-924 | recovery from an error ends on every text, with no more left than before |
| `JsonToken.RecoverMeans` | lib/json/jsoncpp.cpp:913-924 | of all tokens up to the end, recovery stops behind the first of the wanted type, or else at the end |
| `JsonParser.ReadValue` | lib/json/jsoncpp.cpp:332-403 | reading a value ends on every text with no more left than before, succeeds exactly when it adds no error, and adds at most one |
| `JsonParser.ReadMembers` | lib/json/jsoncpp.cpp:587-640 | the same for the members of an object, with recovery to the closing brace |
| `JsonParser.ReadElements` | lib/json/jsoncpp.cpp:642-677 | the same for the elements of an array |
| `JsonParser.Parse` | lib/json/jsoncpp.cpp:291-330 | parsing succeeds exactly when it reports no error, for every text and both settings of comments and strict root; there is at most one error, and one more if the root is strict |
| `JsonReader.Reader.GetNextChar` | lib/json/jsoncpp.cpp:935-939 | the next character, and the zero at the end without moving |
| `JsonReader.Reader.SkipSpaces` | lib/json/jsoncpp.cpp:493-501 | the cursor moves to the first character that is no space |
| `JsonReader.Reader.Match` | lib/json/jsoncpp.cpp:503-512 | the backward comparison reads the pattern if it is there and nothing otherwise |
| `JsonReader.Reader.ReadComment` | lib/json/jsoncpp.cpp:514-535 | both kinds of comments, and the character lost when it is neither |
| `JsonReader.Reader.ReadString` | lib/json/jsoncpp.cpp:575-585 | up to an unescaped quote, or to the end |
| `JsonReader.Reader.ReadNumber` | lib/json/jsoncpp.cpp:566-573 | all number characters |
| `JsonReader.Reader.ReadToken` | lib/json/jsoncpp.cpp:422-491 | the cursor, the type and the text of the token are those of the function `ReadToken`; the cursor stays within the document |
| `JsonReader.Reader.RecoverFromError` | lib/json/jsoncpp.cpp:913-924 | tokens are skipped up to the wanted one or the end, and no error is added or lost |
| `JsonReader.Reader.DecodeString` | lib/json/jsoncpp.cpp:793-844 | the loop over the characters computes the decoded text or the first error |
| `JsonReader.Reader.DecodeCodePoint` | lib/json/jsoncpp.cpp:846-873 | one escape, or two when the first is a high surrogate |
| `JsonReader.Reader.DecodeHex` | lib/json/jsoncpp.cpp:875-901 | the loop over four digits |
| `JsonReader.Reader.ReadValue` | lib/json/jsoncpp.cpp:332-403 | the cursor, the errors and the node on top of the stack end up as `JsonParser.ReadValue` says; the stack has its entry depth again and the nodes below are untouched |
| `JsonReader.Reader.ReadObject` | lib/json/jsoncpp.cpp:587-640 | the loop over members does what the recursive `ReadMembers` says |
| `JsonReader.Reader.ReadMemberName` | lib/json/jsoncpp.cpp:592-617 | name and colon, an empty object, and the three ways to fail there |
| `JsonReader.Reader.ReadMemberEnd` | lib/json/jsoncpp.cpp:625-636 | after a member: comma, brace or comment, or an error with recovery |
| `JsonReader.Reader.ReadArray` | lib/json/jsoncpp.cpp:642-677 | an empty array is seen by peeking; otherwise the loop over elements does what `ReadElements` says |
| `JsonReader.Reader.ReadChild` | lib/json/jsoncpp.cpp:618-624 | a child is pushed, read and popped, and its parent differs in that entry alone |
| `JsonReader.Reader.Parse` | lib/json/jsoncpp.cpp:291-330 | a whole parse: success exactly without errors, the root value, the cursor within the text and one node left on the stack |
| `JsonLexeme.LexemeIsRead` | lib/json/jsoncpp.cpp:422-491 | a text of one of the forms of tokens is read as that token, numbers as far as they go |
| `JsonLexeme.ClassifiedIsLexeme` | lib/json/jsoncpp.cpp:422-491 | and conversely: what is read as a token has the form of its type, unless it is a comment or breaks off at the end of the document |
| `JsonLexeme.CharacterClasses` | lib/json/jsoncpp.cpp:493-501 | white space by its codes, and the characters of numbers |
| `JsonLexeme.GapIsSkipped` | lib/json/jsoncpp.cpp:405-413 | any sequence of white space and complete comments is skipped |
| `JsonLexeme.PastCommentsIsLexeme` | lib/json/jsoncpp.cpp:405-413 | and conversely: what was skipped before a token is such a sequence |
| `JsonGrammar.TreeIsRead` | lib/json/jsoncpp.cpp:332-403 | every tree of the grammar is read as what it means, whatever follows and whatever the node held, and exactly its text is used |
| `JsonGrammar.ValueIsTree` | lib/json/jsoncpp.cpp:332-403 | and conversely: whatever is read successfully is the text of a tree, and the value is what it means |
| `JsonGrammar.MembersAreTree` | lib/json/jsoncpp.cpp:587-640 | the same for members: a brace where a name could stand only before the first or behind an empty name, and behind a comment any token for a comma |
| `JsonGrammar.AcceptsExactlyDocuments` | lib/json/jsoncpp.cpp:291-330 | a document is accepted exactly when it starts with a tree, which must be an array or object if the root is strict |
| `JsonGrammar.DocumentIsRead` | lib/json/jsoncpp.cpp:291-330 | and its value is what the tree means |
| `JsonGrammar.MembersMean` | lib/json/jsoncpp.cpp:587-640 | an object's entries are sorted, its names are those of its members, and each holds the value of the last member of that name |
| `JsonGrammar.ElementsMean` | lib/json/jsoncpp.cpp:642-677 | an array's entries are the values of its elements, numbered in order |
| `JsonGrammar.TrailingComma` | lib/json/jsoncpp.cpp:592-636 | documents beyond JSON that are accepted: a comma, or behind a comment any other token, between a member without a name and the brace |
| `JsonFastWriter.FastWriter.Write` | lib/json/jsoncpp.cpp:3154-3160 | the document is the tokens of the value one after the other, with a space after colons if YAML is wanted, and a newline unless it is omitted |
| `JsonText.CompactMeans` | lib/json/jsoncpp.cpp:3154-3208 | that text is the tokens one after the other, with a space behind each colon if YAML is wanted and nothing else |
| `JsonFastWriter.FastWriter.WriteValue` | lib/json/jsoncpp.cpp:3162-3208 | the tokens of a value are appended and nothing else; arrays are written up to their size as an `int` |
| `JsonFastWriter.FastWriter.WriteMember` | lib/json/jsoncpp.cpp:3196-3205 | one turn of the loop over names writes that member's tokens, the value being looked up by its name |
| `JsonStyledWriter.StyledWriter.Write` | lib/json/jsoncpp.cpp:3216-3225 | writing goes through exactly when no array on the way makes the writer reserve a negative number of values; then the document is that of `Styled`, character by character, and a newline |
| `JsonStyledText.StyledExtends` | lib/json/jsoncpp.cpp:3216-3375 | that document consists of the tokens of the value with only white space between them |
| `JsonStyledText.ElementsBeginLines` | lib/json/jsoncpp.cpp:3284-3303 | each element of an array on many lines begins a new line with the inner indentation |
| `JsonStyledText.MembersBeginLines` | lib/json/jsoncpp.cpp:3255-3273 | so does each member of an object |
| `JsonStyledText.LineLengthMeans` | lib/json/jsoncpp.cpp:3333-3342 | what is compared with the margin is the length of the line that would be written, as an `int` |
| `JsonStyledWriter.StyledWriter.WriteValue` | lib/json/jsoncpp.cpp:3227-3277 | a value goes to the document as `Styled` says, or as one more child value while a line is measured; the indentation is what it was; writing is interrupted exactly where `Survives` says |
| `JsonStyledWriter.StyledWriter.WriteArrayValue` | lib/json/jsoncpp.cpp:3279-3320 | on one line or on many, as many elements as the unsigned size says |
| `JsonStyledWriter.StyledWriter.WriteLines` | lib/json/jsoncpp.cpp:3284-3307 | the bracket, each element on a line of its own with the inner indentation, commas, and the bracket on a line with the outer one |
| `JsonStyledWriter.StyledWriter.WriteMembers` | lib/json/jsoncpp.cpp:3250-3275 | the same for the members of an object, with name and colon before each value |
| `JsonStyledWriter.StyledWriter.WriteLine` | lib/json/jsoncpp.cpp:3308-3318 | there are as many child values as elements, and they are written in order, with a comma and a space between them |
| `JsonStyledWriter.StyledWriter.IsMultilineArray` | lib/json/jsoncpp.cpp:3322-3345 | many lines exactly when three times the size, or the line with all elements, both as wrapping `int`s, reaches the margin, or some element has children; afterwards the child values are none or those of all elements, and all when one line is enough; it is interrupted exactly when the size is negative as an `int` and its triple stays below the margin |
| `JsonStyledWriter.StyledWriter.Unindent` | lib/json/jsoncpp.cpp:3372-3375 | there is an indentation to remove, and removing it restores the outer one |
| `JsonStyledWriter.StyledWriter.WriteIndent` | lib/json/jsoncpp.cpp:3354-3363 | a newline and the indentation are added unless they are there already |
| `JsonText.ValueSeparated` | lib/json/jsoncpp.cpp:3162-3208 | no number is followed by a token that would run into it |
| `JsonRoundTrip.NextToken` | lib/json/jsoncpp.cpp:422-491 | the reader reads the next of the tokens, whatever white space stands before it |
| `JsonRoundTrip.ReadValueOf` | lib/json/jsoncpp.cpp:332-403 | the tokens of a value, laid out in any way and followed by anything, are read as its normal form, up to their end |
| `JsonRoundTrip.AnyLayoutIsRead` | lib/json/jsoncpp.cpp:291-330 | parsing any layout of the tokens of a value gives its normal form without errors; a strict reader refuses scalars alone |
| `JsonSizes.AllIsWrittenIffSizesFit` | lib/json/jsoncpp.cpp:3183-3192 | what is written of a value is all of it exactly when the extent of every array can be counted: below 2^31 by an `int`, below 2^32 by an unsigned |
| `JsonSizes.LargeSparseArrayIsLost` | lib/json/jsoncpp.cpp:3185-3186 | a concrete value that is lost: one null at index 2^31-1 is written as an empty array |
| `JsonSizes.SameTokensIffIntSizes` | lib/json/jsoncpp.cpp:3183-3192 | counting by the unsigned size never writes fewer tokens than counting by the `int`, and the same ones exactly when no array that is reached has a size above 2^31-1 |
| `JsonFastWriter.FastTextIsRead` | lib/json/jsoncpp.cpp:3154-3208 | the reader parses the fast writer's text to the value with integers in their narrowest type and arrays dense |
| `JsonFastWriter.FastRoundTripIffSizesFit` | lib/json/jsoncpp.cpp:3183-3192 | the round trip keeps every element exactly when every array's size fits an `int` |
| `JsonStyledWriter.StyledTextIsRead` | lib/json/jsoncpp.cpp:3216-3375 | the reader parses the styled writer's text to the value in its normal form |
| `JsonStyledWriter.WritersAgreeIffIntSizes` | lib/json/jsoncpp.cpp:3279-3345 | the styled writer is not interrupted and writes the tokens of the fast one exactly when no array that is reached has a size above 2^31-1 |
| `JsonStyledWriter.NegativeSizeInterrupts` | lib/json/jsoncpp.cpp:3322-3334 | a concrete value where they differ: one null at index 2^32-11 makes the styled writer reserve -10 values |
| `JsonStyledWriter.NegativeSizeIsWrittenInFull` | lib/json/jsoncpp.cpp:3322-3324 | another: with one null at index 3·10^9-1 the triple wraps beyond the margin, so that all elements are written where the fast writer writes none |
| `JsonWriteThenRead.FastWriteThenRead` | lib/json/jsoncpp.cpp:3154-3160 | on the objects: what the fast writer writes the reader reads as the value in its normal form, with all elements exactly when every size fits an `int`; it is refused only as a scalar under a strict root |
| `JsonWriteThenRead.StyledWriteThenRead` | lib/json/jsoncpp.cpp:3216-3225 | the same for the styled writer, with the value that the fast writer's text gives when every size reached fits an `int` |
| `JsonCanonical.ValueIsCanonical` | lib/json/jsoncpp.cpp:332-403 | whatever the text, a value that is read successfully has integers in their narrowest type, zero-free strings and names, sorted members and arrays without holes, and at least one character was used |
| `JsonCanonical.CanonicalIsNormal` | lib/json/jsoncpp.cpp:689-735 | such a value is its own normal form |
| `JsonCanonical.ReadWriteRead` | lib/json/jsoncpp.cpp:291-330 | for every text that parses to a value without reals, writing that value and reading the text again gives the same value and no error exactly when every array's size fits an `int`; this is so for every text below 2^31 characters |
| `SectionTracker.BodyIsConsistent` | lib/catch.hpp:10188-10252 | running any part of a section's code, with an exception anywhere, leaves trackers of which a later sibling is untouched unless the earlier one is complete |
| `SectionTracker.CycleIsConsistent` | lib/catch.hpp:8783-8845 | so does a whole cycle, which never leaves the test case failed |
| `SectionTracker.CompletePrefix` | lib/catch.hpp:10206-10241 | after any number of cycles of any run, wherever exceptions escaped, at every tracker in the tree: its completed children form a prefix, and behind it at most one has been started |
| `SectionTracker.RunStopsWhenComplete` | lib/catch.hpp:8593-8597 | a run has as many cycles as it takes until the test case's tracker is complete for the first time |
| `SectionTracker.CycleConsumes` | lib/catch.hpp:8783-8845 | a cycle enters at most the first leaf still to come, and what is left to come is a suffix of what was |
| `SectionTracker.CycleWorks` | lib/catch.hpp:8593-8597 | every cycle completes at least one tracker, wherever an exception escapes, so the loop ends |
| `SectionTracker.AnyRunEntersInOrder` | lib/catch.hpp:8577-8615 | with exceptions at arbitrary points of arbitrary cycles, the leaves entered are a subsequence of all leaves in document order |
| `SectionTracker.AnyRunEntersAtMostOnce` | lib/catch.hpp:8577-8615 | no leaf section is entered twice, and only leaves are |
| `SectionTracker.FaultFreeRunCoversAll` | lib/catch.hpp:8577-8615 | without exceptions every leaf section is entered exactly once, in document order, and there are as many cycles as leaves |
| `SectionFaults.LeafFaultsCoverAll` | lib/catch.hpp:10206-10241 | if exceptions escape from the code of leaf sections only, in whatever cycles, every leaf section is still entered exactly once, in document order |
| `SectionFaults.UnenteredIsBlamed` | lib/catch.hpp:10206-10241 | in any run, a leaf section that is never entered lies at or below a section, or the test case, whose own code threw |
| `SectionFaults.CycleAccounts` | lib/catch.hpp:8783-8845 | in every cycle a leaf that was to come is still to come, or entered, or at or below the section that threw |
| `SectionFaults.ThrowerMeans` | lib/catch.hpp:8783-8826 | that section is the one whose own code was running when the exception escaped |
| `SectionTracker.LeavesAreLeaves` | lib/catch.hpp:8577-8615 | the leaves in document order are exactly the sections that contain none |
| `SectionTracker.LeavesDiffer` | lib/catch.hpp:8577-8615 | no leaf is listed twice |
| `SectionRunner.RunContext.OpenChild` | lib/catch.hpp:10188-10194 | the parents of a tracker that opens a child are executing children |
| `SectionRunner.RunContext.Open` | lib/catch.hpp:10199-10204 | the tracker is executing and current, and its parent executes children |
| `SectionRunner.RunContext.Acquire` | lib/catch.hpp:10268-10289 | the child of that name is found or added, and opened unless the cycle or the child is complete |
| `SectionRunner.RunContext.Close` | lib/catch.hpp:10206-10234 | an open tracker is completed or kept for another run and its parent becomes current; "Illogical state" exactly when it was not open |
| `SectionRunner.RunContext.Fail` | lib/catch.hpp:10235-10244 | the tracker has failed and its parent needs another run |
| `SectionRunner.RunContext.SectionStarted` | lib/catch.hpp:8653-8667 | whether the section is entered, and its tracker on the stack of active sections |
| `SectionRunner.RunContext.SectionEnded` | lib/catch.hpp:8681-8691 | the innermost active section is closed and taken off the stack |
| `SectionRunner.RunContext.SectionEndedEarly` | lib/catch.hpp:8693-8701 | the first section that ends early fails, those around it are closed |
| `SectionRunner.RunContext.ExecuteBody` | lib/catch.hpp:8783-8826 | the code of a section, run on the objects, does to its tracker what `RunBody` says and nothing to the others |
| `SectionRunner.RunContext.HandleUnfinishedSections` | lib/catch.hpp:8834-8845 | with no active sections left, nothing is closed again |
| `SectionRunner.RunContext.RunCurrentTest` | lib/catch.hpp:8783-8826 | one cycle on the objects is one cycle of the model |
| `SectionRunner.RunContext.RunTest` | lib/catch.hpp:8577-8615 | the whole run on the objects enters what `WholeRun` says in that many cycles, and never reaches "Illogical state" |
| `PermuteArgs.ComputeGcd` | lib/util/getopt_long.c:107-120 | the loop computes `Gcd` |
| `PermuteArgs.GcdIsGreatest` | lib/util/getopt_long.c:107-120 | `Gcd` divides both numbers and every common divisor divides it |
| `PermuteArgs.CycleOf` | lib/util/getopt_long.c:142-156 | from each of the gcd-many starting points, following the rotation visits exactly the positions of that class, each once, and comes back |
| `PermuteArgs.FollowCycle` | lib/util/getopt_long.c:143-155 | the inner loop of swaps moves every element of one cycle to its place |
| `PermuteArgs.PermuteArgs` | lib/util/getopt_long.c:127-157 | two adjacent blocks change places, each in its own order, and nothing else in the array changes |
| `Getopt.SearchLong` | lib/util/getopt_long.c:186-219 | the loop over the options finds what `FindLong` says |
| `Getopt.FindLong` | lib/util/getopt_long.c:186-219 | unknown exactly when the name abbreviates no option; ambiguous exactly when none has that name and two that it abbreviates differ in effect; otherwise the first of that name, or the first it abbreviates, all others having the same effect |
| `Getopt.LongStep` | lib/util/getopt_long.c:164-283 | a long option uses one or two arguments and never returns -1 |
| `Getopt.OptionStep` | lib/util/getopt_long.c:399-477 | an option uses up its argument exactly when no letters are left, and never returns -1 |
| `GetoptPartition.ScanIsStablePartition` | lib/util/getopt_long.c:289-477 | options, non-options and tail are those of a cut into blocks, each a non-option, an option with as many arguments as its letters use, or a `--` that only the tail follows; no other split of the arguments is |
| `GetoptPartition.PartitionIsUnique` | lib/util/getopt_long.c:289-477 | there is only one such cut |
| `GetoptPartition.ScanMerges` | lib/util/getopt_long.c:289-477 | options and non-options, each in order, interleave to the arguments before the tail |
| `GetoptPartition.ScanKeepsAll` | lib/util/getopt_long.c:289-477 | no argument is lost or added |
| `GetoptItems.CommandLineIsScanned` | lib/util/getopt_long.c:164-477 | for every option string and every command line of flags, letters with attached, separate, optional or missing arguments, long options with or without values, undeclared letters and operands, the scan returns exactly their codes and arguments and sorts them into options and operands |
| `GetoptItems.EveryVectorIsACommandLine` | lib/util/getopt_long.c:289-477 | and every argument vector is one of these command lines |
| `Getopt.Getopt.Finish` | lib/util/getopt_long.c:326-343 | at the end the non-options stand behind the options and `optind` at the first of them; if blocks are exchanged, there are options to move |
| `Getopt.Getopt.Skip` | lib/util/getopt_long.c:344-375 | a non-option is put aside; if blocks are exchanged, there are options to move |
| `Getopt.Getopt.TakeDashes` | lib/util/getopt_long.c:379-396 | `--` ends the options and belongs to them |
| `Getopt.Getopt.ParseLongOptions` | lib/util/getopt_long.c:164-283 | return value, argument and `optind` are those of `LongStep` |
| `Getopt.Getopt.TakeOption` | lib/util/getopt_long.c:399-477 | return value, argument, position and `optind` are those of `OptionStep` |
| `Getopt.Getopt.TakeLetter` | lib/util/getopt_long.c:455-477 | and those of `LetterStep` for a letter of the option string |
| `Getopt.Getopt.GetoptLong` | lib/util/getopt_long.c:504-511 | a call returns the next event of the scan, or -1 with everything in its final place |
| `Getopt.GetoptAll` | lib/util/getopt_long.c:289-477 | the loop until -1: the array is the program name, the options with their arguments, the non-options and the tail, each in order; `optind` is at the first non-option; the events are those of the scan |
| `Crc16.ComputeCrc16` | lib/util/crc16.cpp:82-89 | the loop with the table computes the bit-serial register |
| `Crc16.TableIsEightShifts` | lib/util/crc16.cpp:47-80 | each of the 256 entries is eight shift-and-xor steps of its index |
| `Crc16.TableBits` | lib/util/crc16.cpp:47-80 | the bits of an entry are its index shifted eight times through the register |
| `Crc16.ByteStepFeedsBits` | lib/util/crc16.cpp:85-87 | one table step is feeding the eight bits of the byte |
| `Crc16.CrcIsRemainder` | lib/util/crc16.cpp:32-45 | the register is the remainder of the message times x^16 modulo x^16+x^12+x^5+1 over GF(2) |
| `Crc16.CrcIsTheRemainder` | lib/util/crc16.cpp:32-45 | it is the only one: a polynomial of degree below 16 is a remainder exactly when it is the CRC |
| `Crc16.CrcIsLinear` | lib/util/crc16.cpp:82-89 | the CRC of the exclusive or of two messages of equal length is that of their CRCs |
| `Crc16.WordBitsInjective` | lib/util/crc16.cpp:82-89 | the bits determine the returned word |
| `Crc16.CrcOfCodeword` | lib/util/crc16.cpp:82-89 | a message followed by its own CRC, high byte first, has CRC 0 |
| `Crc16.BurstIsDetected` | lib/util/crc16.cpp:82-89 | two different messages of equal length that differ within 16 consecutive bits only have different CRCs |
| `BaseN.PartialBit` | lib/util/basen.h:60-69 | bit by bit, what is extracted from one byte |
| `BaseN.OverlappingBit` | lib/util/basen.h:71-79 | bit by bit, what is extracted across two bytes |
| `BaseN.PartialGroup` | lib/util/basen.h:60-69 | the bits extracted within a byte are the next group of the input |
| `BaseN.OverlappingGroup` | lib/util/basen.h:71-79 | so are those across two bytes, with zeros behind the end |
| `BaseN.Traits.SymbolRoundTrip` | lib/util/basen.h:83-163 | every symbol of the three alphabets decodes to its index, and none is a space or the padding |
| `BaseN.Traits.AlphabetIs` | lib/util/basen.h:83-163 | the three alphabets by ranges, as in sections 4, 6 and 8 of RFC 4648 |
| `BaseN.Traits.DecodesExactlySymbols` | lib/util/basen.h:83-163 | and only symbols decode at all |
| `BaseN.EncodeData` | lib/util/basen.h:210-246 | the i-th symbol is that of bits [i·g, (i+1)·g) of the zero-extended input |
| `BaseN.Encode` | lib/util/basen.h:210-253 | and `=` fills up to 2n, 8·⌈n/5⌉ or 4·⌈n/3⌉ characters |
| `BaseN.DecodeSymbol` | lib/util/basen.h:170-206 | one turn of the loop: spaces and other characters change nothing, a symbol adds its bits |
| `BaseN.Decode` | lib/util/basen.h:165-208 | the output is all whole bytes of the symbols' bits |
| `BaseN.JunkIsIgnored` | lib/util/basen.h:172-182 | inserting spaces or characters outside the alphabet anywhere changes nothing |
| `BaseN.RoundTrip` | lib/util/basen.h:165-253 | decoding an encoding gives the input, for all three alphabets and every input |
| `RequestParser.ReadConcat` | lib/http/request_parser.hpp:38-49 | parsing on where an indeterminate result left off is parsing both pieces at once, and a final result does not look further |
| `RequestParser.ChunksDoNotMatter` | lib/http/request_parser.hpp:38-49 | however the input is cut, the result, the request and the number of characters used are those of one parse |
| `RequestParser.Next` | lib/http/request_parser.cpp:30-286 | a state that writes to the last header always has one |
| `RequestParser.Parser.Consume` | lib/http/request_parser.cpp:30-286 | one character on the objects is one step of the machine; `headers.back()` is used only when there is a header |
| `RequestParser.Parser.Parse` | lib/http/request_parser.hpp:38-49 | the loop computes the result, the request and the position of `Read` |
| `RequestParser.SentencesAreAccepted` | lib/http/request_parser.cpp:30-286 | every sentence of the request grammar, with folded headers, is accepted as what it means, and what stands behind it is left; the version numbers are what their digits denote |
| `RequestParser.VersionIsRead` | lib/http/request_parser.cpp:120-180 | a request line that prints any two numbers as its version is read with those numbers |
| `RequestParser.TokenCharacters` | lib/http/request_parser.cpp:288-337 | the characters of a token, by ranges of codes |
| `RequestParser.AcceptedAreSentences` | lib/http/request_parser.cpp:30-286 | what is accepted is a sentence, and the request is what it means |
| `RequestParser.GoodExactlyOnSentences` | lib/http/request_parser.cpp:30-286 | an input is good exactly when it starts with a sentence |
| `HttpReply.ToBuffers` | lib/http/reply.cpp:92-108 | the buffers make up the status line, one line per header, an empty line and the content |
| `HttpReply.StatusLineHasCode` | lib/http/reply.cpp:19-82 | every status line shows the code of its status |
| `HttpReply.PrintedHeadersAreRead` | lib/http/reply.cpp:92-108 | the parser reads token names and control-free values back as they were and leaves the content |
| `HttpReply.ReadBackIffPrintable` | lib/http/reply.cpp:92-108 | and exactly those headers survive |
| `HttpConnection.Connection.OnRead` | lib/http/connection.cpp:45-80 | a read's completion parses, counts, and starts one more read or the one write, or stops the connection |
| `HttpConnection.Connection.OnData` | lib/http/connection.cpp:53-74 | the parser's outcome and the number of bytes so far decide between a bad request, the handler's answer and another read |
| `HttpConnection.Connection.OnWrite` | lib/http/connection.cpp:82-103 | a write's completion closes the socket and, unless it was aborted, leaves the manager's set |
| `HttpConnection.ConnectionManager.Start` | lib/http/connection_manager.cpp:22-27 | the connection is in the set and reads |
| `HttpConnection.ConnectionManager.Stop` | lib/http/connection_manager.cpp:29-34 | it is out of the set and closed |
| `HttpConnection.ConnectionManager.StopAll` | lib/http/connection_manager.cpp:36-42 | all are closed and the set is empty |
| `HttpConnection.CompleteKeeps` | lib/http/connection.cpp:45-103 | every way in which a pending operation can complete keeps the connection's invariant |
| `HttpConnection.EveryRunKeeps` | lib/http/connection.cpp:45-103 | so does every sequence of events over all connections |
| `HttpConnection.AnyRun` | lib/http/connection.cpp:45-103 | after any events in any order: a connection in the set is open and waits for an operation, any other is closed; each has at most one write, nothing after it, and the right answer; a handled request is the one-shot parse of all that was received, at most 10 MB; the number of completions and the text received are bounded |
| `HttpConnection.HandledIsSentence` | lib/http/connection.cpp:65-69 | a handled request is what a sentence at the front of the received text means |
| `HttpConnection.ShutdownDrains` | lib/http/connection_manager.cpp:36-42 | once all are closed and none is accepted, at most two completions per connection are left |
| `HttpConnection.AnyRunShutsDown` | lib/http/connection_manager.cpp:36-42 | whatever happened before `stop_all` and however operations complete afterwards: all connections are and stay closed, and each sees at most two completions |
| `HttpConnection.Server.Dispatch` | lib/http/connection_manager.cpp:22-42 | one event on the objects is one step of the system of all connections |
| `BucketApplicator.LastEntryWins` | src/bucket/BucketApplicator.cpp:32-60 | after the fold a key holds what the last entry that names it says, or what it held before |
| `BucketApplicator.BorderEntryTwice` | src/bucket/BucketApplicator.cpp:56-59 | applying the border entry again changes nothing |
| `BucketApplicator.BreakAtPieceEnd` | src/bucket/BucketApplicator.cpp:56-59 | within a piece the test on the low byte of the counter fires at its last entry only |
| `BucketApplicator.BucketApplicator.ApplyCurrent` | src/bucket/BucketApplicator.cpp:34-55 | a live entry replaces or creates, a dead one erases what is there |
| `BucketApplicator.BucketApplicator.Advance` | src/bucket/BucketApplicator.cpp:28-68 | a call applies at most 256 entries, commits the fold of a prefix, and gets further |
| `BucketApplicator.ApplyBucket` | src/bucket/BucketApplicator.cpp:23-68 | the loop over `advance` ends with the ledger folded over all n entries, after n + ⌊n/255⌋ applications |

## Left out

- Consensus, herder, overlay, ledger, history and the bucket list: their sources are not part of this model; `LedgerState` is a map with an atomic commit.
- JSON comments kept in values, value offsets and the locations and wording of errors: the reader skips comments and its errors are kinds of messages.
- JSON real numbers: `sscanf` and `snprintf` are parameters, and the round trip is stated for values without reals.
- JSON features `allowDroppedNullPlaceholders_` and `allowNumericKeys_`, `StyledStreamWriter`, `Path`, `resize`, removal of members, and strings of 2^31 and more bytes.
- JsonStyledWriter.StyledWriter.Write: `int` arithmetic that overflows is taken to wrap, and memory is not bounded.
- JsonValue.LessIsStrictTotalOrder: real values are Dafny's `real`, so NaN, which no order contains, does not occur, and sizes are compared without conversion to `int`.
- JsonCanonical.ReadWriteRead: says nothing of a text that spells an array of more than 2^32 elements, whose indices the source's types cannot hold.
- JsonReader.Reader.Parse: the index of an array's element is unbounded; the node stack holds values in place of pointers, so aliasing between a node and its parent is not modelled beyond writing the child back.
- SectionRunner.RunContext.RunTest: sections of one body have different names or locations; filters, generators (`IndexTracker`), aborting, failure counts, timers and reporters are not modelled.
- Getopt.GetoptAll: `options` does not start with `+` or `-`, POSIXLY_CORRECT is unset, `optind` starts at 1 and is not reset, and no long option has the value -1; messages, `optopt`, stores through `flag` and `idx` are not modelled.
- `getopt_long_only` and plain `getopt`.
- Crc16.ComputeCrc16: the buffer is a sequence that is long enough for the length given.
- RequestParser.Parser.Consume: version numbers are unbounded integers.
- HttpConnection.Connection.OnRead: the request handler, routes, `url_decode`, stock replies and their bodies are not modelled; a handled request stands for whatever the handler answers.
- HttpConnection.AnyRun: the socket library reports an aborted operation only after the socket has been closed, and data or success only for operations started on an open socket.
- `HttpClient`, the acceptor and signals.
- BucketApplicator.BucketApplicator.Advance: the counter `mSize` is unbounded, and its log lines are left out.
- `lib/clara.hpp`, `lib/util/cpptoml.h`, `lib/util/format.cc` and the Catch matchers and reporters are not modelled.
