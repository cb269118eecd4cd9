# Verified models of json-c and of the OPC UA / MQTT bridge

This project models five parts of the repository in Dafny and proves what they promise:
the JSON printer and the resumable parser of json-c, its hash table, arrays and reference
counts, the chunk transport of OPC UA (Part 6, section 6.7.2), JSON Pointer (RFC 6901), and
three arithmetic kernels (a calendar, a hash, MQTT framing).

Each part has two sides. The C functions are methods on the C state (a class with the fields
of the struct, arrays that are written in place, loops with invariants), and each method is
proved equal to a function on values. The properties, over all inputs and over whole runs,
are lemmas about those functions.

| files | subject |
|---|---|
| Sequences, Decimals | what the other files need about sequences and decimal numbers |
| JsonValue, JsonText, Tokener, TokenerLoop, RoundTrip, Unicode, Quirks, Printbuf, Serializer, JsonEqual, JsonDocuments | JSON text: printing, parsing, Unicode escapes, equality |
| Grammar, GrammarStrings, GrammarParse, GrammarScan, GrammarSound, GrammarExamples, TokenerErrors | which texts are accepted and what they mean, and the errors for all others |
| Layout, GrammarPrint | what printed text looks like for each flag |
| Resume, TextScan, Cuts, CutsDecide, CutsPrinted, CutsExamples | JSON text that comes in pieces |
| LinkHash, LinkHashMap, LinkHashTable | the ordered hash table |
| ArrayList, RefCounts, ObjectGraph, ObjectStore | arrays and reference counts |
| UaBytes, ChunkFraming, ChunkReceiving, ChunkSending, SecureChannelClass, ChunkWire, ChunkTransport, ChunkEndToEnd, ChunkProgress, ChunkNumbers | OPC UA chunks |
| JsonPointer, JsonPointerSet, JsonPointerBuffer | JSON Pointer |
| Calendar, HashLittle, Mqtt | arithmetic kernels |

## The main results

**The language of the parser.** `Grammar` is a grammar of trees with their texts and their
meanings; it writes out white space, comments, digits, escapes and surrogates, and knows
nothing of the states of the tokener. A call on a NUL-terminated text succeeds with the
value v after n characters if and only if these n characters are a document of the grammar
within the depth that means v, and what stands behind them ends it: for a strict tokener
without exception (`StrictAccepts`), and for any other (`Accepts`) except where it stops at a
NUL inside a comment. JSON by RFC 7159 without floating point numbers is a part of the
grammar, so all of it is parsed to what it means in both modes (`RfcParses`), and white space
and comments between the tokens change nothing (`FillingIsFree`). The rest of the grammar is
what json-c accepts beyond RFC 7159; a strict tokener also takes the vertical tab and the
form feed as white space, control characters inside quotes, keys in single quotes, numbers
like `00`, `-01` and `1+1`, and NaN and the infinities (`GrammarExamples`).

**What is printed.** For every choice of flags the text of a value is a document of RFC 7159
that means the value (`PrintedIsJson`), and it is the text for no flags laid out character by
character, with two spaces or a tab for every open bracket at the start of a line and a blank
behind every colon (`PrintedIsLaid`). A slash stands behind a backslash exactly if the flags
do not forbid it (`SlashesPrinted`).

**JSON.** Parsing what was printed gives the same value back, for every tree that can be
printed, every mix of the four formatting flags and every depth the tokener allows
(`RoundTripZ`, `PrintAndParse`). Printed text may be cut into pieces anywhere
(`PrintedResumes`). In other text one kind of cut loses something, and `CutDecides` says
exactly which. Where a high surrogate waits for the escape behind it, a cut is bad right
behind the `\u` of that escape (the next call then shifts by a negative amount), and
anywhere before the end of that escape if it is a low surrogate (the text then gets two
replacement characters, without an error). Cut inside a string or a key, the tokener comes
to the closing quote with the same bytes if and only if the cut is not a bad one, and a text
that ends in a bracket or a quote and has no bad cut gives the same value in pieces as in one
call (`Resumable`). Every escape sequence appends well-formed UTF-8, and a surrogate pair is
decoded correctly if and only if the low 16 bits of the code point are outside D800..DFFF,
whatever comes behind it (`PairEscape`). A success on a NUL-terminated text returns the
outermost value, whatever the text is, if and only if the tokener is strict or accepts no
nesting (`OutermostOnly`).

**Hash table and ownership.** After any history of additions, deletions and resizes the table
holds exactly the keys that were added and not deleted since, in the order in which their
entries were made (`HistoryDecides`). A resize leaves a consistent table exactly if the new
size has room (`Resize`). Every reference count is the number of references that callers hold
and of slots that store the object. In acyclic heaps the live objects are exactly those that
callers can reach, and a put frees exactly what cannot be reached any more (`Put`).

**Transport.** Messages of several requests, chunked and interleaved, delivered in any TCP
segmentation, come out exactly once each, whole, in the order of their final chunks
(`EndToEnd`), and `WireBytes` gives every byte of every frame that is sent. The chunk limit of a peer is kept by every message if and only if it is below
65535 or the size limit stops the message before, because the counter has 16 bits
(`ChunkLimitKept`). The receive loop ends on every frame that holds an error message if and
only if the message leaves fewer than twelve bytes of its frame, or is not decoded
(`ErrorFrameEnds`).

**JSON Pointer.** The two in-place passes undo the escaping of every key. `SetIsFound` says
exactly when a get returns what a set has stored, given that the last token of a set is not
unescaped, `SetSucceeds` exactly when a set succeeds, `ParentAfterSet` what it does to the
container, and `SetElsewhere` that it leaves other places alone.

**Kernels.** `SecsToTm` is the inverse of the Gregorian day count exactly from
-67768040604556800 to 67768036196860799; in the last 60 days of that range the year that it
stores does not fit an int (`BoundsDecide`).
The three reading paths of hashlittle compute one function, mix and final are bijections, and
the values of the hash at two keys are the published ones (`HashOfA`, `HashOfSentence`). PUBLISH
packets written one after the other are read as they were written.

## Model

| member | source | states |
|---|---|---|
| TokenerLoop.JsonTokener.ParseEx | json-c/json_tokener.c:239-992 | one call of the parser, on the stack, the buffer and the other fields of the tokener, ends as the state machine does: same error, value, offset and state kept for the next call |
| TokenerLoop.JsonTokener.MainLoop | json-c/json_tokener.c:291-954 | the main loop with its redo jumps terminates and computes the run of the state machine from where the tokener stands |
| TokenerLoop.JsonTokener.CaseNumber | json-c/json_tokener.c:730-818 | the number state: its inner copying loop does what single steps of the machine do |
| TokenerLoop.JsonTokener.CaseString | json-c/json_tokener.c:532-557 | the string state: copying stretches of plain characters does what single steps do |
| TokenerLoop.JsonTokener.CaseUnicode | json-c/json_tokener.c:590-691 | the escape state: digits are collected, surrogates combined, and the bytes appended as specified |
| TokenerLoop.JsonTokener.Reset | json-c/json_tokener.c:140-159 | every level is cleared and the tokener is as new |
| GrammarSound.Accepts | json-c/json_tokener.c:239-992 | for every NUL-terminated text: the call succeeds with v after n characters, the last not being a NUL, if and only if these are a document of the grammar, with the rules of the mode and within the depth, that means v and that ends there |
| GrammarSound.StrictAccepts | json-c/json_tokener.c:239-992 | the same for a strict tokener and every success, at whatever NUL it ends |
| GrammarParse.RfcParses | json-c/json_tokener.c:291-992 | every document of RFC 7159 without floating point numbers, within the depth, with its four white space characters anywhere between tokens, is parsed to what it means, in both modes |
| GrammarParse.LegalParses | json-c/json_tokener.c:291-992 | every document of the grammar in a buffer is parsed to what it means, whatever stands behind the character that ends it |
| GrammarParse.FillingIsFree | json-c/json_tokener.c:296-310 | white space and comments between tokens do not change the value |
| GrammarParse.ParseNode | json-c/json_tokener.c:312-954 | the same for one value of the grammar at any nesting level |
| GrammarParse.SkipGap | json-c/json_tokener.c:296-530 | white space and comments are skipped, and only the print buffer is touched |
| GrammarStrings.ParseParts | json-c/json_tokener.c:532-691 | the pieces of a string or key append the bytes that the grammar gives them, with pairs, lone and misread surrogates |
| GrammarStrings.UnitAgrees | json-c/json_tokener.c:604-680 | one escape behind whatever waits, by the code point ranges instead of bits |
| GrammarStrings.HexDigits | json-c/json_tokener.c:44-44 | the 22 hexadecimal digits and their values |
| Grammar.IntegerMeans | json-c/json_util.c:198-208 | the digits up to a plus sign count, and what does not fit 64 bits becomes the nearest number that does |
| Grammar.RfcIsLegal | json-c/json_tokener.c:291-954 | RFC 7159 without floating point numbers is within the grammar, also with the strict rules |
| GrammarScan.GapSound | json-c/json_tokener.c:296-530 | what a run that succeeds has skipped before a token is white space and whole comments |
| GrammarScan.PartsSound | json-c/json_tokener.c:532-691 | what it has read inside quotes are legal pieces and the same quote |
| GrammarScan.NumberSound | json-c/json_tokener.c:730-818 | what it has read as a number is a legal number, or minus infinity |
| GrammarScan.WordSound | json-c/json_tokener.c:388-477 | what it has read as a word is a legal word |
| GrammarSound.NodeSound | json-c/json_tokener.c:312-954 | what it has read as a value is a tree of the grammar within the depth |
| GrammarExamples.OtherWhiteSpace | json-c/json_tokener.c:296-305 | beyond RFC 7159, also strictly: the vertical tab and the form feed |
| GrammarExamples.OtherStrings | json-c/json_tokener.c:532-557 | ... control characters inside quotes |
| GrammarExamples.OtherKeys | json-c/json_tokener.c:863-882 | ... keys in single quotes |
| GrammarExamples.OtherNumbers | json-c/json_tokener.c:730-818 | ... zeros before other digits, and plus signs inside numbers |
| GrammarExamples.OtherWords | json-c/json_tokener.c:388-477 | ... NaN and the infinities |
| GrammarExamples.LooseTokens | json-c/json_tokener.c:312-477 | not strictly: words in capitals, strings in single quotes, leading zeros |
| GrammarExamples.LooseComma | json-c/json_tokener.c:820-831 | ... a comma behind the last element |
| GrammarExamples.Comments | json-c/json_tokener.c:479-530 | ... comments of both kinds |
| GrammarExamples.LooseEnd | json-c/json_tokener.c:381-386 | ... anything behind the value |
| TokenerErrors.WrongSeparator | json-c/json_tokener.c:850-950 | the error and the offset for a wrong character behind an element, a member or a key, and in front of a key |
| TokenerErrors.TrailingComma | json-c/json_tokener.c:820-872 | ... for a closing bracket behind a comma, strictly |
| TokenerErrors.WrongStart | json-c/json_tokener.c:312-379 | ... for a character that starts no value |
| TokenerErrors.TooDeep | json-c/json_tokener.c:832-836 | ... for one level too many |
| TokenerErrors.WrongEscape | json-c/json_tokener.c:559-588 | ... for a character that is no escape |
| TokenerErrors.WrongDigit | json-c/json_tokener.c:590-691 | ... for a character that is no hexadecimal digit |
| TokenerErrors.WrongComment | json-c/json_tokener.c:479-489 | ... for a slash that starts no comment |
| TokenerErrors.WrongWord | json-c/json_tokener.c:439-477 | ... for a wrong letter in a word, strictly |
| TokenerErrors.WrongNumber | json-c/json_tokener.c:730-818 | ... for a text that is no number |
| TokenerErrors.Garbage | json-c/json_tokener.c:955-963 | ... for anything behind the document, strictly |
| TokenerErrors.AsksForMore | json-c/json_tokener.c:109-132 | at the end of the buffer the tokener asks for more, unless the document is complete |
| RoundTrip.RoundTripZ | json-c/json_tokener.c:291-992 | the whole text of any printable value, parsed with length -1, succeeds with that value and consumes the text |
| RoundTrip.RoundTripLength | json-c/json_tokener.c:291-992 | the same with an explicit length, for strings, arrays and objects |
| RoundTrip.ParseValue | json-c/json_tokener.c:298-954 | from any point where a value may start, the text of a value nested at any level leaves the parser with that value finished and everything outside unchanged |
| RoundTrip.IntCodec | json-c/json_util.c:198-208 | reading the decimal text of any int64 gives the number |
| RoundTrip.ParseControl | json-c/json_object.c:143-156 | a control character printed as a hexadecimal escape is read back as that character |
| Cuts.Resumable | json-c/json_tokener.c:214-233 | any text that parses and ends in a bracket or quote, cut into any pieces with no bad cut, makes every call but the last ask for more, and the last one return the same value |
| CutsDecide.CutDecides | json-c/json_tokener.c:590-691 | for any text that parses, cut inside a string or a key: the tokener comes to the closing quote with the same bytes if and only if no surrogate waits at the cut, or the cut is not right behind the start of the escape behind it and that escape is no low surrogate |
| CutsDecide.CutBehindStart | json-c/json_tokener.c:590-611 | cut right behind the start of an escape behind a waiting surrogate, any text that parses makes the next call shift by a negative amount |
| CutsExamples.CutPair | json-c/json_tokener.c:617-645 | a pair cut in the middle: two replacement characters instead of the code point, and success |
| CutsExamples.CutNoPair | json-c/json_tokener.c:590-611 | a text without any pair that one call accepts, and a cut after which the next call shifts by a negative amount |
| CutsPrinted.NoBadCut | json-c/json_object.c:106-164 | printed text has no bad cut, because it has no escape of a surrogate |
| TextScan.MicroFollows | json-c/json_tokener.c:291-954 | every step of the tokener keeps in step with a lexer that knows only quotes, comments and escapes, also after a cut |
| TextScan.NeverUndefined | json-c/json_tokener.c:590-691 | a run from a state that matches the text behind it never comes to the negative shift |
| Quirks.OutermostOnly | json-c/json_tokener.c:491-504 | for a tokener between documents: every NUL-terminated text that is parsed with success is parsed on the outermost level, if and only if the tokener is strict or accepts no nesting |
| Quirks.InnerValueReturned | json-c/json_tokener.c:491-504 | the other case occurs: an array cut off inside a comment succeeds with its element, one level down |
| Resume.SimRun | json-c/json_tokener.c:291-954 | a resumed run that agrees with the uncut one on everything that outlives a call returns the same value |
| Unicode.BasicEscape | json-c/json_tokener.c:590-691 | the escape of a scalar value below 10000 appends its UTF-8 encoding |
| Unicode.PairEscape | json-c/json_tokener.c:604-665 | whatever follows, a surrogate pair appends the UTF-8 encoding of its code point if and only if the low 16 bits of the code point are outside D800..DFFF; otherwise it appends a replacement character, or waits as if it were a high surrogate for the escape behind it |
| Unicode.PairOf | json-c/json_tokener.c:104-107 | every code point above FFFF is the value of its own surrogate pair |
| Unicode.EscapesWellFormed | json-c/json_tokener.c:590-691 | any chain of escapes, lone surrogates included, appends well-formed UTF-8 |
| Unicode.Utf8Decodes | json-c/json_tokener.c:629-680 | what is appended for a scalar value decodes to it (section 3 of RFC 3629) |
| PrintbufModule.Printbuf.Extend | json-c/printbuf.c:60-81 | the buffer grows to the size asked for and keeps its contents |
| PrintbufModule.Printbuf.MemAppend | json-c/printbuf.c:83-93 | the contents are followed by the new bytes and a NUL |
| PrintbufModule.Printbuf.MemSet | json-c/printbuf.c:95-113 | a range is filled, the rest kept, and the position moved if the range goes beyond it |
| PrintbufModule.Printbuf.Reset | json-c/printbuf.c:143-147 | the buffer is empty |
| Serializer.EscapeStr | json-c/json_object.c:106-164 | copying unescaped stretches and escapes appends the escaped text of the string |
| Serializer.ToJsonString | json-c/json_object.c:323-342 | printing any value at any level appends its text and nothing else |
| Serializer.StringToJsonString | json-c/json_object.c:993-1002 | the escaped string between quotes is appended |
| Serializer.ObjectToJsonString | json-c/json_object.c:378-423 | the members are printed in their order, with separators and layout for the flags |
| Serializer.ArrayToJsonString | json-c/json_object.c:1109-1150 | the same for the elements of an array |
| Serializer.ToJsonStringExt | json-c/json_object.c:323-352 | the buffer holds the text of the value |
| GrammarPrint.PrintedIsJson | json-c/json_object.c:106-164 | what is printed, for all flags, is a document of RFC 7159 that means the value |
| Layout.PrintedIsLaid | json-c/json_object.c:378-423 | the text for any flags is the text for none, laid out from left to right: new lines, a margin for every open bracket, blanks, and escaped slashes |
| Layout.StringsPrinted | json-c/json_object.c:106-164 | a string is printed character by character |
| Layout.CharsPrinted | json-c/json_object.c:106-164 | the table of escapes, with and without escaped slashes |
| CutsPrinted.PrintedChars | json-c/json_object.c:106-164 | which characters may stand outside quotes, inside them and behind a backslash, for each flag |
| CutsPrinted.SlashesPrinted | json-c/json_object.c:119-134 | a slash stands behind a backslash exactly if the flags do not forbid it |
| CutsPrinted.NoSpacePrinted | json-c/json_object.c:378-423 | without flags there is no white space outside quotes |
| JsonEqual.JsonObjectEqual | json-c/json_object.c:1291-1329 | the recursive comparison with its loops computes equality of values |
| JsonEqual.AllValuesEqual | json-c/json_object.c:1264-1289 | two objects are compared by two passes of lookups |
| JsonEqual.EqualMeansSame | json-c/json_object.c:1247-1329 | two values are equal exactly if they mean the same, members being unordered and elements ordered |
| JsonEqual.Equivalence | json-c/json_object.c:1247-1329 | equality is reflexive, symmetric and transitive |
| JsonDocuments.PrintAndParse | json-c/json_object.c:323-423 | printing into a buffer and parsing it gives an equal value with the same key order, and the tokener is ready for the next document |
| JsonDocuments.PrintedResumes | json-c/json_tokener.c:214-233 | printed strings, arrays and objects may be cut into pieces anywhere |
| LinkHash.LinksAreInverse | json-c/linkhash.c:586-594 | prev undoes next and next undoes prev on live entries |
| LinkHash.PutKeeps | json-c/linkhash.c:581-594 | a new entry is the last of the list, and nothing else changes |
| LinkHash.PutProbed | json-c/linkhash.c:574-584 | putting an entry into the first slot that is not live keeps every key reachable by probing |
| LinkHash.UnlinkKeeps | json-c/linkhash.c:635-661 | a deletion takes one entry out of the list and keeps the order of the others |
| LinkHash.UnlinkProbed | json-c/linkhash.c:645-646 | a tombstone keeps the other keys reachable |
| LinkHash.SomeSlotIsFree | json-c/linkhash.c:576-579 | a table with fewer entries than slots has a slot where the probe loop stops |
| LinkHash.DoubledHasRoom | json-c/linkhash.c:570-572 | a table of twice the size takes all entries and one more without another resize |
| LinkHash.LoadLimit | json-c/linkhash.h:38-38 | the load limit is that of the factor 0.66 |
| LinkHashTable.Table.constructor | json-c/linkhash.c:484-509 | an empty table with every slot never used |
| LinkHashTable.Table.FreeSlot | json-c/linkhash.c:574-579 | the unbounded probe loop ends, at a slot that is not live with only live slots before it |
| LinkHashTable.Table.InsertWHash | json-c/linkhash.c:566-597 | one entry is added at the end, with the key and the constant flag given; the size doubles exactly if the load limit was reached |
| LinkHashTable.Table.Resize | json-c/linkhash.c:523-552 | the table is consistent afterwards exactly if the new size has room for the entries; then map, order and constant flags are kept and free_fn is not called |
| LinkHashTable.Table.LookupEntryWHash | json-c/linkhash.c:604-617 | the key is found exactly if it is live |
| LinkHashTable.Table.LookupEntry | json-c/linkhash.c:619-622 | the entry found is the one that the list has for the key |
| LinkHashTable.Table.LookupEx | json-c/linkhash.c:624-633 | found or not, and the value |
| LinkHashTable.Table.DeleteEntry | json-c/linkhash.c:635-661 | the three statuses; on 0 the entry is gone, free_fn got it once, and the others are unchanged |
| LinkHashTable.Table.Delete | json-c/linkhash.c:664-669 | the key is removed if it is there, and the status says so |
| LinkHashTable.Table.Add | json-c/json_object.c:483-505 | a new key goes to the end, an old one keeps its place and gets the value |
| LinkHashTable.Table.Entries | json-c/linkhash.h:148-149 | a traversal meets the entries in their order |
| LinkHashTable.Table.Free | json-c/linkhash.c:554-563 | free_fn is called once for every entry, in order |
| LinkHashTable.Table.Execute | json-c/linkhash.c:523-669 | any run of operations does to the table what it does to an insertion-ordered map |
| LinkHashMap.HistoryDecides | json-c/linkhash.c:566-669 | after any history: exactly the keys added and not deleted since, the value last added, the constant flag of the addition that made the entry, sorted by the time their entries were made |
| ArrayListModule.ArrayList.GetIdx | json-c/arraylist.c:66-71 | the item, or NULL behind the end |
| ArrayListModule.ArrayList.Expand | json-c/arraylist.c:73-94 | old slots stay and new slots are NULL |
| ArrayListModule.ArrayList.PutIdx | json-c/arraylist.c:96-106 | contents, gap, freed pointer and all slots after storing at any index |
| ArrayListModule.ArrayList.Add | json-c/arraylist.c:108-112 | the pointer is appended |
| ArrayListModule.ArrayList.DelIdx | json-c/arraylist.c:133-146 | status, contents, freed pointers in order, and the slots left behind the end |
| ArrayListModule.ArrayList.Free | json-c/arraylist.c:56-64 | every pointer of the list is freed once |
| ArrayListModule.GapAfterDelete | json-c/arraylist.c:96-146 | after a deletion a gap reads as NULLs exactly if the slots that it covers were NULL before the deletion |
| ArrayListModule.StalePointerReturns | json-c/arraylist.c:143-144 | a deleted pointer can come back into the list |
| ArrayListModule.PutConserves | json-c/arraylist.c:96-106 | storing keeps every owned reference exactly once if and only if the gap is NULL |
| ArrayListModule.DeleteConserves | json-c/arraylist.c:133-146 | what a deletion frees and what stays is what was owned |
| ObjectStore.Store.Drop | json-c/json_object.c:185-210 | dropping one reference, with the whole cascade of deletions, keeps every count equal to the references that are left, frees every object at most once and terminates |
| ObjectStore.Store.Put | json-c/json_object.c:185-210 | what is freed is exactly what can no longer be reached from the references that callers still hold |
| ObjectStore.Store.New | json-c/json_object.c:226-241 | a new object has one reference, held by its creator |
| ObjectStore.Store.Get | json-c/json_object.c:169-183 | one more reference is held and counted |
| ObjectStore.Store.ObjectAdd | json-c/json_object.c:470-506 | the reference of the caller moves into the object, the old value loses its slot, counts stay right and the heap acyclic; adding an object to itself changes nothing |
| ObjectStore.MemberSet | json-c/json_object.c:483-505 | a key that is there keeps its place, a new one goes to the end, and a deletion keeps the order |
| ObjectStore.Store.ObjectDel | json-c/json_object.c:555-559 | the member is gone and its value has lost that reference |
| ObjectStore.Store.ArrayPutIdx | json-c/json_object.c:1227-1232 | as for objects, at an index, with NULLs in a gap |
| ObjectStore.Store.ArrayAdd | json-c/json_object.c:1221-1225 | the reference of the caller moves to the end of the array |
| ObjectStore.Store.ArrayDelIdx | json-c/json_object.c:1234-1238 | the slots of the range lose their references and the array closes up |
| ObjectGraph.LiveIsKept | json-c/json_object.c:169-210 | in an acyclic heap an object is alive exactly if callers can reach it |
| ObjectGraph.NothingLeaks | json-c/json_object.c:185-210 | when callers hold nothing, nothing is left |
| ObjectGraph.FreedIsUnreachable | json-c/json_object.c:426-437 | dropping references frees exactly the unreachable objects |
| ObjectGraph.EdgeAdded | json-c/json_object.c:488-491 | storing a value that does not contain the container makes no cycle |
| ChunkFraming.Connection.CompleteMessages | open62541_mqtt/src/ua_connection.c:124-154 | one received buffer: what is handed on, what is kept, and the status |
| ChunkFraming.Connection.CompleteChunksUntil | open62541_mqtt/src/ua_connection.c:40-81 | the loop over the headers ends where the whole chunks end, and says whether garbage follows |
| ChunkFraming.Connection.SeparateIncompleteChunk | open62541_mqtt/src/ua_connection.c:83-122 | what becomes of the message and of the bytes behind its chunks |
| ChunkFraming.Connection.PrependIncomplete | open62541_mqtt/src/ua_connection.c:16-38 | the kept bytes go in front of the received ones |
| ChunkFraming.OneChunk | open62541_mqtt/src/ua_connection.c:46-73 | a buffer that says how long it is goes to the caller whole, or is refused as garbage, by its length and its six message types |
| ChunkFraming.StreamFraming | open62541_mqtt/src/ua_connection.c:40-154 | over any stream of chunks in any segments every call succeeds, delivered bytes are the longest run of whole chunks received, and the rest is kept |
| ChunkFraming.KeepsLittle | open62541_mqtt/src/ua_connection.c:46-73 | what is kept is shorter than a header or than the receive buffer |
| ChunkFraming.NothingLost | open62541_mqtt/src/ua_connection.c:83-122 | bytes are lost exactly if there is garbage |
| ChunkSending.ChunksShaped | open62541_mqtt/src/ua_securechannel.c:196-250 | a message is sent as intermediate chunks followed by exactly one final or abort chunk |
| ChunkSending.ChunksCarryAll | open62541_mqtt/src/ua_securechannel.c:125-194 | chunks that do not end in an abort carry exactly what was encoded |
| ChunkSending.SentWhole | open62541_mqtt/src/ua_securechannel.c:137-164 | a message is sent whole exactly if it encodes without error and keeps the limits of size and count |
| ChunkSending.LimitsHold | open62541_mqtt/src/ua_securechannel.c:137-142 | a message that is not aborted keeps the size limit, headers included, and a chunk limit below 65535 |
| ChunkSending.ChunkLimitKept | open62541_mqtt/src/ua_securechannel.c:137-142 | every message whose buffers carry at least b bytes keeps the chunk limit, if and only if the limit is below 65535 or that many chunks and one more exceed the size limit |
| SecureChannelClass.SecureChannel.SendChunk | open62541_mqtt/src/ua_securechannel.c:125-194 | the chunk for a payload is sent with the next sequence number, and the chunk info is brought up to date |
| SecureChannelClass.SecureChannel.EncodeBinary | open62541_mqtt/src/ua_securechannel.c:233-245 | the encoder emits the chunks at the buffer boundaries, stops at the first error and owes the rest |
| SecureChannelClass.SecureChannel.SendBinaryMessage | open62541_mqtt/src/ua_securechannel.c:196-250 | exactly the chunks of the message are sent, numbered without gaps; the status is good exactly if it was not aborted |
| ChunkWire.WireBytes | open62541_mqtt/src/ua_securechannel.c:125-250 | every byte of every frame of every message: OPN, CLO or MSG by the type of the content, F, C or A, the sizes and numbers of the header in little-endian, and the payload, or for an abort the error code and a null string |
| ChunkWire.ChunkIs | open62541_mqtt/src/ua_securechannel.c:137-164 | kind and body of every chunk, by the limits of the peer and the error of the encoder |
| SecureChannelClass.SecureChannel.RevolveTokens | open62541_mqtt/src/ua_securechannel.c:111-119 | the next token becomes the current one if there is one |
| SecureChannelClass.SecureChannel.ProcessSequenceNumber | open62541_mqtt/src/ua_securechannel.c:345-356 | which numbers are accepted, and that the accepted one is stored |
| SecureChannelClass.SecureChannel.AppendChunk | open62541_mqtt/src/ua_securechannel.c:270-312 | the piece is added to the entry of the request, or the entry is dropped if the piece does not fit |
| SecureChannelClass.SecureChannel.FinalizeChunk | open62541_mqtt/src/ua_securechannel.c:314-343 | the message is the stored pieces and the last one, and the entry is gone |
| SecureChannelClass.SecureChannel.RemoveChunk | open62541_mqtt/src/ua_securechannel.c:256-267 | the entry of the request is gone |
| SecureChannelClass.SecureChannel.ProcessChunks | open62541_mqtt/src/ua_securechannel.c:358-457 | the loop over a buffer makes the callbacks and leaves the channel as specified |
| ChunkReceiving.Refused | open62541_mqtt/src/ua_securechannel.c:363-454 | when the loop is left, and with which status |
| ChunkReceiving.TokenChosen | open62541_mqtt/src/ua_securechannel.c:406-418 | which tokens are accepted, and that the next one becomes the current one |
| ChunkProgress.ErrorReceived | open62541_mqtt/src/ua_securechannel.c:365-382 | the application gets the error code and the reason of an error message |
| ChunkProgress.OpenReceived | open62541_mqtt/src/ua_securechannel.c:398-452 | the chunk of an OpenSecureChannel message goes to the application from behind the id of the channel on, under request 0 |
| ChunkReceiving.AppendRefines | open62541_mqtt/src/ua_securechannel.c:283-312 | one entry per request; only the entry of this request grows |
| ChunkReceiving.RemoveRefines | open62541_mqtt/src/ua_securechannel.c:256-267 | the request is forgotten and no other |
| ChunkReceiving.IterateKeepsDistinct | open62541_mqtt/src/ua_securechannel.c:363-454 | whatever arrives, there are never two entries for one request |
| ChunkReceiving.NextFrame | open62541_mqtt/src/ua_securechannel.c:426-453 | the offset lands on the next frame also when the size is below the header and the subtraction wraps around |
| ChunkReceiving.IterationAdvances | open62541_mqtt/src/ua_securechannel.c:363-454 | where every iteration that stays in the loop goes on |
| ChunkReceiving.FramedEnds | open62541_mqtt/src/ua_securechannel.c:363-454 | on framed buffers every iteration moves at least 16 bytes to the next frame, and the loop ends |
| ChunkReceiving.LandsOnFrame | open62541_mqtt/src/ua_securechannel.c:363-454 | an iteration that stays lands on the next frame, whatever the channel, if and only if an error message there is as long as its frame or not decoded |
| ChunkProgress.HandedOnIsWhole | open62541_mqtt/src/ua_connection.c:40-154 | what the connection hands on consists of whole frames of at least 16 bytes, whatever it has received |
| ChunkProgress.ReceiveEnds | open62541_mqtt/src/ua_securechannel.c:358-457 | the receive loop ends on whatever the connection hands on, if the error messages in it fit their frames |
| ChunkReceiving.StuckIsForever | open62541_mqtt/src/ua_securechannel.c:363-454 | an iteration that comes back to its offset twice does so for ever |
| ChunkProgress.ErrorFrameEnds | open62541_mqtt/src/ua_securechannel.c:363-382 | one error frame, which the connection hands on: the loop ends whatever is in the frame, if and only if the message leaves fewer than twelve bytes of it or is not decoded |
| ChunkProgress.ErrorFrameTooLong | open62541_mqtt/src/ua_securechannel.c:365-382 | otherwise there are contents, the same for every state of the chunk list, on which the loop does not end |
| ChunkNumbers.StepsAre | open62541_mqtt/src/ua_securechannel.c:345-356 | the accepted steps: plus one modulo 2^32, or from at least 4294966271 to below 1024 |
| ChunkNumbers.TraceAccepts | open62541_mqtt/src/ua_securechannel.c:345-356 | over any trace of the receiver the stored number is the one accepted last |
| ChunkNumbers.NoRepeats | open62541_mqtt/src/ua_securechannel.c:345-356 | between two rollovers accepted numbers count up by one, so none repeats |
| ChunkNumbers.RolloversAreFarApart | open62541_mqtt/src/ua_securechannel.c:349-350 | more than 4294965247 chunks are accepted from one rollover to the next |
| ChunkNumbers.CountingSender | open62541_mqtt/src/ua_securechannel.c:171 | a sender that adds one per chunk is accepted for ever |
| ChunkTransport.OneChunk | open62541_mqtt/src/ua_securechannel.c:363-454 | one encoded chunk does to the channel what it does to a map from requests to pieces |
| ChunkTransport.WholeBuffer | open62541_mqtt/src/ua_securechannel.c:358-457 | a buffer of whole chunks is processed to its end |
| ChunkTransport.Segmented | open62541_mqtt/src/ua_connection.c:124-154 | after any segments the channel has processed exactly the chunks that are whole |
| ChunkEndToEnd.ActsKeep | open62541_mqtt/src/ua_securechannel.c:125-250 | after any actions of the sender, what has been received and what is still to be emitted make up every message under way |
| ChunkEndToEnd.EndToEnd | open62541_mqtt/src/ua_securechannel.c:125-457 | the callback fires once per message that was not aborted, in the order of final chunks, with exactly its payload |
| ChunkEndToEnd.SentIsWire | open62541_mqtt/src/ua_securechannel.c:125-194 | what the sending method emits is the wire image used above |
| ChunkEndToEnd.Deliver | open62541_mqtt/src/ua_connection.c:124-154 | segments through the two C functions do what the model of the receiver does, also when calls fail |
| Calendar.SecsToTm | open62541_mqtt/deps/libc_time.c:15-85 | the fields are a date and time that exist and whose seconds are t, with the right day of the year and week, exactly if t is between the two bounds; otherwise tm is left alone; the year stored fits an int exactly if t is before the third bound |
| Calendar.FindCycles | open62541_mqtt/deps/libc_time.c:39-56 | any number of days, negative too, is split into cycles without loss |
| Calendar.FindMonth | open62541_mqtt/deps/libc_time.c:64-65 | the loop stops within the twelve entries |
| Calendar.SecondsDecide | open62541_mqtt/deps/libc_time.c:70-82 | no other date and time has the same number of seconds |
| Calendar.MarchOfCycles | open62541_mqtt/deps/libc_time.c:39-62 | the cycles count the days that the Gregorian rule counts |
| Calendar.YearStep | open62541_mqtt/deps/libc_time.c:11-13 | the closed form counts 366 days for leap years and 365 for others |
| Calendar.BoundsDecide | open62541_mqtt/deps/libc_time.c:23-25 | the bounds are those of the times with a date whose year, counted from March, fits an int, and of these, the times whose year itself fits |
| Calendar.YearOverflows | open62541_mqtt/deps/libc_time.c:67-75 | midnight of the 1 January after the last year of 32 bits is accepted, and tm_year overflows |
| HashLittle.HashLittle | json-c/linkhash.c:251-428 | whatever the address and the memory around the key, the hash is one function of its bytes and the seed |
| HashLittle.HashWords | json-c/linkhash.c:260-312 | the 32-bit path with its masks computes it |
| HashLittle.HashHalves | json-c/linkhash.c:336-381 | the 16-bit path computes it |
| HashLittle.HashBytes | json-c/linkhash.c:383-424 | the byte path computes it |
| HashLittle.MixIsBijection | json-c/linkhash.c:134-185 | mix is reversible |
| HashLittle.FinalIsBijection | json-c/linkhash.c:212-221 | final is reversible |
| HashLittle.HashOfA | json-c/linkhash.c:251-428 | the hash of the key of one letter a with seed 0, a literal |
| HashLittle.HashOfSentence | json-c/linkhash.c:251-428 | the hash of a key of 30 bytes with seed 0, through two rounds of mix and one of final, a literal |
| Mqtt.LengthRoundTrip | open62541_mqtt/src/MQTTPacket.c:265-320 | decoding an encoded length gives it back and consumes its bytes exactly if it is at most 268435455 |
| Mqtt.Encode | open62541_mqtt/src/MQTTPacket.c:265-281 | the digits of the length are written and nothing else |
| Mqtt.Network.DecodeLength | open62541_mqtt/src/MQTTPacket.c:290-320 | the loop over socket bytes stops after at most four and leaves the rest |
| Mqtt.IntRoundTrip | open62541_mqtt/src/MQTTPacket.c:328-334 | reading what writeInt wrote gives the number modulo 65536 |
| Mqtt.WriteInt | open62541_mqtt/src/MQTTPacket.c:417-423 | two bytes are written and nothing else |
| Mqtt.PublishFrom | open62541_mqtt/src/MQTTPacket.c:482-505 | topic, message id and payload of a packet, or NULL if the topic does not fit |
| Mqtt.ParsedInside | open62541_mqtt/src/MQTTPacket.c:496-501 | the payload length is negative exactly if the packet has no room for the message id |
| Mqtt.BodyRoundTrip | open62541_mqtt/src/MQTTPacket.c:672-719 | parsing the body that was sent gives the structure back exactly if the topic has no NUL and at most 65535 bytes |
| Mqtt.PacketRoundTrip | open62541_mqtt/src/MQTTPacket.c:95-163 | a packet comes out as it went in, and the stream continues behind it, exactly if the topic is good and the length can be encoded |
| Mqtt.PacketTable | open62541_mqtt/src/MQTTPacket.c:71-88 | by the literal numbers of the packet types: what every packet is read as, acknowledgements with their message id |
| Mqtt.Examples | open62541_mqtt/src/MQTTPacket.c:71-88 | a PUBACK of four bytes, and a length of two |
| Mqtt.StreamRoundTrip | open62541_mqtt/src/MQTTPacket.c:95-163 | any number of packets in a row are read as they were sent |
| Mqtt.Network.Sends | open62541_mqtt/src/MQTTPacket.c:221-256 | header, length and buffers go out in this order |
| Mqtt.Network.SendPublish | open62541_mqtt/src/MQTTPacket.c:672-719 | the packet of the structure goes out |
| Mqtt.Network.Factory | open62541_mqtt/src/MQTTPacket.c:95-163 | one packet is read from the stream |
| JsonPointer.TwoPassesAreOne | json-c/json_pointer.c:99-101 | replacing all ~1 and then all ~0 is decoding from left to right, for every string |
| JsonPointer.UnescapeUndoes | json-c/json_pointer.c:99-101 | the two passes undo the escaping of every key (section 4 of RFC 6901) |
| JsonPointer.UnescapeFixes | json-c/json_pointer.c:99-101 | they change exactly the tokens with an escape sequence |
| JsonPointer.IndexMeans | json-c/json_pointer.c:41-80 | an index is accepted exactly if it is the decimal number of an element without leading zeros, or empty, which reads as 0 |
| JsonPointer.IndexErrors | json-c/json_pointer.c:41-80 | which error for which token that is no index |
| JsonPointer.StepErrors | json-c/json_pointer.c:82-109 | when a lookup fails, and with which error |
| JsonPointer.GetIsFold | json-c/json_pointer.c:137-170 | the recursion is the fold of the lookups over the tokens |
| JsonPointer.TokensOfJoin | json-c/json_pointer.c:145-154 | cutting at slashes gives back the tokens that were joined |
| JsonPointer.EscapedKeysLead | json-c/json_pointer.c:82-170 | the escaped keys of nested objects lead where the keys lead, whatever characters they contain |
| JsonPointerSet.GetAfterSet | json-c/json_pointer.c:111-135 | what a get finds under the pointer of a successful set |
| JsonPointerSet.SetIsFound | json-c/json_pointer.c:230-273 | when that is the value stored, for all trees, pointers and values |
| JsonPointerSet.SetSucceeds | json-c/json_pointer.c:230-273 | a set succeeds exactly if the pointer is empty, or all tokens but the last lead to a container in which the last one names a place |
| JsonPointerSet.ParentAfterSet | json-c/json_pointer.c:111-135 | after a set the container has the value in the place that the token names, at any depth, and is otherwise as before |
| JsonPointerSet.DashAppends | json-c/json_pointer.c:119-120 | a set under - succeeds and appends, and a get under the number of the new element finds the value |
| JsonPointerSet.SetErrors | json-c/json_pointer.c:230-273 | with which error a set fails |
| JsonPointerSet.GetErrors | json-c/json_pointer.c:172-197 | with which error a get fails before it looks up anything |
| JsonPointerSet.SetElsewhere | json-c/json_pointer.c:230-273 | a set changes nothing that diverging pointers lead to |
| JsonPointerBuffer.ReplaceAll | json-c/json_pointer.c:28-39 | the string in the buffer becomes the replaced one, and no byte outside it changes |
| JsonPointerBuffer.IsValidIndex | json-c/json_pointer.c:41-80 | the checks and their errors |
| JsonPointerBuffer.GetSinglePath | json-c/json_pointer.c:82-109 | one lookup; only the segment itself is rewritten |
| JsonPointerBuffer.GetRecursive | json-c/json_pointer.c:137-170 | unescaping the segments in one shared buffer never disturbs later ones |
| JsonPointerBuffer.JsonPointerGet | json-c/json_pointer.c:172-197 | get on a copy of the path |
| JsonPointerBuffer.JsonPointerSetPath | json-c/json_pointer.c:230-273 | set: the parent of all but the last token, then the last token as it stands |

## Left out

- Doubles: a number text with a fraction or exponent is kept as its text, and whether strtod accepts it is a parameter of the tokener; two doubles are equal here if their texts are. NaN and Infinity texts are states of the machine but not of the round trip.
- GrammarSound.Accepts: leaves out the successes of a tokener that is not strict which stop at a NUL inside a comment (`InnerValueReturned` shows one); floating point numbers are in the grammar, but which of them strtod reads is the parameter.
- JsonEqual.JsonObjectEqual: does not model the shortcut for two equal pointers, because values have no addresses; the result is the same for every value without NaN.
- Custom serializers, user data, deep copies, sorting and searching with callbacks, formatted appending: function pointers and libc.
- Allocation failure, int overflow of buffer sizes near 2^31, wrap-around of idx + count in array_list_del_idx, and threads: sizes are unbounded and allocation succeeds.
- Locales, the visitor, the file functions, random seeds and the other string hash of json-c.
- ObjectStore.Store.New: does not reuse addresses that have been given back, because an address here is the number of an allocation.
- ObjectStore.Store.ObjectAdd: does not say whether the key is copied; k_is_constant is modelled in the hash table only.
- ObjectStore.Store.ArrayPutIdx: after a deletion it is for indices up to the length, because behind it the C array has stale pointers; what happens there is stated about ArrayList.
- HashLittle.HashWords: models the masked reads; the variant for memory checkers, which reads the tail by bytes, is not modelled, nor are big-endian machines.
- Calendar.SecsToTm: from the third bound on (`YearOverflows`) the C code overflows an int; the model has the mathematical year there.
- SecureChannelClass.SecureChannel.EncodeBinary: the encoders are not modelled; a message is the list of the buffers that they fill and the status they end with. Sending and getting a buffer succeed, and the channel has a connection.
- SecureChannelClass.SecureChannel.ProcessChunks: is for buffers on which the C loop ends; `ReceiveEnds` and `ErrorFrameEnds` say which do, and `StuckIsForever` is about the others.
- ChunkProgress.ReceiveEnds: is one direction; the exact condition is stated for a buffer of one error frame (`ErrorFrameEnds`), not for several frames with error messages among them.
- ChunkFraming.StreamFraming: is about streams without garbage; with garbage the result depends on the segments, and only one call is described.
- ChunkEndToEnd.EndToEnd: one token during the run; renewal of tokens is in the methods. A request that is under way is not started again.
- ChunkEndToEnd.Deliver: is for segments on which the loop over the chunks ends; on others the C code does not return.
- Mqtt.Network.Factory: a packet that has not come completely gives an error here; the queueing of partial packets is in Socket.c, which is not part of this model, and so are persistence and the packets read in MQTTPacketOut.c. The bit layout of the header byte is that of section 2.2 of MQTT 3.1.1.
- JsonPointerBuffer.JsonPointerSetPath: returns the new tree instead of changing shared objects, so two places that share one object are not seen to change together; the formatted variants and errno of allocation are left out.
- Sockets, select loops, clients, bridge configuration, generated OPC UA types, access control, logging and versions.
