# Models and proofs for the yeti LNP resolver

The resolver takes small datagrams, asks a driver (a local table, a SIP redirect server or an HTTP
service) for the answer, sends a provisional and a final reply, and writes tagged answers to a
database from a separate thread. Its HTTP drivers speak JSON through the bundled cJSON; its
configuration is read by the bundled libConfuse. This project models those parts in Dafny and proves
what they promise:

- **JSON text** (`Bytes`, `Unicode`, `JsonNumber`, `JsonValue`, `JsonGrammar`, `JsonParse`,
  `JsonComplete*`, `JsonSound`, `JsonLanguage`, `JsonRender`, `JsonLayout`, `JsonRoundTrip`,
  `JsonTheorems`, `JsonStringSize`). Two grammars, that of RFC 8259 and the wider one cJSON takes, are
  given as derivation trees that know their text and their meaning but nothing of the parser. The parser
  accepts exactly the texts of the wider grammar that fit the nesting limit, with that meaning; printing and
  parsing undo each other; the size estimate of the string decoder is sufficient on malformed input too.
- **The parser and printer as written** (`ParseBuffer`, `JsonParser`, `PrintBuffer`): objects with an
  offset, a depth and a buffer that is replaced while it grows, proved equal to the functions above.
- **JSON trees in memory** (`JsonHeap`, `JsonTree`, `JsonView`, `JsonGrove`, `JsonParser`, `JsonReference`,
  `JsonDuplicate`, `JsonEdit`, `CnamDriver`): an explicit heap of nodes and strings. Freeing what is not
  allocated would violate a precondition, so a verified deletion frees nothing twice; the heap equations say
  that it frees everything it owns. The parser links what it reads and deletes it again when it fails; child
  lists stay doubly linked under any run of edits; the CNAM driver's handling of a request and of a reply,
  wrapping by reference included, leaves the memory as it was.
- **Comparison** (`JsonCompare`) against a meaning in which objects are unordered maps.
- **The request protocol** (`Wire`, `ErrorBody`, `Protocol`, `ProtocolProofs`, `ProtocolRuns`,
  `ProtocolFates`, `ProtocolReplies`, `Resolver`): the datagram codec with its one-byte sizes, and the
  resolver as a state machine whose environment (drivers, HTTP client, reloads) may do anything at any step;
  who is told what, how often and in which words, and what is cached, for every run.
- **The cache queue** (`CacheQueue`, `CacheStop`, `CacheWriter`): any number of producers, the writer and the
  stopper, interleaved action by action, with a wake flag beside the queue, and what each turn of the
  writer's loop achieves.
- **Configuration values** (`ConfuseOption`, `ConfuseObject`, `ConfuseParser`, `ConfuseReader`,
  `ConfuseGrammar`, `ConfuseComplete`, `ConfuseSound`, `ConfuseTheorems`, `ConfuseRuns`): the token
  machine with its reset flag and value count against statements that have a meaning of their own; all-or-nothing
  setting of many values; titled sections as an ordered map.
- **Url templates** (`UrlTemplate`).

Each imperative method is proved equal to a function, and the theorems are about the functions; a
`...Buffer`, `...Object`, `...Reader`, `Heap`, `Cache` or `Resolver` class has the fields the code
updates. `dafny verify dfyconfig.toml` checks everything.

## What the proofs found

Where the code falls short of a plain reading of its promise, the model keeps the code and the exact
condition is proved.

- A tree whose object repeats a key with different values does not compare equal to its own copy
  (`JsonCompare.RepeatedKeyIsNotEqualToItself`); it does
  exactly when it does not contradict itself under a repeated key (`JsonDuplicates.CopyComparesEqual`).
- The note at src/libs/cJSON.h:160 asks callers of `cJSON_PrintPreallocated` for five bytes more than
  needed; two are necessary and sufficient (`PrintBuffers.PrintPreallocated`).
- A tagged reply whose number and tag exceed 255 bytes together cannot be read back, and an error text
  with a quote or a backslash is never read back as it was (`Wire.TaggedReplyRoundTrip`,
  `ErrorBodies.ErrorBodyRoundTrip`).
- A reply nested 1000 deep is accepted, but its wrapper is one level too deep for the same parser
  (`JsonReferences.WrapperIsReadBack`).
- A request handed to the HTTP client is answered twice when the client throws although its identifier was
  free, and never when the identifier is already waiting and the client does not throw
  (`ProtocolRuns.AnsweredTwiceAndNever`); in all other cases it is answered once
  (`ProtocolFates.AnsweredOnceIf`).
- The writer may take the wake flag down after the stopper set it, and then sleeps until its time runs
  out although stop was requested (`CacheQueue.StopSignalCanBeLost`); it can exactly when, as the flag is set,
  it is on its way to take it down (`CacheStop.StopSignalIsLostIf`).
- A refused `cfg_opt_setmulti` puts the values back but not a pending reset, so the next setting
  appends to the defaults (`ConfuseOptions.LostResetAppends`); the rollback is complete exactly when no reset
  was pending (`ConfuseOptions.RollbackIsCompleteUnlessResetWasPending`).
- Strings are read twice, and the two readings part when a quote or a backslash stands among the four bytes
  after `\u`; such strings are accepted, and may end on half an escape (`JsonSound.StringHasChars`).
- A configuration section that is still open at the end of the file is accepted
  (`ConfuseComplete.OpenBlockIsRead`).

## Model

| member | source | states |
|---|---|---|
| `JsonLanguage.AcceptedTexts` | src/libs/cJSON.c:1010-1087 | a C string is accepted, with this value and this parse end, if and only if the wide grammar spells it so, nested at most 1000 deep: with `require_null_terminated` only white space may follow the value, without it anything, a number at the top then taking the longest token that stands there |
| `JsonLanguage.LongestIsRead` | src/libs/cJSON.c:276-350 | a number token in front of other bytes is what the parser reads there if and only if no longer number of the grammar starts at the same place |
| `JsonSound.ValueHasTree` | src/libs/cJSON.c:1222-1274 | whatever the value reader reads, in any text, at any place and depth, is the text of a derivation tree and ends where the tree does |
| `JsonSound.StringHasChars` | src/libs/cJSON.c:708-834 | a string that is read is closed in the eyes of the first scan and a sequence of characters in the eyes of the decoding pass, which may end on a backslash that runs into the closing quote |
| `JsonSound.NumeralHasToken` | src/libs/cJSON.c:276-350 | what strtod takes of a token is a number of the wide grammar, with the value strtod gives it |
| `JsonTheorems.StandardTextIsRead` | src/libs/cJSON.c:1010-1087 | a text of RFC 8259 whose numbers fit the 63 characters of the scratch buffer is read as exactly the value the standard's grammar gives it, if and only if it nests at most 1000 deep and spells no NUL inside a string |
| `JsonTheorems.DocumentIsRead` | src/libs/cJSON.c:973-1087 | for the wider grammar cJSON takes (any byte from 1 to 32 as white space, control characters in strings, any four bytes after `\u`, leading zeros, a byte order mark) the value is that of the tree with strings cut at their first NUL; a text nested deeper is refused |
| `JsonTheorems.RoundTrip` | src/libs/cJSON.c:1010-1274 | parsing what was printed, formatted or not, with and without `require_null_terminated`, gives the same tree back, member order and duplicate keys included, if it nests at most 1000 deep, and is refused otherwise |
| `JsonTheorems.PrintedTextIsStandard` | src/libs/cJSON.c:1277-1727 | printed text is a text of RFC 8259 and denotes the value that was printed |
| `JsonTheorems.ParsedTreesAreBounded` | src/libs/cJSON.c:1351-1613 | whatever the bytes, a tree that comes back is nested at most 1000 deep, its strings hold no NUL, and the parse ends inside the text |
| `JsonCompleteTree.TreeIsRead` | src/libs/cJSON.c:1222-1274 | at any place and depth the value reader takes the whole text of a derivation tree as the value it denotes when it fits under the limit, and refuses it when it does not |
| `JsonCompleteTree.ElementsAreRead` | src/libs/cJSON.c:1351-1442 | the same for the elements of an array up to the bracket, in order |
| `JsonCompleteTree.EntriesAreRead` | src/libs/cJSON.c:1507-1613 | the same for the members of an object up to the brace, in order and with repeated keys |
| `JsonComplete.StringIsRead` | src/libs/cJSON.c:708-834 | a string of the grammar is read as the bytes its characters mean, whatever follows it |
| `JsonCompleteNumber.NumberIsRead` | src/libs/cJSON.c:276-350 | a number token of at most 63 characters is read whole, as the exact decimal value the grammar gives it, which the code rounds to a double |
| `JsonGrammar.RfcIsWellFormed` | src/libs/cJSON.c:973-991 | the standard's grammar is a part of the one the parser accepts; in particular no string of the standard is closed early by the first scan |
| `JsonParse.SkipWs` | src/libs/cJSON.c:973-991 | the skipping stops on the first byte above 32 or on the last byte of the text, and never behind it |
| `JsonNumber.DigitsRoundTrip` | src/libs/cJSON.c:484-547 | the decimal digits printed for an integer mean that integer |
| `JsonNumber.DecimalSpells` | src/libs/cJSON.c:484-547 | the decimal text of an integer is its only numeral without leading zeros, read back by place value |
| `JsonNumber.ValueIntTruncates` | src/libs/cJSON.c:331-344 | the integer beside a number is the number without its fraction, toward zero, and beyond the range of `int` the nearer end, and no other integer is |
| `JsonValue.CutIsIdentity` | src/libs/cJSON.c:812-822 | reading strings as C strings changes a value exactly when one of them holds a NUL |
| `JsonRoundTrip.TreeSpells` | src/libs/cJSON.c:1277-1727 | every rendering, compact or formatted, has a derivation tree that spells it byte for byte |
| `JsonRoundTrip.TreeDenotes` | src/libs/cJSON.c:1277-1727 | and that tree denotes the value rendered |
| `JsonRoundTrip.EscapeIsShortest` | src/libs/cJSON.c:905-950 | of all spellings RFC 8259 has for a byte the printer writes a shortest one, in small letters |
| `JsonLayout.RenderingIsLayout` | src/libs/cJSON.c:1445-1727 | formatted text is the value's tokens with white space that depends only on the brackets open and the token before: a line per member indented by the brackets around it, a space between items, a tab behind a colon, a line for each closing brace; compact text is the tokens alone |
| `Unicode.Utf8RoundTrip` | src/libs/cJSON.c:638-699 | a strict reader of UTF-8 recovers the code point from the bytes written, for every scalar value |
| `Unicode.LiteralRoundTrip` | src/libs/cJSON.c:587-645 | a scalar value spelled as one escape or as a surrogate pair, in digits of either case, is read back and consumes all of its escapes |
| `Unicode.RefusedExactlyWhenUnpaired` | src/libs/cJSON.c:587-645 | with well-formed digits the decoder refuses exactly the surrogates that do not pair up |
| `Unicode.ParseHex4` | src/libs/cJSON.c:550-583 | the digit loop computes the value of four digits, and zero when one of them is not hexadecimal |
| `Unicode.HexFoldIsHex4` | src/libs/cJSON.c:550-583 | shifting a nibble per digit gives the value the digits have by place |
| `Unicode.Utf16LiteralToUtf8` | src/libs/cJSON.c:587-705 | the decoder writes the UTF-8 bytes of the code point its escape stands for at its place in the output, nothing before it, and nothing at all on failure |
| `Unicode.WriteUtf8` | src/libs/cJSON.c:656-699 | writing last byte first with shifts and masks yields the same bytes as the encoding of section 3 of RFC 3629 |
| `Unicode.MasksAreSums` | src/libs/cJSON.c:656-699 | the masks of the source and the sums of the model agree on every code point |
| `JsonStringSize.AllocationSuffices` | src/libs/cJSON.c:722-747 | the size estimated by the first scan exceeds the decoded output and its NUL for every string with a closing quote, also where malformed escapes put scan and decoding out of step |
| `JsonStringSize.TurnKeepsFit` | src/libs/cJSON.c:754-812 | one turn of the decoding pass keeps the bytes written within the bytes read less the escapes counted |
| `JsonStringSize.DecodedFits` | src/libs/cJSON.c:754-812 | so does the whole pass from any place in it |
| `ParseBuffers.ParseBuffer.SkipWhitespace` | src/libs/cJSON.c:973-991 | the loop stops where `SkipWs` says, stepping back from the end of the buffer |
| `ParseBuffers.ParseBuffer.ParseNumber` | src/libs/cJSON.c:276-350 | the token copied into the 64-byte scratch buffer is read as a numeral, exactly and without rounding, and the offset moves by the characters used |
| `ParseBuffers.ParseBuffer.ParseString` | src/libs/cJSON.c:708-834 | scan, allocation and decoding give the specified string and offset; every write is inside the allocation |
| `ParseBuffers.ParseBuffer.DecodeInto` | src/libs/cJSON.c:754-812 | the decoding loop fills the output with the specified bytes, and on failure leaves the offset at the escape |
| `JsonParsers.ParseWithOpts` | src/libs/cJSON.c:1010-1087 | the parser that builds the tree in memory: on success the heap has gained one tree, linked both ways, sharing nothing with what was there, and it says the specified value; on failure the heap is what it was and the error position the specified one |
| `JsonParsers.ParseValue` | src/libs/cJSON.c:1222-1274 | the dispatch on the first byte fills a blank node with the specified value, or leaves nothing behind on failure |
| `JsonParsers.ParseArray` | src/libs/cJSON.c:1351-1442 | the array's node gets the elements as its children in order, or none of them is left when one fails |
| `JsonParsers.ParseElements` | src/libs/cJSON.c:1384-1442 | the element loop grows a doubly linked list that says what the specification reads; on failure all of it is deleted |
| `JsonParsers.ParseObject` | src/libs/cJSON.c:1507-1613 | the object's node gets the members as its children in order, or none of them is left when one fails |
| `JsonParsers.ParseMembers` | src/libs/cJSON.c:1538-1613 | the member loop does the same with keys; on failure nodes, values and keys are deleted |
| `JsonParsers.ParseMember` | src/libs/cJSON.c:1563-1588 | the key read as a string value is moved to the key field, the colon is passed, and the value fills the same node |
| `JsonParsers.Discard` | src/libs/cJSON.c:1435-1441 | deleting the list built so far gives back the heap from before it |
| `JsonGroves.LastFilled` | src/libs/cJSON.c:1387-1416 | filling in the value of the last node keeps the list before it whole, separate and of the same meaning |
| `JsonGroves.GroveCleared` | src/libs/cJSON.c:224-245 | a list that was built and is deleted again leaves exactly the heap it was built in |
| `PrintBuffers.Print` | src/libs/cJSON.c:1097-1199 | whatever the reallocations, the text returned is the rendering and its NUL, unless the rendering and two bytes exceed the largest `int` |
| `PrintBuffers.PrintPreallocated` | src/libs/cJSON.c:1202-1219 | succeeds if and only if the caller's buffer holds two bytes more than the rendering, which it then holds with its NUL |
| `PrintBuffers.PrintBuffer.Ensure` | src/libs/cJSON.c:383-468 | says yes exactly when the bytes and one more fit the limit, and keeps everything written before the offset |
| `PrintBuffers.PrintBuffer.UpdateOffset` | src/libs/cJSON.c:471-481 | lands on the end of the C string that stands at the offset |
| `PrintBuffers.PrintBuffer.PrintStringPtr` | src/libs/cJSON.c:837-956 | one request for room covers the escaped string; the quoted, escaped text and its NUL stand at the offset |
| `PrintBuffers.PrintBuffer.PrintNumber` | src/libs/cJSON.c:484-547 | the decimal text of an integer below 10^15 in size is copied and the offset moved past it |
| `PrintBuffers.PrintBuffer.PrintValue` | src/libs/cJSON.c:1277-1348 | prints the rendering of a value at the buffer's depth, exactly when it fits |
| `PrintBuffers.PrintBuffer.PrintArray` | src/libs/cJSON.c:1445-1504 | prints the rendering of an array, exactly when it fits |
| `PrintBuffers.PrintBuffer.PrintObject` | src/libs/cJSON.c:1616-1727 | prints the rendering of an object, exactly when it fits |
| `PrintBuffers.EscapeLength` | src/libs/cJSON.c:855-890 | the count of extra characters is exactly what escaping adds |
| `PrintBuffers.NothingToEscape` | src/libs/cJSON.c:896-905 | when it is zero the string is copied unchanged |
| `JsonCompare.CompareIsMeaning` | src/libs/cJSON.c:2840-2963 | two trees compare equal if and only if they mean the same, objects read as unordered maps, and neither contradicts itself under a repeated key |
| `JsonCompare.CompareIsPartialEquivalence` | src/libs/cJSON.c:2840-2963 | on all trees comparison is symmetric and carries over |
| `JsonCompare.CompareOnDistinctKeys` | src/libs/cJSON.c:2840-2963 | on trees whose objects have distinct keys it is exactly equality of values, and so an equivalence |
| `JsonCompare.RepeatedKeyIsNotEqualToItself` | src/libs/cJSON.c:2922-2955 | a tree with a repeated key whose copy does not compare equal to it |
| `JsonCompare.CompareTrees` | src/libs/cJSON.c:2840-2963 | the recursion computes `Compare` |
| `JsonCompare.FindAll` | src/libs/cJSON.c:2922-2955 | the member loop looks up every member of one object in the other |
| `JsonCompare.GetObjectItem` | src/libs/cJSON.c:1782-1812 | the loop returns the first member whose key matches |
| `JsonCompare.FoldIgnoresCase` | src/libs/cJSON.c:103-124 | keys are matched when they differ in the case of ASCII letters at most, or exactly when case counts |
| `JsonCompare.CaseInsensitiveStrcmp` | src/libs/cJSON.c:103-124 | the byte loop gives zero exactly for two such strings |
| `JsonHeaps.Heap.GetArrayItem` | src/libs/cJSON.c:1753-1770 | walking the links reaches the item at the index, or null |
| `JsonHeaps.Heap.AddItemToArray` | src/libs/cJSON.c:1858-1885 | appending appends the item, and whatever still hangs on it, to the sequence of children, keeps it linked both ways, and touches no node but the parent, the last child and the item; a missing parent or item changes nothing |
| `JsonHeaps.Heap.InsertItemInArray` | src/libs/cJSON.c:2155-2181 | inserting inserts before the index, whatever links the item came with, or appends when there is no such item; a negative index changes nothing |
| `JsonHeaps.Heap.DetachItemViaPointer` | src/libs/cJSON.c:2085-2113 | detaching removes exactly this item and leaves it with null links |
| `JsonHeaps.Heap.Exchange` | src/libs/cJSON.c:2184-2213 | the relinking of a replacement, whatever links it came with, puts it in the item's place and leaves the item with null links |
| `JsonHeaps.LinkInserted` | src/libs/cJSON.c:2173-2181 | the pointer writes of an insertion give a doubly linked list of the new sequence |
| `JsonHeaps.LinkRemoved` | src/libs/cJSON.c:2085-2113 | so do those of a removal |
| `JsonHeaps.LinkExchanged` | src/libs/cJSON.c:2196-2213 | and those of a replacement |
| `JsonHeaps.LinkAppended` | src/libs/cJSON.c:1830-1835 | and those of an append |
| `JsonViews.ReplaceItemViaPointer` | src/libs/cJSON.c:2184-2217 | the heap afterwards is the relinked heap less exactly the nodes and strings of the replaced item's tree, and the list holds the replacement; null arguments or an item replaced by itself change nothing |
| `JsonEdits.EditRun` | src/libs/cJSON.c:1858-1885 | over any run of appends, insertions, detachments and replacements the children of a node are the edited sequence, linked both ways; every tree that was not replaced keeps its nodes, contents and strings, in the list or loose, and the replaced ones are gone |
| `JsonEdits.EditOnce` | src/libs/cJSON.c:2085-2217 | one such edit, null and out-of-range cases included, does to the list of trees what the edit does to a sequence |
| `JsonEdits.OrchardCleared` | src/libs/cJSON.c:2209-2217 | deleting a loose tree leaves the list and all the other trees as they were |
| `JsonTrees.Delete` | src/libs/cJSON.c:224-245 | deleting a list frees every node and string it owns, each once, and leaves the rest of the heap alone; references free neither children nor string, constant keys stay |
| `JsonTrees.DeleteTree` | src/libs/cJSON.c:224-245 | the same for one node and what is below it |
| `JsonTrees.OwnsFrame` | src/libs/cJSON.c:224-245 | what a tree owns rests on its own nodes and strings only, so deletions elsewhere leave it whole |
| `JsonViews.ShowsFrame` | src/libs/cJSON.c:1277-1348 | what a tree says rests on its nodes and strings, not on where its root is linked |
| `JsonDuplicates.Duplicate` | src/libs/cJSON.c:2564-2641 | the copy says the same, shares no node and no owned string with anything that was there, and leaves all of it unchanged |
| `JsonDuplicates.Grows` | src/libs/cJSON.c:2605-2627 | linking in the copy of the next child keeps the copies separate, linked and faithful |
| `JsonDuplicates.CopyComparesEqual` | src/libs/cJSON.c:2564-2641 | a copy compares equal to its original exactly when the original does not contradict itself under a repeated key, so always when keys are distinct |
| `JsonReferences.Read` | src/libs/cJSON.c:1277-1348 | following child and next pointers, through references too, finds the value of the tree |
| `JsonReferences.CreateReference` | src/libs/cJSON.c:1837-1856 | a reference shares child and string with the item, has no key and no links |
| `JsonReferences.AddItemToObject` | src/libs/cJSON.c:1909-1944 | the item gets a fresh copy of the key, its old key is freed if it owned it, and it is appended |
| `JsonReferences.WrapReply` | src/drivers/CnamHttpDriver.cpp:221-231 | afterwards the heap is exactly what it was, whatever the reply holds; for numbers that are printed as integers the text is that of an object holding the reply under one key |
| `JsonReferences.ParseReply` | src/drivers/CnamHttpDriver.cpp:214-231 | anything but an object is an error; either way exactly the reply's tree is freed in the end, whatever it holds |
| `CnamDrivers.Parse` | src/drivers/CnamHttpDriver.cpp:214-231 | a reply's body of any bytes is parsed into memory, wrapped, printed and freed, and leaves the heap as it was on every path; the raw data is the wrapper's text, or the error says whether the body was no JSON or no object |
| `CnamDrivers.Resolve` | src/drivers/CnamHttpDriver.cpp:184-204 | a request's data of any bytes gives the url its object fills the template to, or the error, and the parsed request is gone again |
| `JsonReferences.WrappedText` | src/drivers/CnamHttpDriver.cpp:224-227 | the wrapper's text is `{"response":`, the reply's own text, and `}` |
| `JsonReferences.WrapperIsReadBack` | src/drivers/CnamHttpDriver.cpp:224-230 | parsing that text gives the reply back under the one key if and only if the reply nests less than 1000 deep |
| `Wire.AcceptedIsWellSized` | src/resolver/Resolver.cpp:84-135 | an accepted datagram is one of the two layouts, with the sizes it states, and some bytes more |
| `Wire.TaggedRequestRoundTrip` | src/resolver/Resolver.cpp:84-135 | a tagged request is read back for any bytes behind it |
| `Wire.CnamRequestRoundTrip` | src/resolver/Resolver.cpp:84-135 | so is a CNAM request |
| `Wire.ResolverRequest.Parse` | src/resolver/Resolver.cpp:84-135 | the fields assigned one by one are those specified, also when the datagram is refused half way |
| `Wire.TaggedReplyRoundTrip` | src/resolver/Resolver.cpp:418-436 | a tagged reply gives number and tag back if and only if together they are at most 255 bytes |
| `Wire.TaggedErrorReplyRoundTrip` | src/resolver/Resolver.cpp:467-483 | an error reply gives code and text back if and only if the text is at most 255 bytes |
| `Wire.JsonReplyRoundTrip` | src/resolver/Resolver.cpp:438-451 | a CNAM reply gives its body back if and only if the size fits 32 bits |
| `Wire.BuildTaggedReply` | src/resolver/Resolver.cpp:418-436 | filling in the header and appending the texts gives the layout |
| `Wire.BuildJsonErrorReply` | src/resolver/Resolver.cpp:485-507 | so does the CNAM error reply |
| `ErrorBodies.ErrorBodyRoundTrip` | src/resolver/Resolver.cpp:485-507 | the cJSON parser reads code and reason back from an error body if and only if the reason has neither quote nor backslash |
| `ErrorBodies.ReasonIsReached` | src/resolver/Resolver.cpp:485-507 | whatever the reason, the parser gets to its opening quote, and only the right string there can give the right value |
| `ErrorBodies.SpecialReasonShrinks` | src/libs/cJSON.c:722-812 | a reason with a quote or a backslash comes back shorter, if at all |
| `ProtocolProofs.RunKeeps` | src/resolver/Resolver.cpp:210-398 | the invariant of the request protocol holds in every state of every run |
| `ProtocolProofs.StepKeeps` | src/resolver/Resolver.cpp:210-398 | every step keeps it, whatever drivers and HTTP client do |
| `ProtocolProofs.FinalPays` | src/resolver/Resolver.cpp:365-416 | sending the one final reply that is owed restores it |
| `ProtocolFates.AnsweredOnceIf` | src/resolver/Resolver.cpp:227-363 | whatever came before and comes after, a datagram has one final reply or one waiting place, never both, if and only if it is not handed to the HTTP client, or it is and the client throws exactly when the identifier was already waiting; twice exactly when the client throws though the identifier was free; never exactly when the identifier was waiting and the client does not throw |
| `ProtocolFates.AllAnsweredOnceIf` | src/resolver/Resolver.cpp:227-363 | over any run, every accepted datagram has exactly one of the two if and only if every one handed to the client meets that condition, and then accepted = final replies + waiting |
| `ProtocolFates.FateOfDatagram` | src/resolver/Resolver.cpp:227-363 | what is coming to a datagram is settled by the state it arrives in and its driver's call, and nothing that follows changes it; it has one pong |
| `ProtocolRuns.EveryDatagram` | src/resolver/Resolver.cpp:227-363 | in every run each accepted datagram has exactly one pong, before any final reply; final replies and waiting requests add up to what was settled for it; every packet goes to its own sender and carries its identifier |
| `ProtocolReplies.RunTells` | src/resolver/Resolver.cpp:227-507 | over any run the packets are, in order and once each, an acknowledgement for every accepted datagram and the messages the steps call for, to the sender and as a client reads them: number and tag or JSON body of the driver's answer, or code and text of the failure; the cache is handed exactly the answers of tagged drivers, in order and once each, under their database and the number asked for; and the counters count requests handed to drivers, answers and failures |
| `ProtocolReplies.StepSays` | src/resolver/Resolver.cpp:227-416 | the same for one step, from any state the protocol can be in |
| `ProtocolReplies.RefusalSays` | src/resolver/Resolver.cpp:80-135 | a datagram that is not accepted is answered once, with code 11 and the reason that fits it, in the layout of its type; one too short for an identifier is not answered |
| `ProtocolReplies.RunQueues` | src/drivers/modules/AsyncHttpClient.cpp:248-296 | over any run responses are handled first in, first out, once each, with the outcome and body their transfer brought |
| `ProtocolRuns.ExactlyOnce` | src/resolver/Resolver.cpp:227-363 | when submitted identifiers are not waiting and the client takes every transfer, accepted = final replies + waiting, reloads included, each request has one final reply unless it waits, and each waiting one has exactly one transfer under way |
| `ProtocolRuns.CountersNeverExceed` | src/resolver/Resolver.cpp:264-363 | in every run finished + failed + transfers under way never exceed the requests counted, with equality exactly when no transfer was refused, no response found no request and none found no driver |
| `ProtocolRuns.CountersAreExact` | src/resolver/Resolver.cpp:264-390 | the equality holds in clean runs whose reloads keep the drivers in use |
| `ProtocolRuns.AnsweredTwiceAndNever` | src/resolver/Resolver.cpp:284-290 | without those hypotheses one datagram can be answered twice and another one never |
| `Resolvers.Resolver.OnDataReceived` | src/resolver/Resolver.cpp:227-242 | a datagram is acknowledged, resolved and, on any error, answered as the step says |
| `Resolvers.Resolver.ResolveRequest` | src/resolver/Resolver.cpp:244-281 | the driver is looked up and the counters move as the step says |
| `Resolvers.Resolver.MakeHttpRequest` | src/resolver/Resolver.cpp:284-290 | the map keeps the entry it has for an identifier, and a refused transfer goes unnoticed |
| `Resolvers.Resolver.OnHttpResponseReceived` | src/resolver/Resolver.cpp:295-318 | a response takes its request out of the map and answers it |
| `Resolvers.Resolver.ParseResponse` | src/resolver/Resolver.cpp:320-363 | failed transfers, missing drivers and drivers that cannot parse each end as the step says |
| `Resolvers.Resolver.HandleRequestIsDone` | src/resolver/Resolver.cpp:365-398 | the answer is counted, cached when tagged, and sent |
| `Resolvers.Resolver.CheckMultiInfo` | src/drivers/modules/AsyncHttpClient.cpp:248-296 | a finished transfer moves to the response queue and is under way no longer |
| `Resolvers.Resolver.DrainResponses` | src/drivers/modules/AsyncHttpClient.cpp:451-467 | the loop handles every queued response in order and leaves none |
| `Resolvers.DrainIsRun` | src/drivers/modules/AsyncHttpClient.cpp:451-467 | draining is a run of the protocol |
| `Resolvers.Resolver.Configure` | src/resolver/Resolver.cpp:210-222 | drivers are replaced only when loading succeeded |
| `CacheQueue.NoLostWakeUp` | src/cache.cpp:78-158 | in every interleaving of any number of producers with the writer and the stopper, a queue with entries and the flag down means that some producer is between its push and its signal |
| `CacheQueue.FirstInFirstOut` | src/cache.cpp:78-158 | pushed = freed, then what the writer holds, then the queue, in order; each entry is offered to the database once, in push order, before it is freed |
| `CacheQueue.RunKeeps` | src/cache.cpp:78-158 | the invariant behind both holds in every reachable state |
| `CacheStop.WriteDropsOneEntry` | src/cache.cpp:133-140 | a write, failed or not, disposes of its own entry only, whatever producers and stopper do up to the next wake-up: offered once, freed once, the queue keeps all it held |
| `CacheStop.NothingIsWrittenInDoubt` | src/cache.cpp:86-116 | after a failed write or a check that found the connection broken nothing is taken or written, in any continuation, until a check finds it good |
| `CacheStop.StoppedWriterTakesNothing` | src/cache.cpp:78-84 | once stop is requested and the writer is back at its wait it takes no further entry in any continuation |
| `CacheStop.StopSignalIsLostIf` | src/cache.cpp:118-150 | in any reachable state in which the stopper may signal, some continuation takes the flag down again if and only if the writer then is on its way to take it down: it found the queue empty or took the last entry, or it passed the stop check with at most one entry queued and no broken connection to wait for |
| `CacheQueue.StopSignalCanBeLost` | src/cache.cpp:118-150 | a run in which it does, so that the writer waits out its time with stop requested |
| `CacheQueue.WaitUntil` | src/thread.h:94-107 | the deadline of a timed wait is now plus the milliseconds, with the nanoseconds normalised |
| `CacheWriters.Cache.Turn` | src/cache.cpp:78-142 | one turn of the loop, whatever the others do in between: its steps are those of the code in order; unless the wait goes on or a stop is seen or the connection is found broken when it had to be looked at, it takes exactly the front entry, offers it once and frees it, or finds the queue empty and takes the flag down; a stop seen ends the writer; nothing else takes anything |
| `CacheWriters.Cache.AfterWait` | src/cache.cpp:82-142 | the same from the end of the wait on |
| `CacheWriters.Cache.TakeFront` | src/cache.cpp:117-131 | the part under the queue's lock takes the front entry and no other, nobody pushing meanwhile, and takes the flag down exactly when nothing is left |
| `CacheWriters.Cache.WaitForTo` | src/thread.h:94-117 | the wait loop ends at the first wake-up that finds the flag up or the deadline passed, spurious wake-ups keep it waiting, and it says whether the flag was up |
| `CacheWriters.PassedIsNotBefore` | src/thread.h:94-117 | a clock has passed the deadline when it is no earlier in nanoseconds |
| `CacheWriters.Cache.Other` | src/cache.cpp:144-158 | pushes, signals and stop requests of the other threads happen exactly when they can, each as a single step |
| `ConfuseTheorems.ConfigurationIsRead` | third/confuse/src/confuse.c:1127-1410 | the parser accepts a token text if and only if it spells statements that mean something to the options, and leaves the options exactly as those statements say, nested sections included |
| `ConfuseTheorems.ValuesAreFold` | third/confuse/src/confuse.c:1226-1319 | the values of a text or boolean option are the fold of its statements: `=` replaces, `+=` appends, defaults included, in braced, bare, empty and trailing-comma form |
| `ConfuseTheorems.ParsedValuesAreFold` | third/confuse/src/confuse.c:1226-1319 | the same for the outcome of any successful parse |
| `ConfuseComplete.BracedIsRead` | third/confuse/src/confuse.c:1257-1319 | a braced list read in state 3, as defaults are, replaces or appends according to the reset flag, and an empty one after `=` empties the option |
| `ConfuseComplete.TailIsRead` | third/confuse/src/confuse.c:1257-1319 | from a separator on the values are appended in order up to the brace, with or without a last comma |
| `ConfuseComplete.StatementIsRead` | third/confuse/src/confuse.c:1166-1410 | reading a complete statement leads from option name to option name with the options as it says |
| `ConfuseGrammar.SectionIsPlaced` | third/confuse/src/confuse.c:665-840 | setting a section option gives the place a section statement means: the one section there is, or a new one with its defaults at the end or in place of the one of the same title, or a refusal of a repeated title |
| `ConfuseComplete.OpenBlockIsRead` | third/confuse/src/confuse.c:1153-1164 | a section that the end of the text cuts off is accepted as if it were closed |
| `ConfuseSound.AllWereRead` | third/confuse/src/confuse.c:1150-1410 | every text that is read consists of statements with a meaning, up to the closing brace or the end |
| `ConfuseComplete.CallIsRead` | third/confuse/src/confuse.c:1369-1410 | a function is called with the words between its parentheses, in order |
| `ConfuseRuns.SectionsAreAnOrderedMap` | third/confuse/src/confuse.c:1127-1410 | over any run of successful parses of whole texts, additions and removals the titled sections of a name are an insertion-ordered map, changed in order by the section statements each text holds and by the edits in between |
| `ConfuseRuns.TextOnSections` | third/confuse/src/confuse.c:1321-1367 | a whole text does to the sections of a name exactly its own section statements of that name, one after the other, and no other statement touches them |
| `ConfuseRuns.BlockWrites` | third/confuse/src/confuse.c:1321-1367 | a titled section statement is a write, under its title, of the section its body leaves |
| `ConfuseReaders.Activation.ParseInternal` | third/confuse/src/confuse.c:1127-1410 | the loop with its state, option, title and count variables, recursive for sections, computes the machine's outcome |
| `ConfuseReaders.Activation.ReadValue` | third/confuse/src/confuse.c:1257-1288 | state 2 with the reset flag and the number of values |
| `ConfuseOptions.SetMultiIsAllOrNothing` | third/confuse/src/confuse.c:893-922 | the call succeeds exactly when there are values and all of them convert; then a list holds them in order and a scalar the last; otherwise the values are the old ones |
| `ConfuseOptions.RefusalKeepsValues` | third/confuse/src/confuse.c:893-922 | for options of every kind a refusal puts the old values back |
| `ConfuseOptions.RollbackIsCompleteUnlessResetWasPending` | third/confuse/src/confuse.c:665-922 | a refusal leaves the whole option as it was if and only if no reset was pending (or no value was given) |
| `ConfuseOptions.LostResetAppends` | third/confuse/src/confuse.c:687-699 | what that costs: the next setting then appends to the defaults instead of replacing them |
| `ConfuseOptions.SettingOne` | third/confuse/src/confuse.c:665-858 | one setting is refused exactly when the word means nothing to the option; otherwise the meaning replaces under a pending reset, is appended to a list, or overwrites a scalar |
| `ConfuseOptions.ConvertIsMeaning` | third/confuse/src/confuse.c:520-533 | what the code stores is what the word means: a text option holds that very word, a boolean option yes for `true`, `on`, `yes` and no for `false`, `off`, `no`, letter by letter in any case, and refuses everything else |
| `ConfuseOptions.RunIsOrderedMap` | third/confuse/src/confuse.c:691-731 | over any run of section statements, additions and removals the titled sections are an insertion-ordered map: distinct titles, replacement in place or refusal, order kept by removal |
| `ConfuseOptions.DistinctTitlesMakeAMap` | third/confuse/src/confuse.c:691-731 | every titled multi section option with distinct titles is such a map, so the result above starts anywhere |
| `ConfuseOptions.WriteIsPut` | third/confuse/src/confuse.c:691-858 | a section statement puts its section under its title, and is refused exactly for a repeated title under NO_TITLE_DUPES |
| `ConfuseOptions.AddIsPut` | third/confuse/src/confuse.c:2166-2188 | adding is refused exactly when the title is there |
| `ConfuseOptions.RemoveAtIsDrop` | third/confuse/src/confuse.c:2190-2217 | removal by index drops the key at it and keeps the order of the rest |
| `ConfuseOptions.RemoveTitleIsDrop` | third/confuse/src/confuse.c:2229-2261 | removal by title fails exactly when the title is not there |
| `ConfuseObjects.CfgOpt.SetOpt` | third/confuse/src/confuse.c:665-858 | the option object changes as specified, also when the setting is refused half way |
| `ConfuseObjects.CfgOpt.SetMulti` | third/confuse/src/confuse.c:893-922 | the loop with its rollback computes `SetMulti` |
| `ConfuseObjects.CfgOpt.RmNSec` | third/confuse/src/confuse.c:2190-2217 | moving the tail down removes exactly one value |
| `ConfuseObjects.CfgOpt.RmTSec` | third/confuse/src/confuse.c:2229-2261 | the title loop and the removal |
| `ConfuseObjects.CfgOpt.AddTSec` | third/confuse/src/confuse.c:2166-2188 | the title look-up and the setting |
| `UrlTemplates.TemplateIsCompiled` | src/drivers/CnamHttpDriver.cpp:14-76 | a template compiles to given parts if and only if they are canonical and spell it, and fails with an error if and only if, behind parts that are in order, it goes wrong in that way |
| `UrlTemplates.TemplateProcessor.ParseUrlTemplate` | src/drivers/CnamHttpDriver.cpp:14-76 | the two-state scanner computes that |
| `UrlTemplates.TemplateProcessor.GetUrl` | src/drivers/CnamHttpDriver.cpp:78-113 | the loop joins the parts' texts, or fails on the first key that is missing or has no text |
| `UrlTemplates.UrlIsSubstituted` | src/drivers/CnamHttpDriver.cpp:78-113 | the url is this text if and only if it is the join of one text per part: a literal's own, and for a placeholder the text of the first member its key names but for case: a string up to its first NUL, the numeral of a number cut to an `int`, 1 and 0 for true and false |
| `UrlTemplates.FirstBadKeyFails` | src/drivers/CnamHttpDriver.cpp:78-113 | filling in fails on a key as missing, or as unsupported, if and only if all parts before its placeholder have texts and no member answers to it, or the first that does is null, an array or an object |
| `UrlTemplates.PlainTemplateIsItsUrl` | src/drivers/CnamHttpDriver.cpp:14-113 | a template without braces is the url of every request |

## Left out

- Floating point: a number is the exact decimal value of its token, where the code has the nearest double; printing is modelled for integers below 10^15 in size, where the formats of the code are plain decimal, and not for fractions, larger numbers, negative zero, NaN or infinity.
- JsonCompleteNumber.NumberIsRead: the value is the exact decimal, where strtod rounds to the nearest double.
- ParseBuffers.ParseBuffer.ParseNumber: the same; the field `valueint`, a function of the number, is computed where it is read, in filling in a url template.
- PrintBuffers.PrintBuffer.PrintNumber: integers below 10^15 in size only, as said above.
- JsonParsers.ParseWithOpts: the position of an error is the one the reading functions stop at; they are the only account of it.
- Locale decimal points, custom allocation hooks and allocation failure; the limits that `ensure` checks are kept.
- The printer's walk over pointers is modelled as reading the value first and printing it then.
- `cJSON_Raw` and `cJSON_Invalid` nodes, missing strings and keys, non-recursive duplicates, and the shortcut of comparison for one and the same pointer, for which two trees that share no node never qualify.
- JsonDuplicates.Duplicate: the source of a copy is linked as a tree; a cyclic list, on which the code would not return, is no input.
- JsonTrees.Delete: the items are those behind the given head, and no string or node is reached twice; the code asks the same of its callers.
- `cJSON_Minify`, `cJSON_PrintBuffered`, the array constructors and `cJSON_ReplaceItemInObject`: not used by the resolver.
- JsonReferences.WrapReply: the text is claimed for replies whose numbers print as integers; for the others only the memory is.
- Sockets, epoll, curl, threads' start and end, signals, logging and metrics: environment steps or nothing. Sending always succeeds.
- Drivers: what `resolve` and `parse` do is a parameter of a step, except for the CNAM driver's templates and wrapping; the other drivers' url building, SIP parameters and table files are thin.
- The counters of requests, failures and answers are kept per driver in the code and as totals in the model.
- The database: a connection check, a reconnection and a write each come out one way or the other; the check of the connection handle for null is part of that outcome.
- CacheQueue.NoLostWakeUp: the condition variable is modelled by its flag, read and set under its lock; fairness is not claimed.
- libConfuse's lexer: tokens are the input, with `Bad` for a lexical error; comments are skipped and not kept.
- libConfuse's unknown-option states 10 to 15, RAW sections, deprecated options, includes, search paths, validation and parse callbacks, simple values, case-insensitive names and titles, and option names that are paths through sections.
- Integer, float and pointer options: their conversions depend on a stale `errno` or on callbacks.
- ConfuseParsers.Parse: a failed parse leaves the options half changed in the code; the model keeps only that it failed.
- A function option's callback is a set of argument lists it turns down, and the history of its calls.
- A section option that takes one section without a default for it: the code runs the defaults over the existing section again when it is stated twice; the model leaves the section as it is.
- The option's comment, which `cfg_free_value` may free during a rollback, is not a field of the model.
- ConfuseOptions.RunIsOrderedMap: titles are given, never null, and compared with regard to case.
