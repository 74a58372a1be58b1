# A-Bus: its JSON, hash table and JSON-RPC core, modelled and proved

A-Bus is a local message bus that speaks JSON-RPC. This project models, in Dafny,
the four layers its messages pass through, and proves what each of them is for.

* **libjson** (`abus/libjson/json.c`). A parser that takes one byte at a time
  through a transition table, with a mode stack, an accumulation buffer, a delayed
  flush of numbers and names, a UTF-8 check and a decoder of UTF-16 escapes; and a
  printer that decides commas from two flags. The tables are in `JsonTables`, the
  parser as a function in `ParserSpec`, and the parser and printer as the objects
  they are in `JsonParsers` and `Printer`, whose methods are proved equal to those
  functions. `Layout` says what printed text looks like, without the printer's flags.
  `Grammar` says what a document is without any automaton: trees, their
  tokens (section 2 of RFC 4627), and the lexemes that spell them. The proof that
  the two agree goes through a pushdown machine over tokens (`TokenMachine`):
  every spelling is read (`ReadsLexemes`), and whatever is read is a spelling
  (`FindsLexemes`). `ParserTheorems`, `ParserRuns`, `ParserErrors`, `Unicode` and
  `PrintParse` draw the consequences.
* **The tree builder** (`json_parser_dom_callback` with `abus/libjson/jsondom.c`)
  is `Dom` as values and `DomTree` as nodes that grow in place.
* **The hash table** (`abus/hashtab`) is `Hashtab`, chained nodes relinked in place
  with a position; its node allocator is `Recycle` and its hash function `Lookupa`.
* **The JSON-RPC layer** (`abus/jsonrpc.c`): `RpcWriter` and `RpcRequest` build a
  request, `RpcReader` and `RpcHandle` are the state machine that a message is parsed
  into, `RpcTables` its parameters in the hash tables of `Hashtab`, and `RpcRoundTrip`
  composes building, printing, parsing, filling in and reading back. `RpcMessages` is
  about responses and about messages as text.
* **Asynchronous requests** (`abus/abus.c`) are `AsyncLifecycle`: invoke, response,
  cancel, wait and clean-up as steps of different threads, in any order and with any
  ids. What a responder or a canceller does under the request's mutex is two steps,
  since a wait's first test and a clean-up do not take that mutex.

## What the code decides differently from its documentation

* A number is read by the table, not by section 2.4 of RFC 4627: after a lone zero
  there is no exponent, so `0e5` is refused (`Grammar.IsNumber`,
  `ParserTheorems.ZeroExponentIsRefused`).
* A comment may stand wherever white space may, except directly after a number with
  an exponent, where the table has no edge for it (`Grammar.CommentsPlaced`,
  `ParserTheorems.CommentAfterExponentIsRefused`).
* The UTF-8 tables accept the lead bytes 0xc0 to 0xfd, more than RFC 3629 does;
  "well-formed" below means well-formed by these tables.
* With comments on, `json_parser_is_done` already says yes inside a comment before
  the document (`ParserTheorems.CommentIsDone`); `ParserTheorems.DoneMeansDocument` says
  when its yes is right.
* A batch of appends to an empty message begins with a comma that a scalar append
  would not write (`RpcWriter.BatchOnEmptyBuffer`). No call of the library leads to an
  empty message that has a buffer: both init functions write a head first. A handle that
  has made a synchronous invocation has an empty message and its buffer is gone
  (abus/abus.c:1227-1228); appending to it is not part of this model.
* String parameters are cut at a NUL (`RpcRoundTrip.StringComesBack`).
* The tree builder's stack is grown by bytes instead of elements, so it has room for 1024
  open structures and no more, while the loaders set no nesting limit:
  `Dom.ParsedTree` has that room as the exact condition.
* An error code that is a non-zero multiple of 2^32 passes for no error
  (`RpcRoundTrip.ErrorCodeIsZero`). With any other the error's members are kept, but
  asking for them is refused (`RpcMessages.CodeAndMessageAreRead`); and a member whose
  name is none of the protocol's makes the message a parse error
  (`RpcMessages.ErrorIsRead`).
* A key counts as every name of the protocol that it begins (`RpcMessages.KeysAbbreviate`),
  and so does a version (`RpcMessages.WrongVersionIsRefused`).
* A response can be missed. It is if and only if its request was tracked under an id
  in use, or another request with its id was cancelled or cleaned up while it was
  outstanding (`AsyncLifecycle.TrackedIsInOnePlace`, `SharedIdLosesBoth`). The bus
  counts its ids up, but without a lock, so client threads can get the same one.
* A wait that returns 0 does not make it safe to clean up. Its first test takes no
  mutex, so it can fall between the responder's clearing of `cb_context` and its
  unlocking; the responder then uses a request that is freed
  (`AsyncLifecycle.UnlockedWaitIsNotEnough`, `CompletedIsSafeIff`).

## Model

| member | source | states |
|---|---|---|
| `ParserSpec.AdvanceKeepsDigits` | abus/libjson/json.c:183-276 | for every table entry, when the action of a finished `\u` escape fires, the last four bytes in the buffer are hexadecimal digits |
| `ParserSpec.FeedAppend` | abus/libjson/json.c:725-787 | feeding a text in two parts is feeding it whole, errors included |
| `ParserRuns.ChunksDoNotMatter` | abus/libjson/json.c:725-787 | however a text is cut into chunks, the parser ends in the same state, with the same code and the same events |
| `TokenMachine.AcceptsEveryDocument` | abus/libjson/json.c:557-611 | the structural transitions, with the stack, take the tokens of every object or array within the nesting limit and tell its events |
| `TokenMachine.AcceptsOnlyDocuments` | abus/libjson/json.c:557-611 | they end with an empty stack exactly on the token sequences of such objects and arrays |
| `ReadsLexemes.FeedUnit` | abus/libjson/json.c:733-787 | every way to write a character in a string is accepted and appends that character's bytes |
| `ReadsLexemes.FeedNumber` | abus/libjson/json.c:200-208 | every number of the language is read to a number's end with its kind, int or float, and its text in the buffer |
| `ReadsLexemes.FeedString` | abus/libjson/json.c:591-599 | every string lexeme is accepted and tells its value once, as a key or a string as its place requires |
| `ReadsLexemes.ReadBlockComment` | abus/libjson/json.c:543-555 | a C comment tells what was pending and leaves the parser where it was before |
| `ReadsLexemes.ReadLineComment` | abus/libjson/json.c:535-555 | the same for a YAML comment |
| `ReadsLexemes.AcceptsSpelling` | abus/libjson/json.c:725-787 | every admitted spelling of an object or array, whatever the white space, escapes and comments, returns 0, ends done, and has told exactly the document's events |
| `FindsLexemes.StepTracks` | abus/libjson/json.c:725-787 | every accepted byte extends a reading of the text as lexemes, the last possibly unfinished, that the parser's whole state agrees with |
| `FindsLexemes.RunTracks` | abus/libjson/json.c:725-787 | so on every run that returned 0 the text is such a reading |
| `ParserTheorems.AcceptedLanguage` | abus/libjson/json.c:183-227 | the accepted language: a text returns 0 and ends done outside comments if and only if it is an admitted spelling of a document whose events the callback accepts, and then exactly those events were told |
| `ParserTheorems.AcceptedIsDocument` | abus/libjson/json.c:643-657 | an accepted text is a spelling of one object or array of the grammar, within the limits, with those events |
| `ParserTheorems.DoneMeansDocument` | abus/libjson/json.c:715-719 | on a run that returned 0, done with something told means that a whole document was told, and the other way round; with comments off done means the end of the document |
| `ParserTheorems.DoneIsDocument` | abus/libjson/json.c:715-719 | when it is done with something told, a first part of the text is an admitted spelling of the document told, and what follows, if anything, begins a comment |
| `ParserTheorems.CommentIsDone` | abus/libjson/json.c:715-719 | the one byte of a YAML comment's start ends done with nothing told |
| `ParserTheorems.ZeroExponentIsRefused` | abus/libjson/json.c:203 | a zero with an exponent's mark is refused, whatever follows |
| `ParserTheorems.CommentAfterExponentIsRefused` | abus/libjson/json.c:209 | directly after any number with an exponent a comment's start is refused, whatever follows |
| `ParserTheorems.CommentsAreSpaces` | abus/libjson/json.c:535-555 | however an accepted text is read as lexemes, with each comment replaced by one space it is accepted without comments and tells the same events |
| `ParserRuns.RunInvariant` | abus/libjson/json.c:352-371 | after every run that returned 0: the stack is the structures the events left open; the events with the pending value begin a document's events; `expecting_key` is set exactly at or inside a key position; outside GO, OK and comments the stack is not empty |
| `ParserRuns.RunBounded` | abus/libjson/json.c:336-404 | on every run, failed or not: the write position is inside the buffer, the buffer within `max_data`, the stack within `max_nesting` |
| `ParserRuns.DeliveredIsSound` | abus/libjson/json.c:733-756 | every key and string handed to the callback is made of complete characters and shorter than `max_data` |
| `ParserRuns.UnitsAreUtf8` | abus/libjson/json.c:279-317 | raw characters and escapes, however mixed, decode to complete characters |
| `ParserErrors.AfterValueErrors` | abus/libjson/json.c:557-611 | the error each byte ends in after a value: nothing to close, another bracket to close, a comma outside, a comment not allowed, a bad byte |
| `ParserErrors.BeforeValueErrors` | abus/libjson/json.c:336-404 | the same where a value may begin: the nesting limit and the data limit |
| `ParserErrors.InStringErrors` | abus/libjson/json.c:733-756 | the same inside a string |
| `ParserErrors.MidCharacterErrors` | abus/libjson/json.c:738-745 | the same inside a character of more than one byte |
| `Unicode.EncodingIsUnique` | abus/libjson/json.c:459-505 | a code point has one encoding by the table of section 3 of RFC 3629 |
| `Unicode.EveryScalarHasEscape` | abus/libjson/json.c:459-505 | every code point up to 0x10FFFF that is not a surrogate can be written as a `\u` escape or a pair of them |
| `Unicode.EscapeAppendsUtf8` | abus/libjson/json.c:440-505 | every such escape or pair of a code point, its hexadecimal digits in any mix of case, appends exactly that code point's encoding |
| `Unicode.LetterAppends` | abus/libjson/json.c:507-525 | the eight escapes of two characters append the characters they stand for, and no other letter but `u` is accepted after a backslash |
| `Unicode.EncodingIsGroup` | abus/libjson/json.c:279-317 | the encoding of every code point is a complete character of the UTF-8 tables |
| `Unicode.HeaderCountsBits` | abus/libjson/json.c:279-297 | the header table counts the high bits of a lead byte |
| `JsonTables.HexValueIs` | abus/libjson/json.c:440-449 | each hexadecimal digit, in either case, is worth its position |
| `Unicode.LoneLowIsRefused` | abus/libjson/json.c:491-492 | a low surrogate with no high one before it ends in its error |
| `Unicode.MissingLowIsRefused` | abus/libjson/json.c:477-479 | an escape after a high surrogate that is not a low one ends in its error |
| `Unicode.OnlyEscapeFollowsHigh` | abus/libjson/json.c:225-226 | nothing but `\` and then `u` is accepted after a high surrogate |
| `Unicode.MultiMeansHalfPair` | abus/libjson/json.c:527-533 | on every run that returned 0, `unicode_multi` is non-zero exactly between the halves of a pair, and then it is the high half |
| `JsonParsers.JsonParser.constructor` | abus/libjson/json.c:663-700 | the new parser is the initial state, within its bounds |
| `JsonParsers.JsonParser.IsDone` | abus/libjson/json.c:715-719 | done is an empty stack and a state past the start |
| `JsonParsers.JsonParser.StatePush` | abus/libjson/json.c:336-361 | pushes onto the array, growing it by copying, or reports the nesting limit, as the specification does |
| `JsonParsers.JsonParser.StatePop` | abus/libjson/json.c:363-371 | pops, or reports an empty stack or the wrong mode |
| `JsonParsers.JsonParser.BufferPush` | abus/libjson/json.c:373-404 | appends a byte in place, growing the buffer by copying, or reports the data limit |
| `JsonParsers.JsonParser.DoBuffer` | abus/libjson/json.c:421-438 | tells the pending value and empties the buffer |
| `JsonParsers.JsonParser.DecodeUnicodeChar` | abus/libjson/json.c:459-505 | replaces the four digits in the buffer as the specification says, with the same errors |
| `JsonParsers.JsonParser.DoAction` | abus/libjson/json.c:621-657 | flush, action and state change in the source's order |
| `JsonParsers.JsonParser.Step` | abus/libjson/json.c:733-784 | one byte of the loop is one step of the specification |
| `JsonParsers.JsonParser.ParseString` | abus/libjson/json.c:725-787 | the loop over a chunk is `Feed`, and on an error `processed` is the byte that was refused |
| `Printer.JsonPrinter.PrintString` | abus/libjson/json.c:819-837 | writes the quoted, escaped string |
| `Printer.JsonPrinter.PrintIndent` | abus/libjson/json.c:839-847 | writes a newline and the indentation string as often as the level says |
| `Printer.JsonPrinter.PrintMode` | abus/libjson/json.c:849-901 | one event changes the flags and adds to the output as the specification says |
| `Printer.PrintAllAppend` | abus/libjson/json.c:849-901 | printing events in two runs of one printer is printing them in one |
| `Layout.PrintsLayout` | abus/libjson/json.c:839-901 | the printed text of any document, raw or pretty, is its layout, written by recursion on the document: each element on its own line, one indentation deeper than its brackets; closing brackets as deep as their openers; empty ones closed at once |
| `Layout.DefaultLine` | abus/libjson/json.c:803 | the default indentation is one tab a level |
| `PrintParse.WritesString` | abus/libjson/json.c:819-837 | what the escaper writes for any well-formed string, control bytes and NUL included, spells that string |
| `PrintParse.WritesTree` | abus/libjson/json.c:849-901 | what the printer writes for a document, raw or pretty, is a spelling of its tokens |
| `PrintParse.PrintThenParse` | abus/libjson/json.c:819-901 | round trip: the printed document, with white space after it, parses to exactly its events, and these print to the same text |
| `PrintParse.AcceptedIsWellFormed` | abus/libjson/json.c:279-317 | in every accepted document strings and keys are complete characters and numbers are in the number language |
| `PrintParse.Reformatting` | abus/libjson/jsonlint.c:167-233 | formatting a text that was read and is done with something told, a comment left open at its end included, keeps its events, and formatting the result gives it back byte for byte, as long as the formatted text is below the data limit |
| `Layout.FormatsLayout` | abus/libjson/jsonlint.c:167-233 | formatting a text that was read gives the layout of the document it spells |
| `Dom.BuildThenWalk` | abus/libjson/json.c:1019-1067 | from the events of any object or array nested at most 1024 deep a tree is built whose in-order traversal gives the events back, keys at their values |
| `Dom.BuildMembers` | abus/libjson/json.c:1044-1065 | every value of an object is placed under the key read just before it; a key that was freed is never used |
| `Dom.ParsedTree` | abus/libjson/json.c:1019-1067 | with the tree builder as its callback and any nesting limit or none, a text is accepted if and only if it is an admitted spelling of a document that nests at most 1024 deep, and the tree built is that document's |
| `Dom.ParsedWithinLimit` | abus/libjson/json.c:1019-1067 | with a limit of 1 to 1024, if and only if it is an admitted spelling |
| `Dom.BuilderAcceptsIff` | abus/libjson/json.c:971-987 | the builder refuses no event of a document exactly when the document nests at most 1024 deep |
| `Dom.LoadedTree` | abus/libjson/jsondom.c:250-275 | once a text is read and found done, the root is there if and only if something was told, and then it is the tree of the document told |
| `DomTree.DomBuilder.GrowNode` | abus/libjson/jsondom.c:121-167 | `tree_append` adds one child, and its key, at the end, in place |
| `DomTree.DomBuilder.Append` | abus/libjson/json.c:1055-1064 | placing a value in the open structure changes no other node's value |
| `DomTree.DomBuilder.Push` | abus/libjson/json.c:971-987 | opens a structure with no key |
| `DomTree.DomBuilder.Pop` | abus/libjson/json.c:989-994 | closes the innermost structure and gives it back |
| `DomTree.DomBuilder.Callback` | abus/libjson/json.c:1019-1067 | one event changes the stack and the nodes as the specification says |
| `DomTree.BuildAndWalk` | abus/libjson/json.c:1019-1067 | over a whole document, one callback at a time, the nodes are the document's tree, and walking them gives its events back |
| `DomTree.WalkTree` | abus/libjson/jsondom.c:121-167 | the traversal of the nodes is the traversal of the value they make up |
| `Hashtab.Htab.constructor` | abus/hashtab/hashtab.c:120-137 | an empty table of 2^logsize buckets, with no position |
| `Hashtab.Htab.HFind` | abus/hashtab/hashtab.c:154-174 | finds a key exactly when it is bound, moves to its item, and otherwise leaves the position |
| `Hashtab.Htab.HAdd` | abus/hashtab/hashtab.c:180-228 | binds a new key; on a bound key fails and changes no binding; either way the position is on the key's item; the table doubles exactly when it had as many items as buckets |
| `Hashtab.Htab.CountOne` | abus/hashtab/hashtab.c:203-208 | the table grows in time and no sooner: exactly when the count was 2^logsize, so that it never exceeds that |
| `Hashtab.Htab.HGrow` | abus/hashtab/hashtab.c:83-117 | doubling relinks every node in place, keeps every binding, and leaves the position on an item |
| `Hashtab.Htab.HDel` | abus/hashtab/hashtab.c:231-257 | removes exactly the item at the position from the map and from the order, and leaves the position on the item that `hnext` would have reached; no node is new |
| `Hashtab.Htab.HFirst` | abus/hashtab/hashtab.c:260-266 | moves to the first item of the order; false exactly on an empty table |
| `Hashtab.Htab.HNext` | abus/hashtab/hashtab.h:180-182 | moves one on in the order; false exactly when it wraps around or there is nothing |
| `Hashtab.Htab.HNBucket` | abus/hashtab/hashtab.c:274-304 | moves to the first item of the next non-empty bucket, or wraps around and says so |
| `Hashtab.ItemsOnce` | abus/hashtab/hashtab.c:46-73 | the chained buckets, taken in order, list every binding exactly once |
| `Hashtab.Htab.MoveAll` | abus/hashtab/hashtab.c:98-110 | the walk relinks every node of the old buckets into the new ones |
| `Hashtab.AllMoved` | abus/hashtab/hashtab.c:98-110 | once every old bucket is walked, the new buckets hold every node, in the bucket of its hash value |
| `Hashtab.VisitAll` | abus/hashtab/hashtab.h:170-178 | the recommended loop meets each item exactly once, in order, in `count` rounds |
| `Recycle.ReRoot.constructor` | abus/hashtab/recycle.c:23-33 | an empty root, its cell size rounded up to whole pointers |
| `Recycle.ReRoot.Renew` | abus/hashtab/recycle.h:49-50 | gives a cell that was not live; all cells stay the disjoint union of live, trash and unissued ones |
| `Recycle.ReRoot.RenewX` | abus/hashtab/recycle.c:50-72 | trash first, and a new block only when every cell is live; the new block is twice the last one until the limit is reached |
| `Recycle.BlocksAreBounded` | abus/hashtab/recycle.c:62-64 | blocks of cells below the limit stay below twice the limit |
| `Recycle.BlocksDouble` | abus/hashtab/recycle.c:62-64 | the first block is one cell, and each later one twice the one before it until one is no longer below 32000 bytes |
| `Recycle.AlignIsLeast` | abus/hashtab/recycle.c:23-33 | a cell is the least whole number of pointers that the item fits in |
| `Recycle.ReRoot.ReDel` | abus/hashtab/recycle.h:56-59 | a live cell becomes the first of the trash |
| `Recycle.LastCell` | abus/hashtab/recycle.h:49-50 | taking the last cell off the unissued part leaves a whole number of cells |
| `Lookupa.MixIsReversible` | abus/hashtab/lookupa.c:41-52 | `mix` is a bijection on triples of 32-bit words, with the given inverse |
| `Lookupa.HLookup` | abus/hashtab/lookupa.c:82-125 | the loop and the fall-through switch compute the hash of the blocks and the rest |
| `Lookupa.AddTail` | abus/hashtab/lookupa.c:104-121 | the fall-through cases add the rest's bytes as words, its ninth byte on above the length |
| `Lookupa.KeysSeparate` | abus/hashtab/lookupa.c:82-125 | keys of one length that differ only inside one 12-byte block, or only in the rest, end in different words |
| `Lookupa.LevelsSeparate` | abus/hashtab/lookupa.c:93-95 | one key started at different levels ends in different words |
| `Lookupa.LengthsSeparate` | abus/hashtab/lookupa.c:103-125 | keys with the same blocks and rests of different length end in different words, whatever the rests |
| `Lookupa.LeftIs` | abus/hashtab/lookupa.c:41-52 | a left shift multiplies by a power of two and drops what leaves the word |
| `Lookupa.RightIs` | abus/hashtab/lookupa.c:41-52 | a right shift divides by a power of two, rounding down |
| `Lookupa.XorBitsAre` | abus/hashtab/lookupa.c:41-52 | each bit of an exclusive or is set exactly when the two bits differ |
| `RpcReader.Find` | abus/jsonrpc.c:443-460 | the first dot is where the service ends |
| `RpcHandle.JsonRpc.ParserCallback` | abus/jsonrpc.c:374-506 | one event updates the handle as the specification says, with its return code |
| `RpcHandle.JsonRpc.MethodNamed` | abus/jsonrpc.c:443-463 | splits service from method, with the limits on both and the check of the name |
| `RpcHandle.JsonRpc.AddValue` | abus/jsonrpc.c:508-547 | adds a parameter to the table pointed to, or refuses a duplicate |
| `RpcHandle.JsonRpc.AddArrayParam` | abus/jsonrpc.c:549-577 | begins an array parameter |
| `RpcHandle.JsonRpc.AddObject` | abus/jsonrpc.c:579-602 | begins the next table of the array |
| `RpcHandle.ParseMsg` | abus/jsonrpc.c:177-214 | parser, callback and final checks together are the specification of a parsed message |
| `RpcHandle.JsonRpc.CheckVal` | abus/jsonrpc.c:632-656 | reads a scalar of the table aimed at, with the codes for a message not parsed, a missing name and a null |
| `RpcHandle.JsonRpc.GetArrayCount` | abus/jsonrpc.c:902-917 | how many objects an array parameter has, with its three error codes |
| `RpcHandle.JsonRpc.GetPointAt` | abus/jsonrpc.c:933-960 | aims at an object of an array or back at the parameters, with its four error codes |
| `RpcTables.Table.Add` | abus/hashtab/hashtab.c:180-228 | `hadd` binds a new key in the hash table that the finite map stands for |
| `RpcTables.ParamTables.AddScalar` | abus/jsonrpc.c:508-547 | a scalar goes into the hash table pointed to, or that of the parameters, exactly when its key is not bound there, and no other table changes |
| `RpcTables.ParamTables.AddArray` | abus/jsonrpc.c:549-577 | an empty array parameter, which `last_array` then points to, unless its key is bound |
| `RpcTables.ParamTables.AddObject` | abus/jsonrpc.c:579-602 | a new, empty hash table at the end of the array that `last_array` points to, which is then pointed to |
| `RpcTables.ParamTables.Get` | abus/jsonrpc.c:632-656 | finds a name in the table pointed to, or that of the parameters, exactly when it is bound there |
| `RpcTables.ParamTables.Count` | abus/jsonrpc.c:902-917 | finds an array parameter and its number of tables |
| `RpcRequest.Request.constructor` | abus/jsonrpc.c:964-999 | writes the head of a request, without an id when it is (unsigned)-1 |
| `RpcRequest.Request.PutComma` | abus/jsonrpc.c:1045-1055 | a comma exactly when the last byte is none of the three openers |
| `RpcRequest.Request.AppendInt` | abus/jsonrpc.c:1065-1091 | appends a number in decimal |
| `RpcRequest.Request.AppendBool` | abus/jsonrpc.c:1101-1109 | appends a boolean |
| `RpcRequest.Request.AppendNull` | abus/jsonrpc.c:1142-1150 | appends a null |
| `RpcRequest.Request.AppendStrn` | abus/jsonrpc.c:1164-1185 | appends a string with the printer's escapes |
| `RpcRequest.Request.AppendVargs` | abus/jsonrpc.c:1207-1251 | appends any events with a printer started from the last byte |
| `RpcRequest.Request.Finalize` | abus/jsonrpc.c:1001-1006 | closes the parameters and the request |
| `RpcRequest.Build` | abus/jsonrpc.c:964-1006 | a client's sequence of calls writes the request text |
| `RpcWriter.LastByteTells` | abus/jsonrpc.c:1226-1232 | after any event the last byte tells exactly the two flags the printer would have |
| `RpcWriter.Batching` | abus/jsonrpc.c:1207-1251 | splitting events into batches does not change the text |
| `RpcWriter.BatchOnEmptyBuffer` | abus/jsonrpc.c:1226-1232 | on an empty message a batch of any events writes what a fresh printer writes exactly when it is empty or its first event is an end |
| `RpcWriter.ScalarIsBatch` | abus/jsonrpc.c:1065-1185 | a scalar append is a batch of its key and value, for a name that needs no escapes |
| `RpcWriter.RequestIsPrinted` | abus/jsonrpc.c:964-1006 | the text built piece by piece is one raw printing of the request as a document |
| `RpcRoundTrip.ConsumeFields` | abus/jsonrpc.c:508-547 | the events of a flat object fill the table pointed to with its fields |
| `RpcRoundTrip.ConsumeArray` | abus/jsonrpc.c:549-602 | the events of an array of flat objects become one parameter with one table an object |
| `RpcRoundTrip.ConsumeRequest` | abus/jsonrpc.c:374-506 | no event of a request is refused, and together they leave its service, method, id and parameters |
| `RpcRoundTrip.StringComesBack` | abus/jsonrpc.c:523 | a string parameter comes back whole if and only if it has no NUL |
| `RpcRoundTrip.RequestRoundTrip` | abus/jsonrpc.c:177-214 | building then parsing a request that fits gives back its service, method, id digits, scalars and arrays, if and only if the service is shorter than 32 bytes, without a slash and without a leading underscore, and the method shorter than 64; otherwise it is a parse error |
| `RpcRoundTrip.Exchange` | abus/jsonrpc.c:964-1251 | the same through the objects: the builder's calls, then the parser and its callback, leave the handle with what the request was made of, its parameters in hash tables |
| `RpcRoundTrip.ReadScalar` | abus/jsonrpc.c:632-656 | after that every scalar parameter is read back under its name: the same integer as far as a `long` holds it, the same truth value, null, or the string up to its first NUL |
| `RpcRoundTrip.ReadItem` | abus/jsonrpc.c:919-960 | and so is every field of every object of an array parameter, once aimed at |
| `RpcRoundTrip.ReadCount` | abus/jsonrpc.c:902-917 | the number of objects of an array parameter, and the errors for a scalar and for a name no parameter has |
| `RpcRoundTrip.ReadWrongly` | abus/jsonrpc.c:632-656 | asking for, or aiming at, what is not there gives the error for it |
| `RpcRoundTrip.IntReadsBack` | abus/jsonrpc.c:1065-1091 | an integer is written with a minus sign exactly when it is negative, then its digits without leading zeros, and `strtol` reads it back |
| `RpcRoundTrip.ErrorCodeIsZero` | abus/jsonrpc.c:494 | an integer error code is stored as zero if and only if it is a multiple of 2^32 that a `long` holds, or below what it holds |
| `RpcMessages.KeysAbbreviate` | abus/jsonrpc.c:343-372 | a key counts as each name of the protocol that it begins |
| `RpcMessages.ResultIsRead` | abus/jsonrpc.c:382-506 | however a response with a result is spelled, and in either order, its members and its id are read, if and only if no name comes twice; otherwise it is a parse error |
| `RpcMessages.ErrorIsRead` | abus/jsonrpc.c:382-506 | a response with an error is read if and only if every member's name counts as one of the protocol and none comes twice; its members and the digits of its code are kept, and 1 is returned exactly when that code is not zero |
| `RpcMessages.CodeAndMessageAreRead` | abus/jsonrpc.c:489-497 | with a code and a message, in either order: 1 exactly when the low 32 bits of the code are not all zero, and then asking for the members is refused |
| `RpcMessages.ResultRoundTrip` | abus/jsonrpc.c:177-214 | the same for results on the text of the message, written out |
| `RpcMessages.ErrorRoundTrip` | abus/jsonrpc.c:177-214 | the same for errors on the text of the message, written out |
| `RpcMessages.MessageIsRefused` | abus/jsonrpc.c:177-214 | a message of which the callback refuses an event is a parse error |
| `RpcMessages.WrongVersionIsRefused` | abus/jsonrpc.c:431-441 | a message that begins with a version other than `2.0`, or a beginning of it, is a parse error, whatever else is in it |
| `RpcMessages.UnversionedIsRefused` | abus/jsonrpc.c:200-204 | a response without a version is a parse error |
| `RpcMessages.RequestIsLaidOut` | abus/jsonrpc.c:964-1006 | the text of a request is its document, names written out, laid out without white space |
| `AsyncLifecycle.RunKeeps` | abus/abus.c:1024-1059 | the invariant of the outstanding table and of every request holds after every run, whatever the ids |
| `AsyncLifecycle.RequestsAreSafe` | abus/abus.c:790-815 | on every run a callback begins at most once and never once a cancel took the request; a response and a cancel never both take it; the handler is released at most once and not while the responder needs it; a wait is over only after the callback or the cancel |
| `AsyncLifecycle.CancelIsFinal` | abus/abus.c:1110-1135 | after a cancel that returned 0 the callback has not run and never will, whatever happens later |
| `AsyncLifecycle.CancelTakes` | abus/abus.c:1110-1135 | a cancel of an outstanding request takes it out of the table; in every run that contains the cancel's steps, whatever else is between them, it then returns 0 with the context cleared, the handler released once and no callback run, and once a wait's steps are in it too the wait is over |
| `AsyncLifecycle.CancelFails` | abus/abus.c:1119-1122 | a cancel of a request that is not outstanding takes no request, and only untracks what has its id |
| `AsyncLifecycle.InvokeSends` | abus/abus.c:1024-1059 | an invocation whose steps are all taken, whatever is between them, has sent the request, unless the client cleans up |
| `AsyncLifecycle.WaitBegins` | abus/abus.c:1071-1077 | a wait begins exactly while the context is set and is over at once otherwise |
| `AsyncLifecycle.WaitEnds` | abus/abus.c:1079-1095 | a wait that has begun ends only by finding, the mutex being free, that the context was cleared |
| `AsyncLifecycle.TrackedIsInOnePlace` | abus/abus.c:1024-1059 | on every run a tracked request is in exactly one place: outstanding, taken by a response, taken by a cancel, or lost; lost means tracked under an id in use, or hit by the cancel or clean-up of another request with its id |
| `AsyncLifecycle.OwnIdIsNotLost` | abus/abus.c:994-1001 | when no two requests have one id, none is lost |
| `AsyncLifecycle.SharedIdLosesBoth` | abus/abus.c:1110-1122 | one run in which two requests with one id are lost in both ways |
| `AsyncLifecycle.ResponseIsTaken` | abus/abus.c:1303-1325 | a response to a sent, unanswered and uncancelled request finds it if and only if it was not lost; then in every run that contains the responder's steps, whatever else is between them, the callback has run once and returned and the handler is released, and once a wait's steps are in it too the wait is over, unless the client cleans up |
| `AsyncLifecycle.FreeIsSafeIff` | abus/abus.c:1242-1250 | on all runs: the library uses a freed request if and only if, when it was freed, a responder or a canceller was in progress with it |
| `AsyncLifecycle.SeenComplete` | abus/abus.c:1071-1100 | after a wait or a cancel that returned 0, that is exactly while the mutex is held with `cb_context` cleared; after a wait that took the mutex, or its own cancel, it is never so |
| `AsyncLifecycle.CompletedIsSafeIff` | abus/abus.c:803-814 | freeing after a wait that returned 0 is safe in all later runs if and only if it does not fall between the clearing of `cb_context` and the unlocking |
| `AsyncLifecycle.ShieldedIsSafe` | abus/abus.c:1071-1135 | after a wait that took the mutex, or a cancel that returned 0, no later run has the library use a freed request |
| `AsyncLifecycle.UnlockedWaitIsNotEnough` | abus/abus.c:1076-1077 | a run in which a wait returns 0 outside the mutex, the client cleans up, and the responder then uses the freed request |
| `AsyncLifecycle.CleanUpEarly` | abus/abus.c:1242-1250 | the cancel that cleaning up begins with takes the request exactly when it is outstanding, and then the clean-up is safe whatever else runs; otherwise freeing it at once is safe if and only if no responder or canceller is in progress |

## Left out

- Allocation failure and the mechanics of `realloc`: growth is copying to a larger array, and always succeeds.
- A NULL parser callback, and calling the parser again after it has returned an error.
- Overflow of sizes and counters: buffer sizes, the printer's indentation level, the table's 32-bit count and shift, and the request ids that the bus counts up are unbounded here.
- Shifts and masks are written as division, remainder and multiplication by powers of two; hash values are 32-bit words with wrap-around.
- `json_print_mode` adds up the lengths it has written; the model keeps the output itself. Failing output callbacks are left out.
- The parse buffer keeps a NUL after its text for the callback; it is not part of the text here.
- What the tree builder does past 1024 open structures, where its stack grows by bytes instead of elements: here it refuses the event; `json_dom_lookup`, the queries and the printing of trees.
- Keys and values of the hash table are values, so changing a key through its pointer is not expressible; the nodes are new objects, and their reuse is the subject of `Recycle`.
- Hashtab.Htab.HGrow: does not state the order of the items after doubling, which nothing promises.
- Hashtab.Htab.HAdd: does not state where in the order the new item stands, which nothing promises.
- `refree`, `hdestroy`, and that `renew` clears only the cells that come from the trash.
- Recycle.ReRoot.constructor: requires an item size above 0; with size 0 every cell would have the same address.
- `json_rpc_get_*` beyond finding the value (conversion to C types), and a negative index to `json_rpc_get_point_at`.
- A value in an array of parameters that has no key, and an array that ends outside the parameters, stop the source's process (a null key, a failed assertion); here the event is refused.
- The error code is kept as the digits that `strtol` is given, and tested for zero as its low 32 bits, with a `long` of 64.
- RpcRequest.Build: requires that the request fits its buffer; a message that overflows it is not part of this model, nor are doubles, error responses and attribute values.
- RpcRoundTrip.RequestRoundTrip: names need no escapes, since the scalar appends write them as they are; positional or more deeply nested parameters and string ids are outside its domain.
- RpcHandle.ParseMsg: fills in the handle from the events told, after the parser has run, instead of during it; the callback's answers are part of the parser's configuration.
- In the asynchronous model the unlocked test of the handler's flags at the start of a cancel is part of the cancel's step; thread creation, time-outs and events are left out, a request is invoked once, and addresses are not used again.
- A client that starts a call on a request it is cleaning up, or cleans it up in the middle of its own invocation or wait, is not part of the asynchronous model; a cancel that another of its threads has begun is.
- Sockets, service directories, introspection, attributes, subscriptions and the C++ wrapper: input, output and plumbing.
