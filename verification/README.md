# pygls in Dafny

A model of the parts of pygls, a Python framework for language servers, whose correctness is not
obvious from reading one function, with proofs about them. `dafny verify dfyconfig.toml` checks the
whole project; nothing else is needed.

**Text synchronisation** (`Unicode`, `Lines`, `PositionCodec`, `TextDocument`, `Convergence`). A
client edits its own buffer of UTF-8, UTF-16 or UTF-32 code units and sends each edit as positions in
those units. The server converts the positions to code points and rebuilds its text line by line. The
rebuild is proved to be a splice of the whole text for every text and every range, and the server's
text is proved to stay the client's over every run of edits. The client of this proof is written from
the protocol alone (LSP 3.17, "Text Documents" and "Position"): it knows nothing of `splitlines`, of
`\r\n` being measured as `\n`, or of what the codec does past the end of a line. The two parties do not
always agree, and `PlacesAgree` says exactly when they do: on a line that exists, code point
boundaries of its content; past the content of a terminated line every character except the very next
one; past the end of an unterminated last line only if the line's last code point takes more than one
unit. Places past the last line always agree. Where the protocol says that a character past the end of
a line means the end of the line, the code follows its own rule; `JustPastTheLine`, `InsertionDiverges`
and `PastTheLastLine` give the inputs.

**Requests** (`Totals`, `Requests`, `RequestRuns`, `Completion`, `Answers`, `Generators`, `Outbound`,
`Reordering`, `RequestTable`, `Inbound`, `Handlers`, `JsonRpcProtocol`). Handlers are synchronous, pooled threads,
coroutines or generators that hand over to other handlers; futures have done-callbacks that change the
table the reading thread is changing too. `Requests` gives each atomic step of each thread; a run is any
list of events, so the theorems hold for every interleaving. `Conservation` is an exact ledger for one
id: dispatched = answered + not serialisable + silenced + still open. It needs no assumption on ids, not
even that they are distinct, because the table does not decide who answers. `EveryEndReported` says that
each future's end is reported as it was, `EveryAnswerJustified` what each answer stands for, and
`GeneratorsEnd` where a generator's end comes from: a chain of yields, each sent what the handler it
yielded returned. A cancel notification reaches only what has not started: `RunningTold` says that a
running handler's own end is what its request is told.

The table is not the set of outstanding requests: `NotificationStays` is a run at rest in which the entry
of a finished notification is still there. `EveryEntry` and `TableAtRest` say what the table holds, and
`EntryOfRequest` when exactly it holds a request that is asked once, so that `CancelTold` can go from the
cancel notification to the answer.

Not every request is answered. A `BaseException` that is no `Exception`, such as the `SystemExit` of
`sys.exit`, passes every handler of the code: raised again by a finished future it ends the callback that
was to respond, and raised in a generator or a synchronous handler it unwinds the thread that was to
settle the future. The same holds for a coroutine that is cancelled while a generator waits for it.
`EveryRequestAnswered` is exact: at rest, a request has its answers if and only if none of its futures
ended that way or is stuck behind one that did. `CancelledCoroutineLosesRequest` and
`BaseExceptionSilencesRequest` are such runs. Outbound requests are matched over the same runs
(`OutboundMatched`), and responses that are read one after the other can be read in any order
(`ReorderedRun`). The class `JsonRpcProtocol` deals with whole messages and whole callbacks by the
machine's steps on fields; its invariant is that its history is a run, so it has every property of runs.

**Framing** (`Framing`). The writer's header and the reading loop, as a printer and a parser, with the
decimal number printed and parsed. The header announces the number of characters, which is the number
of bytes exactly for ASCII bodies.

**Workspace tables** (`Workspace`). Documents, notebooks, and the index from cells to notebooks, as an
object whose methods are proved to do what `Step` says; the index agrees with the notebooks over every
run of a conforming client, and cells always have documents whatever the client does.

**Semantic tokens** (`SemanticTokens`, `TokenClassification`). The example server's lexer and
classifier, its integer encoding, and the two decoders of the documentation generator. What the lexer
means is stated without its loop: a line is read as words and operators with only spaces between. The
server counts code points, while a client counts units of the negotiated encoding: `MarksCoverTokens`
says exactly when the client marks a token where it is, and `WideCharacterShifts` gives a line on which
a UTF-16 client does not.

**Diagnostics cache** (`PullDiagnostics`), **table formatter** (`Formatting`, `TableLayout`,
`ClientFormatting`), **file URIs** (`Uris`).
Cache soundness with the exact condition on versions: no two entries of one document share a version and
differ, which increasing versions ensure and a reopened document may break; parse and print of whole
texts with the exact condition under which they undo each other; percent-coding and drive letters. The
formatter's edits name lines of the server, and a client splits its document at fewer characters:
`ClientFormatting` says when the client finds every row, proves that it then has the formatted text, and
has the input, a form feed, after which it does not.

Operations that change objects in place are methods of classes, or work on arrays, and are proved equal
to functions on values; the theorems about runs are about those functions.

## Model

| member | source | states |
|---|---|---|
| Unicode.EncodeLength | pygls/workspace/position_codec.py:62-76 | The unit count of a text is the length of its actual UTF-8, UTF-16 or UTF-32 encoding |
| Unicode.EncodeInjective | pygls/workspace/position_codec.py:62-76 | In each encoding, different texts without surrogates have different units |
| Lines.SplitLinesAreLines | pygls/workspace/text_document.py:165-167 | Every line is non-empty, has a terminator only at its end, all but the last have one, and no `\r\n` is cut |
| Lines.LinesEnd | pygls/workspace/text_document.py:165-167 | Named one by one: the ten characters after which a line ends, `\r\n` counting as one; no other line end is inside a line, and only the last line may lack one |
| Lines.FlattenSplitLines | pygls/workspace/text_document.py:165-167 | The lines of a text, put together, are the text |
| Lines.SplitFlatten | pygls/workspace/text_document.py:165-167 | Lines that are so split, put together, split into themselves |
| Lines.ReplaceCrLfOfLine | pygls/workspace/position_codec.py:112-113 | On a line, replacing `\r\n` touches at most the terminator |
| PositionCodec.PositionFromClientUnits | pygls/workspace/position_codec.py:78-147 | The loop returns the place `FromClientUnits` gives, past the last line the client units of that line, counted in its encoding, and leaves the overwritten character in its argument |
| PositionCodec.SearchColumn | pygls/workspace/position_codec.py:124-144 | The loop, whose running count is the cost of the prefix read so far, stops at the column |
| PositionCodec.FromClientUnitsLeast | pygls/workspace/position_codec.py:112-147 | On an existing line the returned column is the one least index whose prefix costs the requested units, or one unit less than the line's if more was requested |
| PositionCodec.PastTheEnd | pygls/workspace/position_codec.py:107-110 | A line past the end gives the length of the encoded last line as column, which exceeds the line exactly if some character of it takes more than one unit |
| PositionCodec.FromClientUnitsRepeatable | pygls/workspace/position_codec.py:120-122 | Converting the overwritten position again gives the same place and overwrites nothing more |
| PositionCodec.RangeFromClientUnits | pygls/workspace/position_codec.py:176-195 | Both ends are converted as they were passed in, also when they are one object |
| PositionCodec.UnitsOfPlace | pygls/workspace/position_codec.py:149-174 | The way to the client: the length of the encoded text before the place on its line, at most that of the line; past the end, the start of the line after the last |
| PositionCodec.ColumnOvershoot | pygls/workspace/position_codec.py:124-147 | The column overshoots the request by at most 3, 1 or 0 units, and by none exactly at code point boundaries |
| PositionCodec.ClientRoundTrip | pygls/workspace/position_codec.py:78-174 | Client units to code points and back: same line, bounded overshoot, identity if and only if at a boundary |
| PositionCodec.ServerRoundTrip | pygls/workspace/position_codec.py:78-174 | Code points to client units and back is the identity up to the line's end, if and only if it is not the end of a `\r\n` line |
| TextDocument.RebuildLines | pygls/workspace/text_document.py:96-117 | The loop over the lines writes what precedes the range, the new text, and what follows it; the whole text if the range ends on an earlier line than it starts |
| TextDocument.SplicedByLines | pygls/workspace/text_document.py:96-117 | That text is the splice at the two offsets, capped at the length of the source |
| TextDocument.EndOfFileBranch | pygls/workspace/text_document.py:91-94 | The end-of-file branch is taken exactly for an empty document |
| TextDocument.TextDocument.ApplyIncrementalChange | pygls/workspace/text_document.py:77-117 | The new source is the splice of the old one, for every source and every range; the positions are overwritten as the codec does |
| TextDocument.TextDocument.ApplyChange | pygls/workspace/text_document.py:130-163 | The new source by kind of synchronisation: unchanged without any, the change's text as a whole with full synchronisation even if it came with a range, the splice or the whole text with incremental; the positions are overwritten exactly if they are converted |
| TextDocument.TextDocument.OffsetAtPosition | pygls/workspace/text_document.py:169-185 | The converted column plus the lengths of the lines before, past the last line that line's client units; the position is overwritten as the codec does |
| TextDocument.OffsetPastTheEnd | pygls/workspace/text_document.py:169-185 | Past the last line the offset is the text before that line and the length of its encoding, so beyond the source if and only if a character of it takes more than one unit; 0 for an empty source |
| TextDocument.OffsetOfPlace | pygls/workspace/text_document.py:169-185 | The offset of a place sent to the client and back is the index of its code point in the source |
| TextDocument.OffsetOntoSource | pygls/workspace/text_document.py:169-185 | Every index of the source is the offset of a place |
| TextDocument.OffsetIncreasing | pygls/workspace/text_document.py:169-185 | One place is before another if and only if its offset is smaller; with the two above, an increasing bijection |
| Convergence.PlacesAgree | pygls/workspace/position_codec.py:107-147 | Client and server mean the same place by a position if and only if it is agreeable, a condition on the client's units alone |
| Convergence.EditAgrees | pygls/workspace/text_document.py:77-117 | One conforming edit leaves the server with the encoding of what the client has |
| Convergence.InsertionAgrees | pygls/workspace/text_document.py:77-117 | At a position, every insertion leaves the two parties with one text if and only if the position is agreeable |
| Convergence.Convergence | pygls/protocol/language_server.py:216-222 | Over every run of conforming edits to an opened document, the encoding of the server's text is the client's buffer |
| Convergence.ConvergedText | pygls/protocol/language_server.py:216-222 | So the server's text is whatever text the client's units stand for |
| Convergence.LastTextCounts | pygls/workspace/text_document.py:130-163 | Over every run: with full synchronisation the text is the one that came last, also of a ranged change, and without synchronisation it stays the opened one |
| Convergence.FullSyncConverges | pygls/workspace/text_document.py:130-163 | Over every run of whole texts under full synchronisation, the encoding of the server's text is the client's buffer |
| Convergence.JustPastTheLine | pygls/workspace/position_codec.py:120-122 | In "ab\n", character 3 of the first line is offset 2 for the client and offset 3 for the server |
| Convergence.InsertionDiverges | pygls/workspace/text_document.py:77-117 | An insertion there gives the two parties different texts |
| Convergence.PastTheLastLine | pygls/workspace/position_codec.py:120-122 | In "ab" without a terminator, every character past 2 is offset 2 for the client and offset 1 for the server |
| RequestRuns.Conservation | pygls/protocol/json_rpc.py:176-421 | In every interleaving and for every id: dispatched = answered + discarded + silenced + open |
| RequestRuns.AtMostOneAnswer | pygls/protocol/json_rpc.py:291-317 | Never more answers with an id than requests dispatched with it |
| RequestRuns.RunGuarded | pygls/protocol/json_rpc.py:217-227 | In every run, while a request's generator has not yielded yet, its future is pending and no other thread or future can reach it |
| RequestRuns.GuardedNeverDoubles | pygls/protocol/json_rpc.py:217-227 | So the first run of a request's generator never finds its future done: no request is answered by its callback and again by the exception handler of `_handle_request` |
| RequestRuns.RunAlive | pygls/protocol/json_rpc.py:241-289 | In every run, a generator's unfinished future has a thread or an unfinished future that will continue it, or it was abandoned: its thread was unwound, or what it waited for ended in a way it is not told |
| Completion.EveryEndReported | pygls/protocol/json_rpc.py:291-317 | In every run, for the end of each future of a request: its result, the code of the JSON-RPC error it raised, -32603 for another exception or -32800 for a cancellation has been written, or the request is logged because result or error cannot be serialised or a `BaseException` was raised, or a thread is about to |
| Completion.EndsTold | pygls/protocol/json_rpc.py:291-317 | At rest, each such end has been written or logged in that way |
| Completion.EveryRequestAnswered | pygls/protocol/json_rpc.py:176-317 | At rest, a request is answered as often as it was dispatched, up to responses that could not be serialised, if and only if no future of it ended with a `BaseException` or is stuck behind an abandoned one |
| Completion.SilencedCount | pygls/protocol/json_rpc.py:298-317 | At rest, a request is silenced if and only if one of its futures ended with a `BaseException` |
| Generators.GeneratorsEnd | pygls/protocol/json_rpc.py:241-289 | In every run, a generator handler's future that no cancel or response took ends with what the generator returned or raised after a chain of yields, each sent the value returned by the future made for the handler it yielded, or with the error of the last of these |
| RequestTable.EveryEntry | pygls/protocol/json_rpc.py:176-317 | In every run, each entry is a request sent that has no response, a request received that is unfinished or about to be reported, or under a generated id and of a handler that answers nobody |
| RequestTable.TableAtRest | pygls/protocol/json_rpc.py:176-317 | At rest, only requests sent without a response, stuck requests, and those generated ids are left |
| RequestTable.NotificationStays | pygls/protocol/json_rpc.py:354-366 | A run at rest in which a finished notification is still in the table |
| Inbound.EntryOfRequest | pygls/protocol/json_rpc.py:176-296 | After a request asked once, in every run: its entry is in the table if and only if no cancel or response took it and its future is unfinished or its callback has not popped it yet |
| Inbound.CancelFinds | pygls/protocol/json_rpc.py:342-352 | A cancel notification finds the request as long as its future is unfinished and its entry was not taken before |
| Inbound.CancelTold | pygls/protocol/json_rpc.py:342-352 | From the cancel notification on, with any steps of other threads between: if the future has still not started when the reading thread comes to cancel it, the cancelled error has been written once all is at rest |
| Handlers.EveryHandlerStarts | pygls/protocol/json_rpc.py:354-391 | In every run: the handler of a request or notification that is not refused has a future of its own when the reading thread turns to the next message, answering that request or, for a notification, nobody |
| Handlers.UnknownTold | pygls/protocol/json_rpc.py:393-400 | In every run, by then a request for an unknown method has been answered with -32601 |
| Handlers.EveryFutureOfHandler | pygls/protocol/json_rpc.py:207-239 | In every run: coroutines have tasks, threaded handlers pool futures, generators and synchronous handlers plain ones, the last ended as the handler did; all other futures are of requests sent |
| Handlers.RunningSurvives | pygls/protocol/json_rpc.py:342-352 | In every run, the future of a handler that is running stays as it is, whatever arrives but a response that bears its id, until the pool or the event loop ends it: a cancel notification does nothing to it |
| Handlers.RunningTold | pygls/protocol/json_rpc.py:291-352 | And at rest the request has been told the end that the handler came to, however it was cancelled meanwhile |
| Handlers.CancelledGeneratorStops | pygls/protocol/json_rpc.py:268-273 | In every continuation, a generator whose future is cancelled is not resumed, and no handler is started for it, from the moment that no thread is in the middle of that |
| Handlers.ShutdownWhen | pygls/protocol/json_rpc.py:496-498 | The flag that refuses messages is set if and only if shutdown has set it |
| Answers.EveryAnswerJustified | pygls/protocol/json_rpc.py:291-317 | In every run: a result that was written was returned by a future of that request; an error code was raised by one, or is -32603 and one raised another exception, or is -32800 and one was cancelled, or is -32601 and a request with that id came for an unknown method; and what is logged as not serialisable was such an end |
| Answers.SyncTold | pygls/protocol/json_rpc.py:229-239 | Whatever other threads do meanwhile, when the reading thread turns to the next message the result or error of a synchronous handler has been written, or logged if it cannot be serialised |
| Answers.ShutdownIsFinal | pygls/protocol/json_rpc.py:496-498 | From shutdown on, in every continuation, nothing is dispatched and the reading thread starts nothing, unless `exit` arrives |
| Answers.CancelledCoroutineLosesRequest | pygls/protocol/json_rpc.py:272-289 | A run at rest in which a dispatched request has no answer: the coroutine its generator waited for ended cancelled |
| Answers.BaseExceptionSilencesRequest | pygls/protocol/json_rpc.py:298-317 | A run at rest in which a pooled handler raised a `BaseException`: the entry is gone and nothing was written |
| Outbound.OutboundMatched | pygls/protocol/json_rpc.py:423-441 | In every run, a request sent under an id that nobody else uses or cancels stays pending until a response bearing its id is read before shutdown, and ends with the first such response, its entry gone |
| Reordering.ReorderedRun | pygls/protocol/json_rpc.py:423-441 | In any run, responses with different ids that are read one after the other can be read in any other order: the state is the same after them and after everything that follows |
| JsonRpcProtocol.JsonRpcProtocol.HandleMessage | pygls/protocol/json_rpc.py:489-517 | A message dealt with to the end of its callbacks keeps the object in a state of a run, lengthened by the message and steps of the reading thread; the result or error of a synchronous handler has then been written, or logged if it cannot be serialised |
| JsonRpcProtocol.JsonRpcProtocol.FinishHandler | pygls/protocol/json_rpc.py:241-317 | The same for a handler that the pool or the event loop ends, its callback running to the end in that thread |
| JsonRpcProtocol.JsonRpcProtocol.LedgerBalances | pygls/protocol/json_rpc.py:176-441 | In every state the object can reach, the ledger of each id balances, and there are never more answers than requests |
| Framing.LengthIsBytes | pygls/protocol/json_rpc.py:528-541 | The announced length is the number of bytes if and only if the body is ASCII |
| Framing.ParseDigits | pygls/io_.py:215-219 | Parsing the printed length gives the length |
| Framing.DecimalDigits | pygls/protocol/json_rpc.py:534 | The printed length, digit by digit: the one for 10 to the power k is the length divided by it, modulo 10, and there is no leading zero |
| Framing.FrameText | pygls/protocol/json_rpc.py:528-541 | The two headers, the blank line and the encoded body, literally |
| Framing.LengthLine | pygls/io_.py:204-219 | A line gives a length if and only if it is the header, a space, decimal digits with any leading zeros, and `\r\n` |
| Framing.Run | pygls/io_.py:204-237 | The loop hands over the bodies of the stream in order, reports exactly those deliveries that raise, any of them, and ends with the stream unless a delivery stops it |
| Framing.AnyHeaderBlock | pygls/io_.py:208-226 | A message is read whatever other headers come before and after the length, however the length is written in digits, and whatever white space is on the blank line |
| Framing.CutShort | pygls/io_.py:222-226 | A stream that ends before the announced length: what there is is handed over, and nothing if there is nothing |
| Framing.FramingRoundTrip | pygls/io_.py:141-174 | Reading what was written for any list of ASCII bodies hands over exactly the non-empty ones, in order, up to one that stops the loop |
| Framing.NothingStops | pygls/io_.py:141-174 | If none is empty and none stops the loop, that is all of them |
| Framing.StopsAt | pygls/io_.py:208-237 | A body that stops the loop is the last one handed over |
| Framing.EmptyBodies | pygls/io_.py:222-226 | Empty bodies are as if they had not been sent |
| Framing.RaisingIs | pygls/io_.py:228-234 | The reported bodies are those whose handler raised, in order |
| Framing.SendAndRead | pygls/io_.py:204-237 | Written and then read: every body is handed over in order, exactly the deliveries that raise are reported, whichever they are, and nothing is left in the stream |
| Workspace.CellsHaveDocuments | pygls/workspace/workspace.py:160-206 | Whatever a client sends, every cell in the index has a text document |
| Workspace.StepTables | pygls/workspace/workspace.py:160-269 | Each event, name by name: which documents are open and which notebook each cell is mapped to afterwards, and that other notebooks stay |
| Workspace.ChangedCells | pygls/workspace/workspace.py:223-260 | A changed notebook, cell by cell: the event's version, its metadata unless falsy, the new cells at the start index, the cells before and behind the deleted ones in order around them, and each cell that was named with the kind and metadata that came last for its document |
| Workspace.EditsInOrder | pygls/workspace/workspace.py:267-269 | A document's edits are those of the changes that name it, in order |
| Workspace.LastVersion | pygls/workspace/workspace.py:271-278 | Its version is that of the last change with edits for it |
| Workspace.IndexAgrees | pygls/workspace/workspace.py:160-269 | In every run of a client that opens documents for exactly the cells it adds and closes those of exactly the cells it takes away, cells being counted by their indices: a cell is mapped to a notebook if and only if it is in that notebook's cell list, and it has a document |
| Workspace.ChangeIndexed | pygls/workspace/workspace.py:223-269 | A conforming change of cells keeps index, notebooks and documents in agreement |
| Workspace.Workspace.GetNotebookDocument | pygls/workspace/workspace.py:107-139 | A notebook by its URI, else by a cell's, else none; with an agreeing index, a cell finds a notebook exactly if one has it |
| Workspace.Workspace.PutNotebookDocument | pygls/workspace/workspace.py:160-167 | The tables change as the open event says, each cell document holds its last text, other documents are untouched |
| Workspace.Workspace.PutTextDocument | pygls/workspace/workspace.py:169-195 | A new document with the given text and version; it enters the index only with a notebook |
| Workspace.Workspace.RemoveNotebookDocument | pygls/workspace/workspace.py:197-202 | The tables change as the close event says, and exactly the named documents go |
| Workspace.Workspace.RemoveTextDocument | pygls/workspace/workspace.py:204-206 | Document and index entry go |
| Workspace.Workspace.UpdateNotebookDocument | pygls/workspace/workspace.py:223-269 | The tables change as `StepTables` and `ChangedCells` say; every document, those it opens included, gets its own edits in order and its last version, up to the first change of a document that is missing, which is a key error |
| Workspace.Workspace.UpdateTextDocument | pygls/workspace/workspace.py:271-278 | The document gets the edited text and the version, or there is a key error |
| Workspace.Workspace.DidChange | pygls/protocol/language_server.py:216-222 | A list of changes gives the text of the run of `Convergence` and the new version |
| SemanticTokens.LexLineIsTiling | examples/servers/semantic_tokens.py:206-252 | A line is lexed to a list of places if and only if these are its words and longest operators with only spaces between and around |
| SemanticTokens.Operators | examples/servers/semantic_tokens.py:70 | The operators one by one: an arrow, else one of the characters of the class, among which its range has digits, `-` and `/` |
| SemanticTokens.Lex | examples/servers/semantic_tokens.py:199-254 | The deltas, decoded, are the places where the tokens were found; failure exactly where no pattern matches; never the "infinite loop" error |
| SemanticTokens.DecodedPlaces | examples/servers/semantic_tokens.py:199-254 | In any accepted document the decoder gives each token a place that holds exactly its text, places in increasing order without overlap |
| SemanticTokens.LexLineAccepts | examples/servers/semantic_tokens.py:210-246 | A line is accepted if and only if each character is a space, a word character, an operator character, or `>` after `-` |
| SemanticTokens.RowsAccepted | examples/servers/semantic_tokens.py:199-254 | The same for documents |
| TokenClassification.ClassifyTokens | examples/servers/semantic_tokens.py:140-197 | The array ends with each token's type as the lexed list alone determines it, although earlier tokens are retyped on the way and `prev(0)` is the last token |
| TokenClassification.PreviousClassified | examples/servers/semantic_tokens.py:143-148 | What the loop sees in the previous token, for the first one the last of the list, is what the lexed list says, and nothing for the first |
| TokenClassification.SemanticTokensFull | examples/servers/semantic_tokens.py:281-297 | Five numbers a token, failing exactly if some token has no type in the legend |
| TokenClassification.MarksHoldTokens | examples/servers/semantic_tokens.py:132-297 | From document to integers and back, in code points: one mark a token, the document holds the token's text there, the mark's type is the place in the legend of the token's, and each bit of its flags is set if and only if the token has that modifier of the legend |
| TokenClassification.MarksCoverTokens | examples/servers/semantic_tokens.py:281-297 | A client that counts in units marks a token exactly if and only if no code point of the token or before it on its line takes more than one unit |
| TokenClassification.CoveredUnits | examples/servers/semantic_tokens.py:281-297 | What such a mark selects of the client's units is the encoding of the token's text |
| TokenClassification.WideCharacterShifts | examples/servers/semantic_tokens.py:216-228 | U+1D400, a space and "a": the second token is reported at column 2 and is at unit 3 of a UTF-16 client |
| TokenClassification.TokensToLines | docs/generate_token_visualisation.py:336-355 | The rendered text has each token at the row and width that the list's layout gives |
| TokenClassification.LayoutIsDecode | docs/generate_token_visualisation.py:336-605 | Rendered places are the decoder's if and only if line deltas are at most 1 and no token starts before the one before it on the line has ended |
| PullDiagnostics.AdditionIs | examples/servers/pull_diagnostics.py:40 | The scan accepts exactly the lines of the pattern read as a grammar, with the right parts |
| PullDiagnostics.PullDiagnosticServer.Parse | examples/servers/pull_diagnostics.py:50-86 | The loop finds the diagnostics that the three rows below describe; the entry changes only if they do |
| PullDiagnostics.AnswerDiagnosed | examples/servers/pull_diagnostics.py:56-82 | An addition whose three texts denote a, b and c has no diagnostic if and only if a + b = c, and otherwise exactly one, an error that quotes the third text, on its line and up to one short of its length |
| PullDiagnostics.MissingAnswerDiagnosed | examples/servers/pull_diagnostics.py:66-82 | An addition without an answer has exactly one, a warning |
| PullDiagnostics.OthersNotDiagnosed | examples/servers/pull_diagnostics.py:55-56 | A line that is no addition has none |
| PullDiagnostics.EveryNumberDenoted | examples/servers/pull_diagnostics.py:57-58 | Digits, in whatever characters, denote a number: zeros and then its decimal digits |
| PullDiagnostics.DiagnosticsOfLines | examples/servers/pull_diagnostics.py:54-82 | At most one diagnostic a line, in line order |
| PullDiagnostics.PullDiagnosticServer.WorkspaceDiagnostic | examples/servers/pull_diagnostics.py:134-160 | One item for each cached document, "unchanged" exactly if its id was named |
| PullDiagnostics.ResultIdInjective | examples/servers/pull_diagnostics.py:126 | An id determines document and version, whatever characters the URI has |
| PullDiagnostics.ExactlySound | examples/servers/pull_diagnostics.py:50-160 | For any edits, whatever is asked in between: equal ids carry equal diagnostics and reports with a current id are fresh, if and only if no two entries of one document have one version and different diagnostics |
| PullDiagnostics.ClashDeceives | examples/servers/pull_diagnostics.py:116-131 | After any two such entries, the client that asked in between is told that its stale report is unchanged |
| PullDiagnostics.CacheSoundness | examples/servers/pull_diagnostics.py:50-131 | A full report always is a fresh computation, with an id of a version that gave it and that the client did not name; no report always means no diagnostics; and, without a clash, "unchanged" is about a report that equals a fresh computation |
| PullDiagnostics.WorkspaceSoundness | examples/servers/pull_diagnostics.py:134-160 | The same for the items of a workspace report, whose version is one that gave these diagnostics |
| PullDiagnostics.IncreasingVersions | examples/servers/pull_diagnostics.py:50-160 | Increasing versions are enough |
| PullDiagnostics.ReopenedVersion | examples/servers/pull_diagnostics.py:116-131 | The shortest run that deceives: a document opened again at the same version with other mistakes |
| Formatting.ParseDocument | examples/servers/formatting.py:143-182 | The rows of the document in the range, with their line numbers |
| Formatting.FormatTable | examples/servers/formatting.py:94-140 | One edit for each row in the range, cells centred in the widest width of their column |
| TableLayout.LineIsRow | examples/servers/formatting.py:155-180 | Any line, read: its fields between bars, without the one before a bar at the start and the one after a bar at the end, stripped; no cells if they are nothing but dashes, no row if there are none |
| TableLayout.RowsRead | examples/servers/formatting.py:143-191 | The rows are exactly the lines from the first to the last of the range, both counted, that are rows, in order |
| TableLayout.WidthsTight | examples/servers/formatting.py:103-107 | As many columns as the longest row has, each as wide as its widest cell |
| TableLayout.LineOfRow | examples/servers/formatting.py:116-129 | A row, written: a field for each column between bars, dashes for a row without cells, a space for a missing cell, and else the cell with spaces on both sides that differ by at most one, the left having more exactly if padding and width are odd |
| TableLayout.EditsInRange | examples/servers/formatting.py:111-140 | One edit for each row in the range, in order |
| Formatting.ParseFormatted | examples/servers/formatting.py:94-182 | What a formatted row is read as: its cells, filled up with empty ones; without any column, one empty cell |
| Formatting.SplitFormatted | examples/servers/formatting.py:94-140 | Edited at the server's own lines, a text splits into the formatted lines again |
| Formatting.FormatRoundTrip | examples/servers/formatting.py:94-182 | Reading the formatted lines gives the same rows on the same lines if and only if all rows with cells have equally many and there are not only rows of dashes |
| Formatting.EqualLengths | examples/servers/formatting.py:103-129 | The formatted rows are equally long if and only if the rows with cells have equally many |
| Formatting.FormatTwice | examples/servers/formatting.py:94-182 | Formatting the formatted lines changes nothing if and only if the same condition holds |
| Formatting.TwoPassesSettle | examples/servers/formatting.py:94-182 | For every list of lines a third pass changes nothing |
| ClientFormatting.LineStarts | pygls/workspace/text_document.py:165-167 | A line starts at the same place for client and server, or later for the client; at the same if and only if the lines before it end as the protocol says, or it is the end of the text |
| ClientFormatting.RowsFound | examples/servers/formatting.py:129-138 | The client finds every row where the edits mean it if and only if the lines up to the last row end as the protocol says |
| ClientFormatting.ClientFormats | examples/servers/formatting.py:94-140 | Then the client, applying the edits to its own units, has the formatted text |
| ClientFormatting.ClientPasses | examples/servers/formatting.py:94-182 | For such a document: the second pass changes nothing if and only if the table is regular, which is when the first leaves the same rows, and the third never does |
| ClientFormatting.LspTextPlaced | examples/servers/formatting.py:143-153 | Texts with the protocol's terminators only are such documents |
| ClientFormatting.FormFeedMisplaces | examples/servers/formatting.py:94-140 | A bar and a form feed, a bar, and a row: the client keeps the row and adds the formatted one after it |
| Uris.QuoteRoundTrip | pygls/uris.py:156-188 | Unquoting a quoted text gives the text |
| Uris.UriOfPath | pygls/uris.py:69-75 | The URI of a path, literally: the scheme, the quoted host, the quoted path, a drive with a small letter and its colon unquoted |
| Uris.QuoteEach | pygls/uris.py:173-188 | Quoting byte by byte: unreserved characters and slashes stay, any other byte becomes a percent sign and two capital hexadecimal digits |
| Uris.QuotedForms | pygls/uris.py:156-188 | What is quoted is the UTF-8 form, and unquoting gives the one text that has the unquoted bytes as its UTF-8 form |
| Uris.UnquoteEach | pygls/uris.py:156-166 | Unquoting byte by byte: capital and small hexadecimal digits alike, everything else stays |
| Uris.UriRaises | pygls/uris.py:49-55 | There is no URI exactly for a path with a surrogate, or with two slashes at the start and no other |
| Uris.NoOtherScheme | pygls/uris.py:90-93 | A URI has a path if and only if its scheme is "file", in capital or small letters |
| Uris.PathOfUri | pygls/uris.py:80-110 | The path of any file URI: host and path unquoted, query and fragment ignored, a drive without its slash and with a small letter |
| Uris.PathRoundTrip | pygls/uris.py:69-112 | Making a URI raises exactly if the path has no canonical form, and otherwise leads back to it |
| Uris.CanonicalTwice | pygls/uris.py:57-66 | Converting a second time changes nothing, if and only if the path does not start with four slashes or what follows the first two of them comes back as it was |
| Uris.CanonicalIdentity | pygls/uris.py:38-112 | A path comes back as it was if and only if it is a rooted path that is no drive path, a drive path without slash and with a small letter, or has a host and no capital drive |
| Uris.ThereAndBack | pygls/uris.py:69-112 | The same two statements about the two functions: when a path is unchanged, and when twice is once |
| Uris.SameUri | pygls/uris.py:69-112 | Two paths have one URI if and only if they come back as one path, and both or neither have four slashes in front |

## Left out

- Convergence: texts contain only the line terminators of the protocol and no lone surrogates, because a client that follows the protocol splits at no others; the splice theorems hold for all texts.
- EntryOfRequest: not for synchronous handlers, which have no entry; after a cancel notification, `CancelTold` is about futures that have not started, as `Future.cancel` is, and `RunningTold` about running ones.
- RunningSurvives: a response from the peer that bears the id of a request of the peer's own sets that request's future, as it does in the original.
- SyncTold: says nothing of what the handler itself does to the server, and a `BaseException` of the handler ends the reading thread instead.
- OutboundMatched: ids given by callers are not among those generated later.
- JsonRpcProtocol: a message or a callback is dealt with in as many steps as the caller allows, because a generator need not stop; the nesting of the original's calls is a sequence of steps. Threads, the pool and the event loop are the machine's events; a coroutine's cancellation arrives as one of its possible ends, and the steps inside `concurrent.futures` are atomic.
- Generator handlers are values that say what they do next with each result; what they do to the workspace is modelled by the workspace operations, not inside the request machine.
- Framing.Run: the asynchronous loop differs at the end of a stream that is cut short, where `readexactly` raises; the synchronous loop, which hands over what there is, is the one modelled. Lengths are not bounded by what Python converts to an integer.
- Notebooks and cells are values held in the workspace's dictionary: the deep copy made on opening is what makes this faithful. Metadata is an integer, zero standing for anything falsy, and execution summaries are not modelled.
- ClassifyTokens: the list holds token values, where the original changes objects that nothing else holds.
- Character classes of regular expressions, `str.isupper`, `str.strip` and digit values are parameters; the theorems that need it assume that bars, dashes, operators and line feeds are in the classes one expects.
- PullDiagnostics: a document's version is a number, and digits of any length are converted; the range of a diagnostic is its line and end character.
- ClientFormatting: a range is in lines of the server; a client whose lines differ means another range.
- Formatting.FormatTable: `cell_widths`, which nothing reads, and the end of the edits' ranges, always the start of the next line, are not modelled.
- Uris: `urlunsplit` is modelled as in the Python releases that write an empty authority before a path with two slashes; older ones write none, which matters only for the four slashes above. Malformed UTF-8 in a URI is reported instead of replaced, a URI is a string of ASCII characters, and the stripping of control characters by `urlsplit` is left out, as are query, fragment and `uri_with`. Windows, where backward slashes are exchanged, is left out.
- The sweep of `lsp_shutdown` over the live table, which callbacks change while it is iterated; setting the shutdown flag is an event of the machine.
- `range_to_client_units`, `word_at_position`, folders and reading documents from disk: easy members.
- Encodings other than the three that are negotiated.
- Writer failures and `BrokenPipeError`, error reporting to the user, logging, `_result_types`, and the structuring of messages by `cattrs`: messages are datatypes and bodies are opaque bytes.
- Sockets, websockets, pipes, the client, the command line, generated wrappers, and the rendering of HTML.
