# Verified models of the hard parts of Resolved

This project models, in Dafny, the pieces of the repository whose correctness is hardest to see from the
code, and proves what the code and its comments promise of them. `dafny verify dfyconfig.toml` checks
everything.

Code that changes state is modelled by classes and loops and proved against a specification function;
the properties are then proved about that function. Concurrent code is a state machine: every atomic
action is a step, and a run is any sequence of enabled steps, so a lemma about runs speaks of every
interleaving.

| file | what it models |
|---|---|
| `Compaction.dfy` | the build step that rewrites the tail of a dense LR table as packed rows: a transformation that must not change what any state and symbol look up |
| `EventSystem.dfy`, `EventStop.dfy` | shutting down the event listener: senders, loops that may panic and be revived, and the stopper, around one 64-bit word and a bounded channel; and when the stop can end |
| `ChannelHub.dfy`, `ChannelCalls.dfy` | joining and leaving channel hubs that are created on demand and deleted when empty, and what the callers are promised |
| `ScriptLiteral.dfy`, `ScriptSpelling.dfy`, `ScriptLexer.dfy`, `ScriptTokens.dfy` | the lexer of the script editor, the printer that escapes a name for it, a grammar of string literals, and what the tokens are in terms of the text |
| `LexicalPosition.dfy`, `LexicalReading.dfy` | deciding whether a snippet may be offered at the end of a text, against a grammar of nested code that reads every text |
| `JsonPointer.dfy`, `BodyTargets.dfy`, `BodyEvaluation.dfy`, `BodyHover.dfy` | the fields of a JSON body that annotations may name: discovery on a syntax tree, its reference (evaluation as in section 4 of RFC 6901), and the choice of the field under the mouse |
| `NameTokens.dfy`, `NameSpelling.dfy` | target names in annotations, bare or as JSON strings (section 7 of RFC 8259), joined by bars |
| `TextOffsets.dfy` | byte, UTF-16 and line/column offsets, and the spans of a wrapped snippet |
| `TemplateScan.dfy` | template expressions: the full forward scan and the bounded backward scan |
| `References.dfy` | links in documentation: scan, removal of overlaps, projection |
| `ResourceCache.dfy` | the cache of the reference catalog and of decorations |
| `UpdateSession.dfy` | the desktop side of the updater protocol: framing, validation, cancellation |
| `IoWorker.dfy` | the ordered I/O worker and its shutdown |
| `Numbers.dfy`, `Sequences.dfy`, `Wrappers.dfy` | bounds, digits, facts and types that several of these share |

Five promises turned out not to hold for every input. Each has a lemma with a concrete input that breaks it
and a lemma that says exactly when it holds:

- Compaction breaks a parser that has a small state numbered below the retained boundary: that state gets a
  negative designator and nothing compiles (`TinyParserIsBroken`, `CompactionIsFaithful`). `retained` is 512 or
  128 whatever the count is, so this needs a parser with fewer than 128 large states.
- After one recovered handler panic the stop context can be done while the revived loop still holds an event
  (`RevivedLoopOutlivesStop`), and so can it without any panic when a loop is started during the stop
  (`LateLoopOutlivesStop`). The promise is kept if and only if no handler has panicked and no loop that began
  after the wait is at work; when every loop began before, if and only if no handler has panicked
  (`StopMeansHandled`). In every run, an event that was not dropped or completely handled ended in a panic of
  its own handler or is held by a loop outside the wait group (`StopLeavesOnly`).
- A stop need not end: a loop that is started during it can be registered too late to be told to leave
  (`LateLoopBlocksStop`). From any state of any run, the stopper can reach its end without another panic if and
  only if no loop blocks it; behind the wait it always can (`StopCanEnd`).
- The backward template scan reports an open expression when the cursor stands between the two braces of a
  closer (`SplitCloserIsReported`, `BackwardScanIsExact`).
- Cutting a script behind a string literal that a line break stopped changes its last token: the
  literal gains a value (`LineBreakIsLost`, `LexingIsStableUnderTruncation`).

## Model

| member | source | states |
|---|---|---|
| Compaction.GroupRow | scripts/tree-sitter-compact.rs:89-107 | a row is refused exactly for a duplicate symbol or a value that is not a u16; otherwise its symbols are grouped by value, zero left out |
| Compaction.EmitRow | scripts/tree-sitter-compact.rs:108-120 | the words of a packed row carry designators that match their positions, and the running offset is advanced by exactly the words written |
| Compaction.PlaceRow | scripts/tree-sitter-compact.rs:72-121 | one row is kept or packed behind the rows before it; it is refused out of order or when malformed |
| Compaction.PackDense | scripts/tree-sitter-compact.rs:68-121 | the loop over all rows produces the kept rows, the packed words and the new map entries together |
| Compaction.Transform | scripts/tree-sitter-compact.rs:34-136 | unchanged at the boundary; otherwise a table is produced exactly for accepted inputs, with kept rows, appended packed rows, prepended map entries and the new boundary |
| Compaction.GroupsKeepRow | scripts/tree-sitter-compact.rs:89-107 | the groups of a row answer every symbol as the dense row does |
| Compaction.ReadPacked | scripts/verify-tree-sitter-tables.py:65-70 | the reader of the small table, started at packed groups, gives the value of the last group that lists the symbol |
| Compaction.ReadPackedRow | scripts/verify-tree-sitter-tables.py:65-70 | reading a packed row anywhere in a table gives what its dense row listed, for every symbol |
| Compaction.LaidOutAt | scripts/tree-sitter-compact.rs:108-119 | every moved row stands at exactly the offset its map entry records |
| Compaction.LaidOutDesignators | scripts/tree-sitter-compact.rs:50-63 | designators of the appended rows match their positions, so each initializer emits the word it says |
| Compaction.MapSlotShift | scripts/tree-sitter-compact.rs:130-135 | when the boundary moves down, every old map entry is found at its shifted index |
| Compaction.KeptDenseLookup | scripts/tree-sitter-compact.rs:85-88 | a retained dense state looks up what it looked up before |
| Compaction.OldSmallLookup | scripts/tree-sitter-compact.rs:128-135 | an old small state looks up what it looked up before, behind the appended rows and the renumbered map |
| Compaction.ReadGroupsPrefix | scripts/tree-sitter-compact.rs:128-129 | appending rows behind the small table changes no reading inside it |
| Compaction.CompactionIsFaithful | scripts/tree-sitter-compact.rs:45-135 | every state and symbol look up the same value as before if and only if no small state is numbered below the retained boundary; always so when the boundary moves down |
| Compaction.TinyParserIsBroken | scripts/tree-sitter-compact.rs:45-48 | a one-state dense table with one small state is accepted, and rewritten it has a negative designator: it does not compile, so no state looks up anything |
| Compaction.PackedWordsFit | scripts/tree-sitter-compact.rs:103-117 | with fewer than 65536 symbols nothing is cut when the words become uint16_t |
| Compaction.RewrittenWordsFit | scripts/tree-sitter-compact.rs:49-136 | so every word of the rewritten small table is a uint16_t, if every word of the old one is |
| EventSystem.StopBitOnBits | server/eventsystem/event_listener.go:15-16 | testing, setting and masking the stop bit of a machine word are what they are on its number |
| EventSystem.MinusOneOnBits | server/eventsystem/event_listener.go:82-84 | adding 2^64-1 lowers a positive count by one and leaves the stop bit alone |
| EventSystem.WordFireStep | server/eventsystem/event_listener.go:65-84 | entering and leaving keep the low 63 bits equal to the number of senders in flight |
| EventSystem.FireStepKeepsBit | server/eventsystem/event_listener.go:65-84 | no step of a sender sets or clears the stop bit |
| EventSystem.FireStepStaysOut | server/eventsystem/event_listener.go:68-70 | once the stop bit is set, no sender gets in |
| EventSystem.SwapLetsIn | server/eventsystem/event_listener.go:65-78 | a sender that saw the stop bit is refused and one that saw 2^63-1 senders overflows; any other gets in, as one sender more, if the word is still what it saw, and else tries again |
| EventSystem.SendsInOrder | server/eventsystem/event_listener.go:143-162 | with fewer than 64 events buffered a sender can send, at once or after waiting, and puts its event behind the others; otherwise it waits, and giving up drops the event |
| EventSystem.LeavesOnce | server/eventsystem/event_listener.go:80-84 | a sender that is done can leave, as one sender less |
| EventSystem.FirstInFirstOut | server/eventsystem/event_listener.go:143-197 | in every run, the events taken by loops and stoppers, followed by those buffered, are the events sent, in the order in which they were sent |
| EventSystem.InvAfter | server/eventsystem/event_listener.go:65-235 | the inductive invariant of the listener holds in every run |
| EventSystem.ClosesSafely | server/eventsystem/event_listener.go:65-205 | in every interleaving no send and no second close reaches the closed channel, and it closes empty, behind the stop bit, with nobody in flight |
| EventSystem.EveryEventAccountedFor | server/eventsystem/event_listener.go:146-205 | once closed, every event that got in was dropped by its timeout or received by exactly one loop or stopper |
| EventSystem.StopLeavesOnly | server/eventsystem/event_listener.go:188-235 | when the stop context is done and the process lives, whatever has panicked, every event that got in was dropped, or all its handlers have run in registration order, or it ended in a panic of its own handler, or a loop outside the wait group still holds it |
| EventSystem.StopMeansHandled | server/eventsystem/event_listener.go:188-235 | when the stop context is done, every event that got in was dropped or had all its handlers run in registration order, if and only if no handler has panicked and no loop that began after the wait still has handlers to run |
| EventSystem.RevivedLoopOutlivesStop | server/eventsystem/event_loop.go:32-44 | whatever the handlers, after one recovered panic the stop context can be done while the revived loop holds an event none of whose handlers has run |
| EventSystem.LateLoopOutlivesStop | server/eventsystem/event_listener.go:129-141 | without any panic too: a loop whose start read the stop bit before the stop, and that begins after the wait, can hold an event none of whose handlers has run |
| EventStop.PanicRevives | server/eventsystem/event_loop.go:32-44 | a recovered panic ends the goroutine and starts one more for the same loop, up to its second revival |
| EventStop.OneGoroutineEach | server/eventsystem/event_loop.go:32-58 | in every run a loop has at most one goroutine that has not left, and none was revived more than twice |
| EventStop.LoopsMayLeave | server/eventsystem/event_loop.go:46-58 | an idle loop leaves exactly if its stop channel is closed, or the event channel is closed and drained; it is registered once it has begun, but not while the stop channels are being closed |
| EventStop.LoopsBegin | server/eventsystem/event_listener.go:129-138 | a loop is begun by a call that read the word without the stop bit, and only then |
| EventStop.BlockedForGood | server/eventsystem/event_listener.go:188-190 | a stopper that waits for a loop whose stop channel it has not closed, or will not close, never gets past it unless a handler panics |
| EventStop.LateLoopBlocksStop | server/eventsystem/event_listener.go:129-141 | a loop started during the stop, registered too late, brings it there |
| EventStop.StopCanEnd | server/eventsystem/event_listener.go:188-205 | from any state of any run that has not crashed, some continuation without another panic ends the stop if and only if no loop blocks it; behind the wait there always is one |
| ChannelHub.Hub.Enter | server/websocket/chub.go:49-58 | joining appends the connection |
| ChannelHub.Hub.Remove | server/websocket/chub.go:60-71 | leaving removes every occurrence of the connection and keeps the others in order |
| ChannelHub.Hub.RemoveAndCheck | server/websocket/chub.go:73-88 | the compare-and-delete is called exactly when nobody else is left |
| ChannelHub.InvAfter | server/websocket/chub.go:49-150 | the invariant of hubs, map and calls holds in every run, for any number of concurrent joiners and leavers |
| ChannelHub.JoinedIsReachable | server/websocket/chub.go:131-150 | once a join has returned and its connection has not left, the hub mapped for the channel contains it |
| ChannelHub.DeletedForGood | server/websocket/chub.go:73-88 | a hub removed from the map is never mapped again, by any continuation |
| ChannelHub.HubHoldsExactlyItsJoins | server/websocket/chub.go:131-150 | a mapped hub holds exactly the connections of the joins that are in it: no leave and no retreat takes one that is not its own or leaves a stray |
| ChannelHub.NoEmptyHubLingers | server/websocket/ws_server.go:329-338 | when all calls have returned, a channel is mapped exactly when some join to it still holds |
| ChannelCalls.ReturnedJoinIsReachable | server/websocket/chub.go:131-150 | once a join has returned and nobody has called to leave with that connection, the hub mapped for the channel contains it |
| ChannelCalls.ReturnedLeaveRemoves | server/websocket/ws_server.go:329-338 | once a leave has returned, the connection is in no hub mapped for the channel, if every join of it there had returned before the leave was called |
| ChannelCalls.LastLeaveUnmaps | server/websocket/chub.go:73-88 | if moreover nobody else joined and all calls have returned, the channel is not mapped any more |
| ChannelCalls.NothingIsLeftBehind | server/websocket/chub.go:131-150 | when all calls have returned, a hub that still holds a connection is mapped |
| ChannelCalls.JoinThenLeave | server/websocket/chub.go:49-150 | a run in which a connection joins and is reachable, then leaves and the hub is gone |
| ChannelCalls.JoinCanReturn | server/websocket/chub.go:131-150 | from any state of any run, whatever the others have done, a join can return |
| ChannelCalls.LeaveCanReturn | server/websocket/ws_server.go:329-338 | and so can a leave |
| ScriptLiteral.ParseStringLiteral | src/script_intelligence.rs:2572-2658 | the loop computes the literal that the piecewise specification gives |
| ScriptLiteral.EscapeForQuote | src/script_intelligence.rs:1967-1983 | the loop writes the escaped name |
| ScriptLiteral.EscapeRoundTrip | src/script_intelligence.rs:1967-1983 | for either quote, a quoted escaped name parses back to the name, terminated, ending just behind the closing quote, whatever text is around it |
| ScriptLiteral.ParseHexCut | src/script_intelligence.rs:2660-2667 | a hexadecimal escape that ends before a cut reads the same in the cut text, and one that is not there does not appear |
| ScriptLiteral.ParseBracedCut | src/script_intelligence.rs:2669-2680 | the same for a braced escape |
| ScriptLiteral.ScanCut | src/script_intelligence.rs:2572-2658 | a literal scans the same in a text cut at or behind its end, but for the line break that stopped it |
| ScriptSpelling.SpellingReads | src/script_intelligence.rs:2585-2680 | every way to spell a character (itself, an escape, a line continuation, two or four hexadecimal digits, or one to six in braces) is read as one piece that means it, wherever it stands; surrogates, numbers above 10FFFF and escapes without their number make the literal invalid |
| ScriptSpelling.SpelledLiteralReads | src/script_intelligence.rs:2572-2658 | any list of spellings between two quotes reads as what it means together, or has no value if one of them means nothing |
| ScriptSpelling.ClosedIsSpelled | src/script_intelligence.rs:2572-2658 | and every literal that is closed is such a list |
| ScriptLexer.SkipTemplateLoop | src/script_intelligence.rs:2682-2697 | the loop finds the end of a template literal, or the end of the text |
| ScriptLexer.SkipRegexLoop | src/script_intelligence.rs:2699-2731 | the loop finds the end of a regular expression with its flags, respecting classes and escapes |
| ScriptLexer.Lex | src/script_intelligence.rs:2394-2536 | the loop computes the tokens round by round |
| ScriptLexer.TokensAreSpans | src/script_intelligence.rs:2394-2536 | tokens are nonempty, in order, disjoint and inside the text |
| ScriptLexer.LexCut | src/script_intelligence.rs:2394-2536 | from any point of the scan, cutting at the end of a token keeps all tokens up to it |
| ScriptLexer.LexingIsStableUnderTruncation | src/script_intelligence.rs:2394-2536 | cutting at the end of a token gives exactly the tokens up to there, if and only if that token is not a string literal stopped by a line break after valid escapes |
| ScriptLexer.LineBreakIsLost | src/script_intelligence.rs:2572-2658 | a quote, a letter, a line break and a letter: cut behind the first letter, the literal that had no value gets one |
| ScriptLexer.LiteralsAreScanned | src/script_intelligence.rs:2394-2536 | every literal token carries what parsing its own text gives |
| ScriptTokens.TokensAreTheText | src/script_intelligence.rs:2394-2570 | from any point of the scan the lexer gives exactly what stands in the text: each token made as its first character says, only white space and whole comments between them, regular expressions exactly where the token or a line comment before allows one, and how the text ends |
| ScriptTokens.EveryTokenIsWellMade | src/script_intelligence.rs:2480-2536 | dots, parentheses and commas are exactly the tokens with that text; a name is exactly its text, begins and goes on as one and ends where it no longer does; string literals begin with a quote; every other character is a token of its own |
| LexicalPosition.IsCodePosition | src/snippet_intelligence.rs:1177-1268 | the scanner with its stack of template depths answers as the step-by-step specification |
| LexicalPosition.CodeReturnsToCode | src/snippet_intelligence.rs:1177-1268 | scanning any well-formed nesting of code, braces, strings, comments and templates returns to code with the depth stack it began with; braces without a partner may stand outside templates |
| LexicalPosition.CutsAreReportedExactly | src/snippet_intelligence.rs:1177-1268 | a cut of such a text is reported as code if and only if the grammar says it lies in code |
| LexicalReading.EveryTextIsDecided | src/snippet_intelligence.rs:1177-1268 | every text whatever is a cut of well-formed code, so the grammar decides the answer for every prefix, and the scanner gives it |
| JsonPointer.ValidJsonPath | src/documentation_body.rs:89-105 | the loop accepts exactly the empty path and paths with a leading slash whose tildes are followed by 0 or 1 |
| JsonPointer.TokenRoundTrip | src/documentation_body.rs:242 | escaping a key and unescaping it as the standard says gives the key |
| JsonPointer.PointerRoundTrip | src/documentation_body.rs:218-246 | printing reference tokens and parsing the pointer gives the tokens, so different paths never share a name |
| JsonPointer.ValidPathsAreThePointers | src/documentation_body.rs:89-105 | the syntax check accepts exactly the printed forms of token lists |
| JsonPointer.ArrayIndexIsDigits | src/documentation_body.rs:214-223 | a token is the array index n by the rule of the standard exactly when it is n printed in decimal |
| BodyTargets.Targets.constructor | src/documentation_body.rs:152-166 | targets begin empty, complete only if the strict parser accepted the text |
| BodyTargets.Targets.Insert | src/documentation_body.rs:31-34 | a range is added behind those of the same path |
| BodyTargets.Targets.Discover | src/documentation_body.rs:180-253 | the recursive walk records exactly the hits of its specification, in order, below the given path, and gives up completeness exactly at the depth limit |
| BodyTargets.Targets.DiscoverChildren | src/documentation_body.rs:204-252 | the loop over the children stops at the first recovery node and counts only array elements |
| BodyTargets.Targets.DiscoverChild | src/documentation_body.rs:211-251 | one child adds its field, or nothing: a comment, a pair without key, value or colon |
| BodyTargets.Targets.Contains | src/documentation_body.rs:66-75 | present, absent, or unknown when the parse was not complete |
| BodyTargets.ParseJson | src/documentation_body.rs:152-178 | only the first value of a document is assigned to the root |
| BodyEvaluation.DiscoveryIsEvaluation | src/documentation_body.rs:180-253 | on an error-free tree the ranges discovered at any tokens are exactly those that evaluation reaches, duplicate keys included, within the depth limit; beyond it there are none |
| BodyEvaluation.RangesAreTheFields | src/documentation_body.rs:77-83 | the ranges stored under a pointer's text are exactly the fields it evaluates to |
| BodyEvaluation.NamesArePointers | src/documentation_body.rs:60-62 | every discovered name passes the syntax check and is the text of a pointer that evaluates |
| BodyEvaluation.FullMeansAllWithinLimit | src/documentation_body.rs:188-192 | completeness survives only if no pointer that evaluates is beyond the limit |
| BodyEvaluation.NotFullHasDeepPointer | src/documentation_body.rs:188-192 | and is given up only if there is one |
| BodyEvaluation.AnswersAreTrue | src/documentation_body.rs:64-75 | presence is claimed exactly for pointers within the limit that evaluate, absence only for those that do not, and uncertainty only when the strict parser refused the text or a field is too deep |
| BodyEvaluation.UndecodedKeyIsSkipped | src/documentation_body.rs:238-240 | a member whose key does not decode is skipped: an object with only such a member is a tree of the theorems above, records nothing but its root, and discovery is still complete |
| BodyEvaluation.NothingIsInvented | src/documentation_body.rs:193-209 | on any tree, recovery nodes included, a range is recorded at a pointer only where the pointer evaluates to it |
| BodyHover.SmallObjectIsLocated | src/documentation_body.rs:211-251 | the tree of a one-member object, its pair listing key and value, is a tree of the theorems below, and its field is recorded |
| BodyHover.DiscoveredNested | src/documentation_intelligence.rs:527-528 | discovered ranges form a strictly nested family: of two fields one lies after the other, or below it with a longer pointer and a shorter range |
| BodyHover.HoverShowsTheDeepest | src/documentation_intelligence.rs:529-554 | choosing the shortest range shows the explanation of the deepest field under the offset, or nothing, and never a parent's |
| BodyHover.DeepestIsUnderTheOffset | src/documentation_intelligence.rs:529-554 | the chosen field is one that its pointer evaluates to, and the offset is in it, from its start and before its end |
| BodyHover.DeepestIsBelowAll | src/documentation_intelligence.rs:529-554 | every pointer that evaluates to a range around the offset leads to the chosen field or an ancestor of it |
| NameTokens.ReadName | src/documentation_intelligence.rs:142-159 | the loop finds the closing quote that no backslash escapes, or the first white space |
| NameTokens.TargetTokens | src/documentation_intelligence.rs:175-195 | the tokenising loop ends and computes the chain of names and bars |
| NameTokens.TokenLoop | src/documentation_intelligence.rs:178-193 | the loop itself, for any way to find the end of a name and the next one; it always advances |
| NameTokens.EscapeRoundTrip | src/documentation_intelligence.rs:161-171 | writing a name as a JSON string and reading the string gives the name |
| NameTokens.NameRoundTrip | src/documentation_intelligence.rs:142-171 | an encoded name is read back, with its exact length, whatever follows behind white space |
| NameTokens.PrintedNamesTokenise | src/documentation_intelligence.rs:173-195 | printing any list of names joined by bars and tokenising it with text behind gives exactly their ranges, if and only if that text does not go on with a standalone bar |
| NameTokens.PrintedNamesReadBack | src/documentation_intelligence.rs:260-263 | reading the text of each of those ranges gives its name |
| NameSpelling.SpelledReads | src/documentation_intelligence.rs:142-151 | any list of spellings that section 7 of RFC 8259 allows in a string, surrogate pairs included, reads as the characters that they mean |
| NameSpelling.ReadIsAllSpelled | src/documentation_intelligence.rs:142-151 | and whatever reads is such a list |
| NameSpelling.WrittenAsNeeded | src/documentation_intelligence.rs:161-171 | a name is quoted exactly where it is empty or has white space, a quote, a backslash or a backtick, and only quotes, backslashes and control characters are escaped |
| NameSpelling.NextIsBehindTheBar | src/documentation_intelligence.rs:182-192 | the next alternative begins where the white space behind a bar that stands alone ends, and only there |
| TextOffsets.BoundaryScalar | src/typescript_service.rs:1060 | every byte boundary of the UTF-8 text is the end of a prefix of scalars |
| TextOffsets.ScalarBoundary | src/typescript_service.rs:1060 | and the end of every such prefix is a byte boundary |
| TextOffsets.Utf8IsStandard | src/typescript_service.rs:1059-1081 | the bytes of a scalar decode to it by the table of RFC 3629 and are as few as can be, and UTF-16 needs a pair exactly above FFFF |
| TextOffsets.FindUtf16Offset | src/typescript_service.rs:1069-1081 | the loop finds the byte offset of a UTF-16 offset, or that it splits a pair or is past the end |
| TextOffsets.OffsetsAreInverse | src/typescript_service.rs:1059-1081 | byte and UTF-16 offsets of the same scalar position convert into each other |
| TextOffsets.Utf16FailsExactly | src/typescript_service.rs:1069-1081 | conversion of a UTF-16 offset fails exactly inside a surrogate pair or past the end, and is otherwise undone by the other |
| TextOffsets.ByteFailsExactly | src/typescript_service.rs:1059-1067 | conversion of a byte offset fails exactly inside a scalar or past the end |
| TextOffsets.ByteConversionIsUndone | src/typescript_service.rs:1059-1081 | where it succeeds, the other conversion undoes it |
| TextOffsets.ClippedCharBoundary | src/editor_util.rs:34-40 | the loop stops at the last boundary at or before the offset |
| TextOffsets.SourcePositionRoundsDown | src/editor_util.rs:20-30 | at any byte offset, line and column are those of the last scalar boundary at or before it, modulo 2^32 |
| TextOffsets.PositionOfBytes | src/typescript_service.rs:1103-1110 | counting newline bytes, and scalars behind the last one, gives the line and column of the text |
| TextOffsets.PositionsAgree | src/typescript_service.rs:1097-1116 | the UTF-16 conversion gives the same line and column as the simple one, and fails where a coordinate needs more than 32 bits |
| TextOffsets.SpansProject | src/typescript_service.rs:1014-1037 | for any UTF-16 offsets, a span of the wrapped text that lies in the visible source projects to the same span there, or fails where an end is inside a surrogate pair; every other one is dropped |
| TextOffsets.SpansClamp | src/typescript_service.rs:1039-1057 | for any UTF-16 offsets, a clamped span is exactly the visible part of the span, and fails exactly where an end of that part is inside a surrogate pair or needs more than 32 bits |
| TemplateScan.ScanTemplateSpans | src/template_intelligence.rs:224-258 | the loop computes the spans from left to right |
| TemplateScan.TrimmedRange | src/template_intelligence.rs:260-269 | the name range cuts white space from both ends of the inner range and nothing else |
| TemplateScan.SpansAreDisjoint | src/template_intelligence.rs:220-258 | spans are ordered and disjoint, closed by the first closer behind their opener, no opener lies between them, and only the last may be unclosed |
| TemplateScan.HasOpenTemplateBeforeCursor | src/template_intelligence.rs:416-438 | the bounded loop over the reversed characters answers as its specification |
| TemplateScan.LimitIs | src/template_intelligence.rs:422-424 | the limit is 34 characters more than the longest name, as far as a machine word goes |
| TemplateScan.OpenMeansOpener | src/template_intelligence.rs:427-437 | it answers yes only if the last delimiter pair before the cursor is an opener within the limit, on the same line |
| TemplateScan.OpenerMeansOpen | src/template_intelligence.rs:427-437 | and always then |
| TemplateScan.BackwardScanIsSound | src/template_intelligence.rs:416-438 | whatever the limit, an open template that is reported is a scanned span around the cursor, if the cursor splits no closer |
| TemplateScan.BackwardScanIsExact | src/template_intelligence.rs:416-438 | a reported open template is a scanned span around the cursor if and only if the cursor splits no closer |
| TemplateScan.SplitCloserIsReported | src/template_intelligence.rs:431-435 | between the closing braces of a one-letter expression the report is wrong |
| TemplateScan.BackwardScanIsComplete | src/template_intelligence.rs:416-438 | a span around the cursor whose opener is on the same line and within the limit is reported |
| References.ScanReference | src/documentation_references.rs:157-187 | the loop finds the closing parenthesis or the end of the line |
| References.StopIsFirstUnquoted | src/documentation_references.rs:168-182 | a reference closes at the first parenthesis of its line outside quotes, where a quote counts unless an odd number of backslashes escapes it |
| References.EscapedIsOddRun | src/documentation_references.rs:146-155 | an opener is escaped exactly if the run of backslashes right before it is odd |
| References.EveryOpenerIsFound | src/documentation_references.rs:143-192 | in a text range, every opener that is not escaped begins a reference that is found or stands inside one |
| References.FoundIsFirst | src/documentation_references.rs:144 | the opener found is the first one inside the text range |
| References.ScanText | src/documentation_references.rs:143-192 | the loop over one text range finds its references one after the other, skipping escaped openers |
| References.FindReferences | src/documentation_references.rs:210-223 | all text ranges are scanned, sorted and freed of overlaps |
| References.RetainDisjoint | src/documentation_references.rs:215-222 | the loop keeps what starts at or behind the end of the last one kept |
| References.SortedIsOrdered | src/documentation_references.rs:214 | sorting orders by start and keeps every reference |
| References.ReferencesAreApart | src/documentation_references.rs:210-223 | the references are written in the source, sorted and non-overlapping, and every one that was dropped starts inside one that was kept |
| References.ExpressionIsTrimmed | src/documentation_references.rs:128-132 | the expression is what stands between the parentheses, without the white space around it |
| References.ProjectText | src/documentation_references.rs:36-62 | the loop builds the projected text and its links |
| References.LinksAreTheKnown | src/documentation_references.rs:41-56 | the links are exactly the complete references that the catalog knows, in order, each naming its expression and leading to the resource stored under it |
| References.ProjectionRestoresSource | src/documentation_references.rs:36-62 | for the references of any document, every link range covers exactly its expression, and putting the references back in place of the links restores the document |
| ResourceCache.EqualInputsMeanEqualNavigation | src/documentation_intelligence.rs:329-407 | two workspaces have equal flattened inputs exactly when their collection trees and active environments are equal |
| ResourceCache.InputsRoundTrip | src/documentation_intelligence.rs:360-407 | the navigation can be read back from the flattened inputs |
| ResourceCache.DocumentationIntelligence.RefreshResources | src/documentation_intelligence.rs:439-473 | the new state is that of the run's step, and a change is reported exactly when the catalog changed |
| ResourceCache.DocumentationIntelligence.InvalidateDecorations | src/documentation_intelligence.rs:475-477 | forgets the last decoration |
| ResourceCache.DocumentationIntelligence.RefreshDecorations | src/documentation_intelligence.rs:481-494 | asks for decorations unless source and styles are those of the last ones |
| ResourceCache.CatalogIsFresh | src/documentation_intelligence.rs:432-473 | after any run of refreshes the cached catalog is the one built from the workspace refreshed last |
| ResourceCache.SkippedMeansUnchanged | src/documentation_intelligence.rs:469-494 | decorations are skipped only when an earlier call decorated the same source in the same styles and the catalog has not changed since |
| ResourceCache.UnchangedMeansSkipped | src/documentation_intelligence.rs:479-494 | and then they always are |
| UpdateSession.DecodeOperation | src/update_download.rs:98-190 | only whole frames of at most 16 KiB are accepted, and no progress past the approved size |
| UpdateSession.AcceptedExactly | src/update_download.rs:140-175 | the one message that counts as a completed download, and the one that counts as a verification, for the approved artifact |
| UpdateSession.OtherwiseAccepted | src/update_download.rs:98-189 | the progress messages, the cancellation and the errors that are accepted, exactly |
| UpdateSession.RefusedExactly | src/update_download.rs:98-175 | whatever else is refused, by what is wrong with it |
| UpdateSession.PublisherIsChecked | src/update_download.rs:156-166 | a verification names ten capital letters or digits, and a version of digits that is not zero |
| UpdateSession.ErrorIsTold | src/update_download.rs:177-187 | an error is told in the helper's words, or by its code if it has none |
| UpdateSession.OutcomeWasSaid | src/update_download.rs:109-175 | whatever the helper sends, a good result comes from a message contained in its output that reports exactly that result |
| UpdateSession.Session.constructor | src/update_download.rs:366-369 | a session begins with an empty buffer, no result and no progress |
| UpdateSession.Session.ReadUntil | src/update_download.rs:311-316 | bytes move from the chunks into the buffer up to a newline, the limit or the end, and survive when the call has to wait |
| UpdateSession.Session.TakeFrame | src/update_download.rs:320-339 | one frame is checked and applied as the reference does, and at most one update goes to the view |
| UpdateSession.Session.ReceiveFrame | src/update_download.rs:311-339 | one turn of the loop does what feeding its bytes one at a time does |
| UpdateSession.Session.Receive | src/update_download.rs:304-341 | a call leaves the session as the byte-at-a-time reference does for the bytes it took, whatever the chunks; updates sent never go back or past the approved size |
| UpdateSession.StreamIsSound | src/update_download.rs:311-330 | on any stream the buffer never exceeds 16 KiB and one byte, and accepted progress never decreases or passes the approved size |
| UpdateSession.GoodStreamsSucceed | src/update_download.rs:304-341 | accepted progress that never goes back, followed by one accepted message that ends the session, is taken to the end without an error, with that message's result |
| UpdateSession.PiecesDoNotMatter | src/update_download.rs:296-301 | however a stream is cut into chunks and into calls that are dropped and repeated, result, error and progress are the same |
| UpdateSession.OwnCommand | src/update_download.rs:344-422 | the outcome is decided by the exit and the whole stream, or by what came of it before a time-out and that time-out; only a view that is closed or stuck can end it otherwise, with its own error; if the view always takes updates, a completed outcome is reported exactly after a successful exit, and errors, cancellation and exit trouble are answered in their order |
| UpdateSession.RunOperation | src/update_download.rs:271-422 | whatever arrives and whenever it is interrupted, a good outcome is approved, and a download or verification is reported only after a successful exit, from a message in the helper's output, as the result of everything that came; and if the view always takes updates it is reported then |
| UpdateSession.CompletionWins | src/update_download.rs:387-421 | cancelling changes the outcome of a stream only where nothing was completed and no protocol error occurred |
| IoWorker.Worker.constructor | src/io.rs:52-77 | a worker begins open, with an empty inbox |
| IoWorker.Worker.Send | src/io.rs:88-96 | a job is queued in order, or refused and its reply closed |
| IoWorker.Worker.Run | src/io.rs:79-98 | submission is one step of the run |
| IoWorker.Worker.Shutdown | src/io.rs:100-110 | the barrier is queued and the only sender is taken |
| IoWorker.Worker.Turn | src/io.rs:68-70 | one turn of the loop runs the oldest job, or ends when the channel is closed and empty |
| IoWorker.Worker.Drain | src/io.rs:67-71 | after a shutdown the loop runs every accepted job and ends |
| IoWorker.InvAfter | src/io.rs:47-111 | the invariant of inbox, replies and history holds in every run |
| IoWorker.ExecutedIsPrefix | src/io.rs:79-98 | in every run the executed jobs are a prefix of the accepted ones in submission order, each answered with its own result, panics included, unless its reply was dropped |
| IoWorker.SubmittedIsAnswered | src/io.rs:79-98 | an operation that was accepted becomes the job behind those before it; its reply, if kept, shows its value exactly when it has run and gave it, a panic exactly when it has run and panicked, and nothing before |
| IoWorker.RefusedIsTold | src/io.rs:87-97 | whoever submits without a sender or a worker is told that the worker is unavailable from then on |
| IoWorker.NextIsOldest | src/io.rs:67-71 | the worker can always go on with the oldest job that has not run |
| IoWorker.DroppedIsGone | src/io.rs:30-33 | a reply that was dropped stays dropped, whatever is sent to it |
| IoWorker.TwoThenShutdown | src/io.rs:79-110 | a run of two operations, of which the second panics, and a shutdown: all three are answered |
| IoWorker.ShutdownReplyIsLast | src/io.rs:100-111 | shutdown, unless its reply was dropped, is answered exactly when every accepted job has run |
| IoWorker.NothingAcceptedAfterShutdown | src/io.rs:102-108 | after the sender was taken no job is accepted, by any continuation, and whoever submits is told so |
| IoWorker.DropsDoNotMatter | src/io.rs:30-33 | the run without its drops is possible and the same: every job runs as it would have, and every reply that was kept shows what it would have shown |

## Left out

- Text of the generated C parser in `Compaction`: tables are the parsed initializer lists, and the assertions on the text's shape that remain are the accepted inputs.
- Symbol names in `Compaction` are numbers, in the order the generator lists them.
- The message of the sender count overflow in `tryEnterFire`: `EventSystem` has the overflow as a terminal state of the caller.
- Handler registration in `EventSystem`: a call brings the handlers it cloned.
- Watchdogs, `Snapshot` and `Range` of channel hubs, and the identity of users in `ws_server.go`.
- Byte widths in `ScriptLiteral`, `ScriptLexer`, `LexicalPosition`, `NameTokens`, `TemplateScan` and `References`: offsets count Unicode scalars there; `TextOffsets` is where bytes and UTF-16 units are told apart.
- Unicode character classes (white space, letters, digits) are parameters wherever they are used.
- Unicode in `ScriptTokens`: requires that quotes, backticks, slashes, dots, commas and parentheses are neither letters, digits nor white space.
- Regular expression literals in `LexicalPosition`: the scanner does not know them, and the grammar of the theorem has none.
- Saturation of brace depths at the largest machine word in `LexicalPosition`, which no text in memory reaches.
- Tree-sitter and the strict JSON parser behind `BodyTargets`: the syntax tree, the decoded keys and the verdict of the strict parser are inputs, whose agreement is not proved.
- BodyHover.HoverShowsTheDeepest: requires that the children of an object or array follow one another inside its brackets, because the parser that promises it is an input.
- XML bodies: discovery and path syntax, which would add a second, simpler walk.
- Diagnostics, tag recognition and Markdown line finding of `parse` in `documentation_intelligence.rs`; only the tokenising of targets is modelled.
- Construction of the reference catalog from the workspace: a parameter that sees the navigation alone, as the comment above `ResourceInput` demands.
- Conflicting annotations in `explanation`: the explanation of a path is a parameter of `BodyHover`.
- Markdown trees in `References`: the ranges of literal text are an input, in document order.
- Read errors, the channel that carries cancellation, process start and kill, and a panic of the supervising task in `UpdateSession`; a time-out is an input that may happen at any wait.
- UpdateSession.OwnCommand: does not say when a view that can be closed, or can stop taking updates, does end the operation, because that depends on the user.
- Building the runtime of the I/O thread: it may fail, as one step, before any job has run.
- Rendering, menus, tasks, settings pages, networking and files: user interface and plumbing around the parts above.
