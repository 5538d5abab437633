# Verified model of the web client's algorithmic cores

This project states and proves, in Dafny, what the self-contained algorithms of the IRC
web client compute: the image-to-IRC row optimiser and its wire emitter, the reader of
IRC formatting codes, the colour printers that must agree with that reader, the base-94
codec, the segmentation search, the grouping of the server log, the message batcher, the
grouping pipeline of a channel buffer, the text splitters, word wrapping, glyph pruning,
the buffer collection, the MODE line reader and the pruning of old bundles.

`dafny verify dfyconfig.toml` checks all of it.

## How it is built

Each algorithm that the client runs as a loop or on an object is a method or a class here,
with the same branches and the same variables. It is proved against a specification
function or a state machine, and the properties are lemmas about that specification. What a
specification computes is stated once more without it: on positions, fields, times, signs
or bytes.

| modules | part of the client |
|---|---|
| `RowModel`, `RowViterbi`, `RowEmitter`, `RowExact`, `RowDecode`, `RowRender` | one picture row: cost of every choice, the dynamic program, the printed text, when it is exactly as long as charged, its reading, all of it together |
| `IrcFormatting`, `IrcStyles` | the reader of formatting codes as an automaton, and what the codes mean |
| `ColourCodes`, `TextEffects`, `TextColours`, `TdfRender`, `TdfCells` | two printers proved against the reader, and which colour stands where |
| `Base94`, `Base94Values`, `Segmentation` | the codec, the numbers its blocks stand for, and the segmentation search |
| `ServerLog`, `ServerLogDedup`, `ServerLogRepeats`, `ServerLogStatus`, `ServerLogVerdicts`, `ServerLogGroups` | the server-log state machine, its first pass and which rows that drops, its status safety, what each line does to the attempts, and the loop over records in memory |
| `Batching`, `BatchingRuns`, `BatchingOrder`, `MessageBatcher` | the batcher as a timed machine, whole runs of it, what the callbacks get, and the module-level state |
| `MessageGroups`, `MessageAppend`, `MessageOrder`, `MessageBuilder` | grouping of a buffer, growing it at its end, what the groups look like, and the loops |
| `MessageSeams`, `DiscoSeams`, `MessageRebuild` | what the passes make of two lists put together, and growing a buffer against processing everything again |
| `LineSplitter`, `MessageSplitter`, `MessagePacking` | breaking lines, making messages of a text, and which lines share one |
| `ModeLine`, `ModeChanges` | the MODE line reader, and its changes letter by letter |
| `CodeLines`, `GroupWidths`, `GlyphPruning`, `BufferCollection`, `BundleMark` | one algorithm each |
| `Utf8`, `Whitespace`, `Pricing`, `Sequences`, `Wrappers` | UTF-8 sizes, white space, weighted byte counts, sequence facts, `Option` and `Result` |

## What came out

Some statements hold only under a condition. The code is modelled as it is; the exact
condition is proved.

- The row decodes exactly when no cell's character is a control code, none is a digit or
  comma that the code in front of it would take, and no true-colour cell sends its
  foreground alone: the reader drops the background on such a code
  (`RowDecode.EmittedRowDecodes`, `RowDecode.TrueColourLosesPaper`).
- The emitted row stays within the charged bytes plus one byte per transparent cell plus
  whatever the glyph table understates: custom glyphs are declared with a fixed size.
- The charge is what is really sent, one byte more per transparent cell, exactly when no
  state takes over from another one of its paper to draw spaces only
  (`RowExact.ExactBytes`). Among all choices that do not, the chosen row is the one with
  least colour error plus weight times bytes (`RowRender.LeastRealCost`). A choice that does
  is charged a code it never sends, and may really be cheaper
  (`RowRender.IdleSpaceIsOvercharged`).
- A coloured line loses a comma when the code in front of it carries no background
  (`TextEffects.ComposedLineShows`, `TextEffects.CommaIsLost`).
- A line of `renderTdfFont` shows its whole row exactly when the row does not end in white
  space (`TdfRender.LineShowsAll`). Paint is lost exactly when the row ends in a painted
  blank, although its background would show; a plain blank behind it saves it
  (`TdfRender.TrailingPaintIsDropped`, `TdfRender.PaintedBlankIsLost`,
  `TdfRender.PaintedBlankIsKept`).
- The byte-gap test of the glyph pruning is exact: it finds precisely the cheaper glyphs
  that cost no more on any cell (`GlyphPruning.DominatesExactly`).
- A colon in a network id misroutes its messages, and only that does
  (`Batching.SplitInvertsKey`).
- The 200 ms debounce of the backfill lane never decides when anything is delivered: the
  flush timer armed beside it always comes no later (`Batching.DebounceNeverDecides`).
  A flush timer that fired before its time would do nothing and leave the queue unattended
  (`Batching.EarlyCheckDoesNothing`).
- A phase tag on a disconnect command leaves an attempt that is closed and still pending;
  (`ServerLogStatus.TaggedDisconnectUnsettles`). A run stays safe exactly when no message
  unsettles the log it meets (`ServerLogStatus.RunStaysSafe`).
- Appending rows to a processed buffer does not always give what processing all rows gives.
  `MessageRebuild.Seamless` looks at the last two entries of the buffer and the first new
  rows, and `MessageRebuild.AppendIsProcess` proves it to be the exact condition, heads of
  MOTD groups aside. Two joins that arrive one by one are the smallest case
  (`MessageAppend.LoneJoinIsNotMerged`).
- `appendToProcessed` does not extend a buried MOTD group, although the comment above it
  says so: the group keeps its place and exactly its lines, alone or, when the row behind it
  grows into a disconnect-like run, as the first member of a disconnect group
  (`MessageRebuild.BuriedMotdIsNotExtended`). The caller's own list is cut short
  (`MessageBuilder.AppendToProcessed`).
- Base-94 text survives decoding and encoding exactly when it is canonical; other text of
  the alphabet decodes too (`Base94.ExactlyCanonicalTextsSurvive`).
- A payload budget keeps the relayed line within the limit exactly when the lower clamp of
  80 bytes does not lift it beyond the safety margin (`MessageSplitter.PayloadsFit`).
- The flags of a MODE line, written out as one string, read back as the same flags exactly
  when none of them contains a space (`ModeLine.FlagTextReadsBack`, `ModeLine.SpacedKeyIsCut`).
- Highlighted lines are balanced one by one exactly when the whole is
  (`CodeLines.SplitHighlightedLines`).

## Modelling choices

- Costs, weights, luma and coverage are real numbers; integers are unbounded. The sentinel
  1e18 of the two dynamic programs is kept.
- Text is a sequence of code points without lone surrogates, each with its UTF-8 size.
- Exceptions and missing values are `Result` and `Option`.
- Timers are pairs of a deadline and an action; they never fire early, clocks do not run
  backwards, and the current time is a parameter.
- Sorting is stable insertion sort; the order of message ids and of buffer names is a
  parameter with the laws that the statements need.
- Printed markup is a sequence of tokens (a span opened in a style, a span closed, a break
  opportunity, a character), not HTML text; highlighted source is a sequence of span tags
  and characters.

## Model

| member | source | states |
|---|---|---|
| RowViterbi.CheapestPerPaper | frontend/src/lib/img2irc.ts:1307-1313 | for every background in use, a state that has it and is cheapest among those that do |
| RowViterbi.BestPredecessor | frontend/src/lib/img2irc.ts:1328-1347 | the three candidates (stay, cheapest with the same background, cheapest of all) are together as good as every single predecessor |
| RowViterbi.RelaxOpaque | frontend/src/lib/img2irc.ts:1314-1347 | every new cost is the least over all predecessors, and its back pointer attains it |
| RowViterbi.LowerBoundStep | frontend/src/lib/img2irc.ts:1295-1350 | no sequence of states is cheaper than the table says, one cell further; transparent cells and the first opaque cell included |
| RowViterbi.WalkAttains | frontend/src/lib/img2irc.ts:1353-1359 | walking the back pointers gives a sequence that costs exactly what the table says at every cell |
| RowViterbi.SolveRow | frontend/src/lib/img2irc.ts:1273-1359 | the collapsed transition with its walk back returns a sequence of least total cost over all sequences of states |
| RowEmitter.EmitCell | frontend/src/lib/img2irc.ts:1362-1404 | one turn prints the cell's character behind exactly the code it needs, and leaves the right colours in hand |
| RowEmitter.EmitRow | frontend/src/lib/img2irc.ts:1360-1405 | the loop prints all cells from left to right |
| RowEmitter.CellPays | frontend/src/lib/img2irc.ts:1381-1402 | a cell's code is covered by its own charge and the foreground bytes that earlier coloured spaces saved |
| RowEmitter.EmittedBytes | frontend/src/lib/img2irc.ts:1273-1405 | the whole row is at most the charged bytes, one per transparent cell, and what the glyph table understates, in UTF-8 |
| RowExact.CellPaysExactly | frontend/src/lib/img2irc.ts:451-452 | a cell sends exactly what it was charged, unless ink that spaces still owe is forgotten for another state |
| RowExact.ExactBytes | frontend/src/lib/img2irc.ts:1273-1405 | the row is exactly as long as charged if and only if no state takes over from another one of its paper to draw spaces only |
| RowExact.NoSpacesNoIdling | frontend/src/lib/img2irc.ts:1370-1402 | a choice that draws no spaces is such a choice |
| RowDecode.AtMostOnePerCell | frontend/src/lib/img2irc.ts:1360-1405 | however the reader enters the row, it shows no more characters than there are cells |
| RowDecode.RowReads | frontend/src/lib/ircFormatting.ts:146-228 | any printed row of cells reads back cell by cell if and only if every cell is readable |
| RowDecode.EmittedRowDecodes | frontend/src/lib/img2irc.ts:1360-1405 | the client reads every opaque cell's character and background, and its foreground unless it is a space, if and only if every cell is readable |
| RowDecode.SafeAlphabetDecodes | frontend/src/lib/img2irc.ts:1381-1402 | with indexed colours and glyphs that are no digits, commas or control codes, every row decodes |
| RowDecode.TrueColourLosesPaper | frontend/src/lib/ircFormatting.ts:185-212 | two true-colour cells that differ in foreground only: the second one is read with its foreground and without any background |
| RowRender.CostSplits | frontend/src/lib/img2irc.ts:1273-1359 | what is minimised is colour error plus weight times bytes, for every sequence |
| RowRender.LeastCostIsLeastBytes | frontend/src/lib/img2irc.ts:1273-1359 | with a positive weight, a choice of least cost is charged no more bytes than any choice with no more error |
| RowRender.LeastRealCost | frontend/src/lib/img2irc.ts:1295-1405 | a cheapest choice has least colour error plus weight times the bytes really sent, among all choices without idle spaces, for both kinds of codes |
| RowRender.IdleSpaceIsOvercharged | frontend/src/lib/img2irc.ts:1329-1404 | a row whose cheapest choice sends more, at its error, than one that draws an idle space |
| RowRender.RenderRow | frontend/src/lib/img2irc.ts:1273-1405 | the printed row comes from a cheapest choice, is really cheapest among the choices without idle spaces, keeps the byte bound, and decodes if and only if it is readable |
| IrcFormatting.ReadTakesRun | frontend/src/lib/ircFormatting.ts:146-184 | reading digits in a look-ahead loop and one by one in the automaton come to the same |
| IrcFormatting.ReadColourArguments | frontend/src/lib/ircFormatting.ts:162-184 | the arguments of a colour code: foreground, comma and background as the automaton takes them |
| IrcFormatting.ReadHexArguments | frontend/src/lib/ircFormatting.ts:185-212 | the same for true colours, where a missing background clears the old one |
| IrcFormatting.Reopen | frontend/src/lib/ircFormatting.ts:80-145 | the open span is closed and one in the present style opened, so that spans never nest |
| IrcFormatting.ParseIrcFormatting | frontend/src/lib/ircFormatting.ts:67-228 | the printed markup is balanced, spans never nest, and it shows exactly the characters and styles of the automaton |
| IrcStyles.ReadOn | frontend/src/lib/ircFormatting.ts:146-161 | behind any text, colour codes included, each attribute is on exactly when its code stood there an odd number of times since the last reset |
| IrcStyles.ShownBehind | frontend/src/lib/ircFormatting.ts:146-161 | a character behind a text without colour codes is shown in exactly that style |
| IrcStyles.ResetForgets | frontend/src/lib/ircFormatting.ts:156-161 | behind a reset anywhere in a line everything reads as from the start, colours included |
| IrcStyles.ForegroundCode | frontend/src/lib/ircFormatting.ts:162-184 | a number sets the foreground and leaves the background; no number clears both |
| IrcStyles.BackgroundCode | frontend/src/lib/ircFormatting.ts:169-183 | behind a comma a number sets the background and no number clears it; a missing foreground stays |
| IrcStyles.HexForegroundCode | frontend/src/lib/ircFormatting.ts:185-212 | six digits set a true colour, fewer clear it, and every other colour goes |
| IrcStyles.HexBothCode | frontend/src/lib/ircFormatting.ts:185-212 | the same for both colours behind a comma |
| ColourCodes.ReadColourCode | frontend/src/lib/ircFormatting.ts:162-184 | a two-digit code shows nothing and sets exactly its colours |
| ColourCodes.ReadTrimmed | frontend/src/lib/tdf.ts:156-157 | cutting white space off a line hides white space at the end and changes nothing else, codes included |
| TextEffects.PrintedShows | frontend/src/lib/textEffects.ts:195-221 | a line with a code on every colour change decodes to each character in its own colour if and only if it holds no control codes and no comma behind a code without background |
| TextEffects.ColorizedShows | frontend/src/lib/textEffects.ts:164-221 | the same for all modes, read in any starting style |
| TextEffects.CommaFreeDecodes | frontend/src/lib/textEffects.ts:164-221 | without commas and control codes no text is lost and every colour is right |
| TextEffects.CommaIsLost | frontend/src/lib/textEffects.ts:157-221 | a letter and a comma in the classic rainbow are read as the letter alone |
| TextEffects.ColorizeLine | frontend/src/lib/textEffects.ts:164-221 | the loop with its counters prints the specified line |
| TextColours.RainbowTakesTurns | frontend/src/lib/textEffects.ts:173-175 | the visible characters take the colours of the palette in turn |
| TextColours.WordsTakeTurns | frontend/src/lib/textEffects.ts:192-211 | the words take the colours in turn |
| TextColours.OneWordOneColour | frontend/src/lib/textEffects.ts:192-211 | all characters of one word are shown in one style |
| TextColours.GradientStarts | frontend/src/lib/textEffects.ts:176-185 | the first visible character has the first colour |
| TextColours.GradientEnds | frontend/src/lib/textEffects.ts:176-185 | the last visible character of several has the last colour |
| TextEffects.WrappedShows | frontend/src/lib/textEffects.ts:224-235 | attribute codes add their attributes to whatever the line shows and the closing reset shows nothing |
| TextEffects.ComposedLineShows | frontend/src/lib/composePipeline.ts:16-30 | colouring and wrapping together show every character in its colours and attributes if and only if the line decodes |
| TdfRender.PrintedShows | frontend/src/lib/tdf.ts:138-155 | codes on change only, a bare code before plain blanks: the row shows every cell in its mapped colours and blanks on black uncoloured |
| TdfRender.LineShows | frontend/src/lib/tdf.ts:136-160 | a finished line shows its row as it is up to white space at the end |
| TdfRender.LineShowsKept | frontend/src/lib/tdf.ts:136-160 | exactly how many positions of a row are shown: trimming goes back over blanks up to one with a code, which it drops too |
| TdfRender.LineShowsAll | frontend/src/lib/tdf.ts:136-160 | the whole row is shown if and only if it does not end in white space |
| TdfRender.TrailingPaintIsDropped | frontend/src/lib/tdf.ts:156-157 | for every row of every text, a painted position is lost if and only if the row ends in a painted blank |
| TdfRender.PaintedBlankIsLost | frontend/src/lib/tdf.ts:156-157 | a glyph with a blank on a background, rendered alone, loses it |
| TdfRender.PaintedBlankIsKept | frontend/src/lib/tdf.ts:156-157 | with a space of the text behind it the same blank is kept |
| TdfRender.RenderTdfFont | frontend/src/lib/tdf.ts:126-165 | the lines are the rows from the first to the last that is not blank, each shown as it is; all other rows hold white space only |
| TdfCells.AttributeBits | frontend/src/lib/tdf.ts:14-28 | red, green, blue and intensity bits of an attribute are those of the two colours it is shown in; a background is never bright |
| TdfCells.PartsDecide | frontend/src/lib/ircFormatting.ts:27-32 | no two of the sixteen colours have the same parts |
| TdfCells.CellStands | frontend/src/lib/tdf.ts:138-157 | every column of every glyph stands where the widths and gaps before it put it |
| TdfCells.CellIsShown | frontend/src/lib/tdf.ts:136-160 | what the client shows at that place: the character, plain or in the colours its attribute bits spell |
| Base94.FindMinChars | frontend/src/lib/img2irc.ts:2387-2391 | the least character count that can tell all byte strings of that length apart |
| Base94.MinCharsIncreases | frontend/src/lib/img2irc.ts:2387-2391 | one byte more always needs more characters, so the count gives the length back |
| Base94.NineIntoEleven | frontend/src/lib/img2irc.ts:2371-2386 | nine bytes need eleven characters and no fewer |
| Base94.RoundTrip | frontend/src/lib/img2irc.ts:2392-2424 | every byte string comes back from its encoding |
| Base94.LengthIsAnnounced | frontend/src/lib/img2irc.ts:2425-2428 | the encoding is exactly as long as announced |
| Base94.EncodesToSymbols | frontend/src/lib/img2irc.ts:2375-2375 | only characters of the alphabet are produced |
| Base94.ExactlyCanonicalTextsSurvive | frontend/src/lib/img2irc.ts:2392-2424 | a text decodes and encodes to itself if and only if it is canonical |
| Base94.EncodeBytes | frontend/src/lib/img2irc.ts:2392-2402 | the encoder's loops produce the specified encoding |
| Base94.DecodeText | frontend/src/lib/img2irc.ts:2403-2424 | the decoder's loops produce the specified bytes, or fail on a foreign character |
| Base94Values.EncodedBlock | frontend/src/lib/img2irc.ts:2392-2402 | each block of nine bytes and the rest at the end is the same big-endian number as its block of text, in the fewest characters |
| Base94Values.DecodedBlock | frontend/src/lib/img2irc.ts:2403-2424 | each block of any text of the alphabet decodes to its number cut to the low bytes, and how many bytes that are |
| Segmentation.ComputeSegCost | frontend/src/lib/segmentation.ts:21-29 | the accumulated cost is the sum over the segments at their positions |
| Segmentation.CheckValid | frontend/src/lib/segmentation.ts:31-38 | true exactly for positive lengths that add up |
| Segmentation.DpSeg | frontend/src/lib/segmentation.ts:47-88 | the result is a valid segmentation within the cap, costs what is reported and no more than any other; the sentinel exactly when there is none below it |
| Segmentation.BruteSeg | frontend/src/lib/segmentation.ts:90-112 | the result is a cover that costs what is reported, and with weights that are never negative a cheapest one |
| Segmentation.SearchesAgree | frontend/src/lib/segmentation.ts:47-112 | both searches report the same cost |
| ServerLogDedup.DedupIdempotent | frontend/src/lib/serverLogGroups.ts:642-700 | a second pass drops nothing more |
| ServerLogDedup.DroppedLeavesNoTrace | frontend/src/lib/serverLogGroups.ts:642-700 | a dropped row never changes what is remembered |
| ServerLogDedup.ChatSurvives | frontend/src/lib/serverLogGroups.ts:642-700 | rows that are neither phase nor lifecycle rows pass untouched and in order |
| ServerLogDedup.DedupOnlyDrops | frontend/src/lib/serverLogGroups.ts:642-700 | the output is a subsequence of the input |
| ServerLogDedup.RepeatIsDropped | frontend/src/lib/serverLogGroups.ts:642-700 | right behind a kept row, a row with its key less than a minute later is dropped |
| ServerLogDedup.DedupPhaseEvents | frontend/src/lib/serverLogGroups.ts:642-700 | the loop over its two tables is the specified pass |
| ServerLogRepeats.DedupIsFresh | frontend/src/lib/serverLogGroups.ts:642-700 | a row is dropped if and only if the last kept row like it is less than a minute older and no change of the connection was kept since |
| ServerLog.StepFlat | frontend/src/lib/serverLogGroups.ts:262-476 | one message adds its own share to the end of one bucket, whether attempts are merged, discarded, reopened or superseded |
| ServerLog.RunFlat | frontend/src/lib/serverLogGroups.ts:262-480 | over any run, the buckets of all attempts read in order are the messages of that bucket in order |
| ServerLogVerdicts.ListsGet | frontend/src/lib/serverLogGroups.ts:50-114 | which commands and phases each of the six lists gets |
| ServerLogVerdicts.StepGets | frontend/src/lib/serverLogGroups.ts:393-476 | a line that starts nothing goes to the newest attempt, or to a new one, with its status and end; older attempts stay, successes are superseded by a first welcome only |
| ServerLogVerdicts.StepExtends | frontend/src/lib/serverLogGroups.ts:271-300 | a connect or disconnect row while nothing is open extends the closed attempt or opens its own |
| ServerLogVerdicts.StepMerges | frontend/src/lib/serverLogGroups.ts:320-324 | queued or resolving behind phases of a pending attempt is one more line of it |
| ServerLogVerdicts.StepOpens | frontend/src/lib/serverLogGroups.ts:348-384 | any other start opens a pending attempt, takes over chatter of the last minute, and supersedes exactly the settled ones |
| ServerLogVerdicts.WelcomeWins | frontend/src/lib/serverLogGroups.ts:455-475 | a welcome makes the pending attempt the newest, a success, and the only one, and closes it |
| ServerLogVerdicts.EndIsJudged | frontend/src/lib/serverLogGroups.ts:271-453 | an error phase fails the attempt, a disconnect drops it, both close it and touch no other |
| ServerLogVerdicts.ChatterStays | frontend/src/lib/serverLogGroups.ts:397-448 | chatter behind a closed attempt opens none, lands in that attempt and changes nothing else |
| ServerLogVerdicts.RunEarned | frontend/src/lib/serverLogGroups.ts:262-480 | in every run the status and the end of every attempt are what its own lines say, unless it is superseded, and the newest never is |
| ServerLogGroups.GroupConserves | frontend/src/lib/serverLogGroups.ts:225-480 | after the first pass every message with a bucket is in exactly one place, in input order |
| ServerLogStatus.StepSafe | frontend/src/lib/serverLogGroups.ts:262-476 | one success at most, no closed attempt pending and the newest not superseded are kept if and only if the message does not unsettle the log |
| ServerLogStatus.RunStaysSafe | frontend/src/lib/serverLogGroups.ts:262-480 | the log is safe before and after every message of a run if and only if none unsettles the log it meets |
| ServerLogStatus.RunSafe | frontend/src/lib/serverLogGroups.ts:262-480 | every run of well-tagged messages keeps the three |
| ServerLogStatus.TaggedDisconnectUnsettles | frontend/src/lib/serverLogGroups.ts:172-176 | a phase-tagged disconnect leaves a closed attempt pending |
| ServerLogGroups.GroupIsSafe | frontend/src/lib/serverLogGroups.ts:225-480 | the returned attempts are safe |
| ServerLogGroups.GroupIsEarned | frontend/src/lib/serverLogGroups.ts:225-480 | every returned attempt is what its own lines say, unless it is superseded |
| ServerLogGroups.Attempt.Distribute | frontend/src/lib/serverLogGroups.ts:419-453 | the record in memory gets the message in the bucket of its kind and no other |
| ServerLogGroups.Attempt.LastMessageT | frontend/src/lib/serverLogGroups.ts:153-159 | the newest timestamp across all buckets |
| ServerLogGroups.Grouper.FeedLifecycle | frontend/src/lib/serverLogGroups.ts:271-300 | a lifecycle row extends the closed attempt before it or opens its own |
| ServerLogGroups.Grouper.FeedOpen | frontend/src/lib/serverLogGroups.ts:348-383 | a start phase opens an attempt, takes over fresh chatter and supersedes settled attempts |
| ServerLogGroups.Grouper.Win | frontend/src/lib/serverLogGroups.ts:455-475 | a welcome makes the attempt the one success |
| ServerLogGroups.Grouper.Feed | frontend/src/lib/serverLogGroups.ts:262-476 | one turn of the loop over shared records is one step of the machine |
| ServerLogGroups.GroupServerLog | frontend/src/lib/serverLogGroups.ts:225-480 | the records returned are distinct and hold exactly what the machine says |
| Batching.SplitInvertsKey | frontend/src/lib/messageBatcher.ts:99-145 | a joint key leads back to its network and buffer if and only if the network id has no colon |
| Batching.CompareIsPreorder | frontend/src/lib/messageBatcher.ts:87-97 | the comparator is a total preorder |
| Batching.SortSorts | frontend/src/lib/messageBatcher.ts:99-145 | what a callback gets is in order and is the lane, nothing more and nothing less |
| Batching.ArrivalInv | frontend/src/lib/messageBatcher.ts:40-77 | an arrival leaves fewer than 200 live and 400 backfill messages, and whatever waits has an armed flush timer in time |
| Batching.FiringFlushes | frontend/src/lib/messageBatcher.ts:79-85 | a due timer really empties both queues |
| Batching.EarlyCheckDoesNothing | frontend/src/lib/messageBatcher.ts:79-85 | the flush timer does nothing exactly when it fires within the interval after a flush |
| Batching.DebounceNeverDecides | frontend/src/lib/messageBatcher.ts:40-77 | whenever the backfill timer may fire, the flush timer may too, with the same effect |
| Batching.NextInv | frontend/src/lib/messageBatcher.ts:40-145 | every event keeps the invariant |
| BatchingRuns.RunConserves | frontend/src/lib/messageBatcher.ts:40-145 | over any interleaving, delivered and queued together are exactly what was enqueued, each at its own network, buffer and kind |
| BatchingRuns.RunOnTime | frontend/src/lib/messageBatcher.ts:40-145 | with timers on time every message is delivered at most 200 ms after it was enqueued, and none still queued has waited longer or will have when the armed timer fires |
| BatchingOrder.ArrivalWaits | frontend/src/lib/messageBatcher.ts:40-85 | an arrival flushes if and only if its queue is full or, for a live message, the interval is over; else the message waits with the others of its buffer, and which timer is armed |
| BatchingOrder.FiringHandsOver | frontend/src/lib/messageBatcher.ts:99-145 | a due timer makes one call for each waiting buffer, live ones first, with all its messages and nothing else |
| BatchingOrder.RunOrderly | frontend/src/lib/messageBatcher.ts:87-145 | in every run every call is ordered by time, then event id, then message id, equal ones as enqueued, and no buffer waits twice |
| MessageBatcher.Batcher.EnqueueMessage | frontend/src/lib/messageBatcher.ts:40-77 | the module's queues, counters and timers move as the machine says |
| MessageBatcher.Batcher.FlushAllNow | frontend/src/lib/messageBatcher.ts:99-145 | both queues are handed over, sorted, lane by lane |
| MessageBatcher.Batcher.CheckFlushNow | frontend/src/lib/messageBatcher.ts:79-85 | a flush only when the interval is over |
| MessageBatcher.Batcher.OnFlushTimer | frontend/src/lib/messageBatcher.ts:40-77 | the flush timer's callback is the machine's event |
| MessageBatcher.Batcher.OnBackfillTimer | frontend/src/lib/messageBatcher.ts:40-77 | the backfill timer's callback is the machine's event |
| MessageGroups.ProcessContent | frontend/src/lib/messageBuilder.ts:354-364 | expanding all groups gives the clean input, reordered inside runs of join and part rows only |
| MessageGroups.RunsKeepContent | frontend/src/lib/messageBuilder.ts:74-113 | the reordering loses and adds nothing |
| MessageGroups.ProcessSettles | frontend/src/lib/messageBuilder.ts:354-364 | processing is idempotent |
| MessageAppend.AppendContent | frontend/src/lib/messageBuilder.ts:431-463 | an appended buffer expands to the old expansion and the clean new rows, also when a buried MOTD group is taken apart |
| MessageAppend.AppendWholesome | frontend/src/lib/messageBuilder.ts:431-463 | an appended buffer can be appended to again |
| MessageAppend.BatchesConserve | frontend/src/lib/messageBuilder.ts:431-463 | any number of batches together show all their clean rows |
| MessageAppend.AppendSettles | frontend/src/lib/messageBuilder.ts:431-463 | the appended buffer is a fixed point of processing if and only if the last entry kept does not attract the first one made |
| MessageOrder.ProcessGrouped | frontend/src/lib/messageBuilder.ts:354-364 | in every group, inside others too, the rows are in time order and the members are of its kind, two at least; an MOTD group has its first line as head |
| MessageOrder.AppendGrouped | frontend/src/lib/messageBuilder.ts:431-463 | appending keeps that |
| MessageOrder.BatchesGrouped | frontend/src/lib/messageBuilder.ts:431-463 | it holds of any buffer built from raw rows in any number of batches |
| MessageOrder.ProcessStable | frontend/src/lib/messageBuilder.ts:82-90 | join and part rows of one time keep the order in which they came |
| MessageOrder.AppendStable | frontend/src/lib/messageBuilder.ts:431-463 | so they do when rows are appended |
| MessageOrder.ProcessInPlace | frontend/src/lib/messageBuilder.ts:354-364 | all other rows keep their places, and no join or part row crosses one |
| MessageOrder.AppendInPlace | frontend/src/lib/messageBuilder.ts:431-463 | so it is when rows are appended |
| MessageOrder.ProcessMaximal | frontend/src/lib/messageBuilder.ts:354-364 | raw rows are grouped as far as they can be: no two neighbours are of one kind, inside disconnect groups neither |
| MessageSeams.RowsMeet | frontend/src/lib/messageBuilder.ts:19-113 | what the MOTD and join passes make of two lists together, from what they make of each |
| DiscoSeams.DiscoApart | frontend/src/lib/messageBuilder.ts:301-329 | the disconnect pass takes two lists one by one unless a run spans the seam |
| DiscoSeams.MaximalIsDisco | frontend/src/lib/messageBuilder.ts:301-329 | opened, maximal groups are grouped to the same entries again |
| MessageRebuild.AppendIsProcess | frontend/src/lib/messageBuilder.ts:385-463 | appending raw rows to a processed buffer gives what processing all rows gives, heads of MOTD groups aside, if and only if the seam holds |
| MessageRebuild.BatchesAreProcess | frontend/src/lib/messageBuilder.ts:431-463 | any number of batches with seams that hold give what processing all rows at once gives |
| MessageAppend.LoneJoinIsNotMerged | frontend/src/lib/messageBuilder.ts:374-405 | two joins that arrive one by one stay apart, although together they make one group |
| MessageRebuild.BuriedMotdIsNotExtended | frontend/src/lib/messageBuilder.ts:407-463 | in the returned buffer, at its old place, the buried MOTD group has exactly its old lines, alone or as first member of a disconnect group, with the exact condition |
| MessageRebuild.BuriedMotdJoinsRun | frontend/src/lib/messageBuilder.ts:407-463 | it stands in a group only when a single join row was behind it and the new rows begin with one |
| MessageBuilder.GroupMOTDLines | frontend/src/lib/messageBuilder.ts:19-72 | the loop over its buffer is the specified pass |
| MessageBuilder.GroupJoinPartEvents | frontend/src/lib/messageBuilder.ts:74-113 | the loop over its buffer is the specified pass |
| MessageBuilder.GroupDisconnectEvents | frontend/src/lib/messageBuilder.ts:301-329 | the loop over its buffer is the specified pass |
| MessageBuilder.PreprocessMessages | frontend/src/lib/messageBuilder.ts:354-364 | the composition of the four passes |
| MessageBuilder.AppendToProcessed | frontend/src/lib/messageBuilder.ts:431-463 | the returned list is the specified one, and what happens to the caller's own list is stated: nothing, or cut short at the buried group |
| LineSplitter.BreakIsLossless | frontend/src/lib/messageSplitter.ts:117-149 | the parts of a line joined are the line |
| LineSplitter.BreakIsBounded | frontend/src/lib/messageSplitter.ts:117-149 | every part fits the budget or is one over-wide code point |
| LineSplitter.BreakIsGreedy | frontend/src/lib/messageSplitter.ts:117-149 | no part could be longer: no longer piece ending in a space fits, and a part that does not end in a space holds none and nothing longer fits at all |
| LineSplitter.BreakLine | frontend/src/lib/messageSplitter.ts:117-149 | the one-pass scanner breaks where the specification does |
| MessageSplitter.SplitKeepsText | frontend/src/lib/messageSplitter.ts:156-211 | everything but spaces and line ends is sent, once and in order |
| MessageSplitter.SplitIsBounded | frontend/src/lib/messageSplitter.ts:156-211 | packed or not, every message fits the budget or is one over-wide code point |
| MessageSplitter.SplitIntoMessages | frontend/src/lib/messageSplitter.ts:156-211 | the loops produce the specified messages |
| MessagePacking.LinesRejoin | frontend/src/lib/messageSplitter.ts:163-163 | the lines hold no line ends and, put together, are the text again |
| MessagePacking.PackIsGreedy | frontend/src/lib/messageSplitter.ts:185-210 | every line that is not blank is in one message with its neighbours, never across a blank line, and no message could have taken the line behind it |
| MessagePacking.BlanksAtEndDrop | frontend/src/lib/messageSplitter.ts:177-183 | unpacked, only blank lines at the end are dropped |
| MessageSplitter.PayloadsFit | frontend/src/lib/messageSplitter.ts:90-109 | every payload within the budget gives a relayed line within the limit if and only if the clamp lifts the budget by no more than the margin |
| CodeLines.SplitHighlightedLines | frontend/src/lib/codeLines.ts:21-52 | one line more than line ends, every character under exactly the spans it had, and all lines balanced on their own if and only if the whole is |
| GroupWidths.GreedyStaysAhead | frontend/src/lib/composePipeline.ts:92-107 | a greedy wrapping that starts later never needs more lines than any wrapping that starts earlier |
| GroupWidths.Group | frontend/src/lib/composePipeline.ts:92-107 | the words in order, in lines that fit or are single words, and with no negative widths no such wrapping has fewer lines |
| GlyphPruning.DominatingCostsNoMore | frontend/src/lib/aristotleGlyphs.ts:134-147 | a glyph that dominates another costs no more on any cell |
| GlyphPruning.DominatesExactly | frontend/src/lib/aristotleGlyphs.ts:134-147 | the test finds precisely the glyphs with fewer bytes that cost no more on any cell |
| GlyphPruning.PruneExactly | frontend/src/lib/aristotleGlyphs.ts:155-162 | kept are, in their order, exactly the glyphs that no cheaper one matches on every cell |
| GlyphPruning.PruneKeepsOptimum | frontend/src/lib/aristotleGlyphs.ts:155-162 | every glyph of the alphabet has a kept one that costs no more on every cell |
| GlyphPruning.PruneShrinks | frontend/src/lib/aristotleGlyphs.ts:149-162 | a greater weight keeps no glyph that a smaller one drops |
| BufferCollection.InsertKeepsOrder | frontend/src/lib/BufferCollection.ts:106-121 | the place found for a new name keeps the server first and the others in order |
| BufferCollection.SyncGives | frontend/src/lib/BufferCollection.ts:64-72 | after a sync exactly the payload's names are left, old fields below the payload's |
| BufferCollection.SyncTwice | frontend/src/lib/BufferCollection.ts:64-72 | the same payload a second time changes nothing |
| BufferCollection.RunIsSound | frontend/src/lib/BufferCollection.ts:34-72 | after any run of operations list and map agree on the names, each normalised and once, the server first and the rest in order |
| BufferCollection.BufferCollection.InsertSorted | frontend/src/lib/BufferCollection.ts:106-121 | the loop finds that place |
| BufferCollection.BufferCollection.Add | frontend/src/lib/BufferCollection.ts:34-45 | a known buffer is merged in place and returned, a new one is inserted; the collection takes the specified step |
| BufferCollection.BufferCollection.Remove | frontend/src/lib/BufferCollection.ts:48-55 | the buffer is gone from list and map and is returned |
| BufferCollection.BufferCollection.Sync | frontend/src/lib/BufferCollection.ts:64-72 | removals and additions together are the specified step |
| BufferCollection.BufferCollection.Get | frontend/src/lib/BufferCollection.ts:21-28 | found exactly when the normalised name is known |
| ModeLine.ArgumentsConserved | frontend/src/lib/modeSentence.ts:64-126 | every argument goes to exactly one letter that asks for one, in order |
| ModeLine.FlagsReadBack | frontend/src/lib/modeSentence.ts:72-126 | the flags left over, read again with their arguments, are the same flags with no users or lists |
| ModeLine.FlagTextReadsBack | frontend/src/lib/modeSentence.ts:128-140 | the written flags, split at spaces and read again, are the same flags if and only if none contains a space |
| ModeLine.SpacedKeyIsCut | frontend/src/lib/modeSentence.ts:128-140 | a channel key with a space in it is read back as another key |
| ModeLine.TallyOne | frontend/src/lib/modeSentence.ts:98-115 | a user's entry holds exactly the net changes, opposite signs cancelling |
| ModeChanges.ChangeAt | frontend/src/lib/modeSentence.ts:90-130 | the letter at any position makes one change under the last sign before it, with the argument that its number among the asking letters gives it |
| ModeChanges.NetAlternates | frontend/src/lib/modeSentence.ts:105-112 | a letter of a user comes out as its last sign if the alternating run of its signs at the end is odd, and cancels if it is even |
| ModeChanges.KeysByFirstUse | frontend/src/lib/modeSentence.ts:99-104 | users are listed by the position of their first change, each once |
| ModeLine.ParseModeLine | frontend/src/lib/modeSentence.ts:64-142 | users with a net change once each, in first-seen order and exactly so, list changes in order, and the flags as text |
| BundleMark.Marker.Mark | frontend/postbuild.js:38-50 | marking ends on cyclic manifests and marks all that is reachable and nothing else |
| BundleMark.KeptFiles | frontend/postbuild.js:36-52 | the kept names are exactly those of entries reachable from the two pages |
| BundleMark.Prune | frontend/postbuild.js:52-66 | a bundle is removed exactly when no reachable entry names it |

## Left out

- RowViterbi.SolveRow: assumes that in front of every opaque cell but the first one some choice costs less than the sentinel 1e18; otherwise the source's index of the cheapest state stays at -1.
- RowViterbi.SolveRow: colour errors, palettes and the choice of the best glyph per cell and state are given; cells with a missing glyph entry are not modelled.
- RowRender.LeastRealCost: assumes that no two palette positions print the same ink, no two states are the same pair, and the glyph table tells true sizes; otherwise a choice may be charged a code for a change that nobody sees.
- BatchingRuns.RunConserves: assumes network ids without a colon, the exact condition under which keys lead back.
- BatchingRuns.RunOnTime: assumes timers that fire no later than they are due; a late timer delays delivery by as much.
- MessageBatcher.Batcher.EnqueueMessage: callbacks only record what they get; a callback that throws or enqueues again is not modelled.
- Segmentation.BruteSeg: with negative weights its pruning may cut off the best cover; then only a cover is promised.
- Segmentation.FillTables: the tables are sequences that are rebuilt, not arrays written in place.
- ServerLogStatus.RunSafe: assumes that no disconnect command carries a phase tag, which is enough; the exact condition is that of `RunStaysSafe`.
- BufferCollection.BufferCollection.Sync: the payload is taken as values, since every entry is copied; buffers shared between payload and collection are not modelled.
- BufferCollection.BufferCollection.Add: assumes that nobody renames a held buffer from outside.
- ModeLine.ParseModeLine: the added and removed letters of a user are sets, not lists in order of arrival.
- TdfRender.RenderTdfFont: takes a parsed font whose cells hold no control codes; reading the font file and its code page are left out.
- TextEffects.ColorizeLine: the inner steps of a gradient are a parameter; finding the nearest palette colour is floating-point arithmetic.
- GlyphPruning.PruneKeepsOptimum: coverage, luma and weights are real numbers; rounding is left out.
- CodeLines.SplitHighlightedLines: recognising span tags in the HTML text is left out.
- BundleMark.Prune: reading the manifest and deleting files are left out; the listing is a sequence of paths.
- MessageSplitter.SplitIntoMessages: lone surrogates are left out.
- The first pass of the server log compares canonical text; the patterns that make it are a parameter of the message.
- Wording of sentences, HTML escaping, duration labels and the choice of non-breaking spaces.
- Canvas, WASM, workers, image loading, colour spaces, k-means palettes, dithering and the bitmask difference code.
- The search for a Viterbi weight, palette downgrades and compression to a target size in `aristotleGlyphs.ts`.
- The ignore map, the websocket hole detector and the row-uniformity helpers.
- Stores, routing, notifications, uploads, commands, autolinking and the compose dialog.
