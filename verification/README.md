# Verified models of Cera's trickiest glue code

Cera runs language models on device. Around its numeric kernels sit six pieces of
glue that are small, stateful and easy to get subtly wrong. This project models
each of them in Dafny and proves what it is there for, for every input, every run
or every interleaving. `dafny verify dfyconfig.toml` checks all of it.

**The MSL post-pass** rewrites a generated Metal kernel so that matrix loads walk
pointers instead of indices. `MslScan` and `MslText` model its scanners, edits and
guards on text; `MslScratch`, `MslReadings`, `MslSkeleton` and `MslPass` prove what the
edits leave in the shader, whatever text it is. In particular, the k-loop that is found in
the emitted text is the one whose loads were pointed (`MslSkeleton.LoopStaysInPlace`,
`MslPass.Postpass`). `MslAddress`, `MslKernel`, `MslGuards` and `MslPointerWalk` model the
rewrite on a loop language whose expressions are flat chains of the C family's
operators, grouped by precedence; `+` and `-` wrap as on `uint`, the meaning of the
others is left open. `MslLines`, `MslRender`, `MslPlacing` and `MslPointing` tie the
two: the edits on the text of a kernel give the text of the rewritten kernel. The main
result, `MslPointerWalk.MeaningPreserved`, is that an accepted kernel that compiles
issues the same load addresses exactly when no load's index and offset wrap. It needs
three conditions that the guards do not check, each with a family of accepted kernels
in `MslDivergence` (over the shape in `MslExamples`) that go wrong without it:

* `SitesInSpan`: the rewritten lines all lie in the span whose writes are counted. The
  guards count writes from the seed of A on, but nothing ties the seed of B to that
  span. `MslGuards.MirroredIffSitesInSpan` shows that the condition is exact for the
  write counts; `MslDivergence.StraySeedDiverges`.
* `Placed`: steps and commits stand in the k-loop itself and below no condition, as
  their indentation suggests but does not promise. Below an `if` without braces the
  inserted line is no longer conditional; `MslDivergence.ConditionalDiverges`.
* `Spliceable`: the text of each load takes the pointer in place of the index. Steps are
  checked to be literals, load offsets are not: `lsma_0 + 64U & 127U`,
  `(lsma_0 + 64U) * 2U` and a cast before the `&` are spliced all the same.
  `MslAddress.SpliceableIff` shows that the condition on the text is exact,
  `MslAddress.SpliceIsSoundIff` is the exact condition for one load at run time and
  `MslPointerWalk.SameLoadsIff` for a run; `MslDivergence.LooseLoadsDiverge`.

**The chat TUI** is a protocol of a UI thread, an inference worker and an image
fetch over FIFO channels. `ChatProtocol` has every action as a step,
`ChatInvariants` proves one invariant for every interleaving, `ChatTheorems` draws
the consequences, `ChatTurns` follows whole turns from the dispatch to the drained end,
`ChatCommands` says what the slash commands do, and `ChatTui` has the objects that the
threads update in place.
`ChatHistory` holds the two truncation helpers of `cera-cli/src/main.rs`: their
documentation says that they agree. They do exactly when the index walk drops no
system message and, if the last entry closes a turn, there are more turns than pairs
to drop (`ChatHistory.SimulationAgreesIff`); that holds at every dispatch, whose
history ends in an open turn.
The comment at chat_tui.rs:362-367 about a fetch that arrives after `/clear`
describes a state that cannot be reached, since a fetch in flight locks the
prompt. `LineEditor`, over `Utf8`, is the byte-indexed line editor; `WrapCursor`
is the wrapping and cursor arithmetic: both count the rows of the one greedy layout of
the text (`WrapCursor.WalkFindsLayout`), and they agree exactly when the terminal is
not one column wide and stay within `u16` for every text exactly when it has 1 to
65533 columns.

**The SSE decoder** (`SseStream`, `SseTheorems`) turns whatever chunks the network
delivers into the items of the whole input, which are what its lines stand for as text
(`SseTheorems.DecodesLines`). The 16 MB cap is documented as one on
a line; it is one on the buffer (`SseTheorems.BlankLinesOverflow`).

**The BPE reference encoder** (`Bpe`, `BpeTables`) merges greedily. The greedy run is
proved equal to the rule-by-rule encoder exactly when a rule can meet the result of
another only if it ranks after it.

**Session handles** (`SessionHandles`, `SessionOwnership`, `HandleObjects`): a core
session passes between handles under mutexes and a flag, with any number of
threads. An accepted conversion makes exactly one handle of the other kind, a refused one
none (`SessionOwnership.AcceptedMakesChat`, `SessionOwnership.RefusalRestores`).

**The bundle picker** (`BundlePicker`) keeps its cursor on screen through keys,
filter edits and resizes.

`Text` and `Wrappers` hold the string operations and result types they share. In
every model a string is a sequence of Unicode scalar values, and the whitespace
predicate is Unicode's White_Space.

## Model

| member | source | states |
|---|---|---|
| `MslScan.WordScanIsExact` | cera/build_support/msl_postpass.rs:622-641 | For a needle of word characters, the non-overlapping scan with the boundary filter is the ordered list of all whole-identifier occurrences of an overlapping search: a rejected match hides none. |
| `MslScan.ContainsWordIff` | cera/build_support/msl_postpass.rs:634-636 | The word test succeeds exactly when some whole-identifier occurrence exists. |
| `MslScan.CountWordsIsExact` | cera/build_support/msl_postpass.rs:639-641 | The word count counts every whole-identifier occurrence of an overlapping search. |
| `MslScan.LooksWrittenIff` | cera/build_support/msl_postpass.rs:719-735 | The branches on the text around an identifier accept exactly the listed forms: `=` but not `==`, the ten compound assignments, and `++`/`--` on either side. |
| `MslScan.WriteCountIsExact` | cera/build_support/msl_postpass.rs:707-737 | The write count is the number of whole-identifier occurrences, overlapping search included, that stand in one of those forms. |
| `MslScan.BlockIsUnique` | cera/build_support/msl_postpass.rs:678-697 | At most one end closes a block: the depth is positive on every proper prefix, so a balanced span is the shortest and only one. |
| `MslScan.BlockEnd` | cera/build_support/msl_postpass.rs:678-697 | Returns the end of the balanced block opened by the first brace, and fails exactly when no such block exists. |
| `MslScan.HeaderIsFound` | cera/build_support/msl_postpass.rs:651-672 | Whatever text says is a k-loop header (seed first, last `for(;;)` before the pointer step, nothing but blanks before it on its line) is what the search returns, so a text has at most one. |
| `MslScan.FoundIsHeader` | cera/build_support/msl_postpass.rs:651-672 | What the search returns is such a header. |
| `MslScan.LocateKLoop` | cera/build_support/msl_postpass.rs:651-673 | Succeeds exactly when header and block exist; on success seed < line start <= header < block end. |
| `MslScan.SkipTemplate` | cera/build_support/msl_postpass.rs:560-579 | Steps over nested template arguments: stops at the unique offset where they are balanced, or at the end of the text; no depth underflows and no index leaves the text. |
| `MslScan.FindArgEnd` | cera/build_support/msl_postpass.rs:592-605 | The first argument ends at the first top-level comma or at the call's own closing paren; none is reported exactly when the text has neither. |
| `MslScan.FirstArgIsUnique` | cera/build_support/msl_postpass.rs:557-605 | A load has one first argument. |
| `MslScan.TrimKeepsInduction` | cera/build_support/msl_postpass.rs:606-611 | Testing the trimmed argument for an induction pointer is testing the argument itself, and both mean that one occurs as a whole identifier. |
| `MslScan.CheckOneLoad` | cera/build_support/msl_postpass.rs:551-612 | Accepts a load exactly when its first argument names an induction pointer. |
| `MslScan.CheckLoadsUsePointers` | cera/build_support/msl_postpass.rs:547-619 | Accepts exactly the bodies that hold a matrix load and whose every matrix load reads an induction pointer. |
| `MslText.SwapIsLocal` | cera/build_support/msl_postpass.rs:774-780 | A swap succeeds exactly where its anchor is unique, and changes nothing but that site. |
| `MslText.BetweenIsExact` | cera/build_support/msl_postpass.rs:752-767 | A capture succeeds exactly with the text from the sole opener to the first closer after it. |
| `MslText.StepIsLiteralIff` | cera/build_support/msl_postpass.rs:515-525 | A step is accepted exactly when it is a nonempty run of digits with at most one `U` after it. |
| `MslText.ScratchIsPartitioned` | cera/build_support/msl_postpass.rs:196-228 | Under checked arithmetic, a layout is accepted exactly when the two arrays fill 8192 bytes and the second starts 16-byte aligned; the returned offset cuts the allocation into the two. |
| `MslText.KLoopIsUnique` | cera/build_support/msl_postpass.rs:651-673 | Header and block of a text's k-loop are determined by the text. |
| `MslText.PointTheLoads` | cera/build_support/msl_postpass.rs:378-449 | Succeeds exactly when the k-loop exists, every load in its rewritten block reads a pointer, the scratch names are gone from it and no index form is left; only that block changes. |
| `MslText.MeasureLoop` | cera/build_support/msl_postpass.rs:451-503 | Succeeds exactly when between seed and block end each index is written twice and each step temporary once, and the trip count is a number in 1..=8. |
| `MslText.FinishPass` | cera/build_support/msl_postpass.rs:378-508 | The last part of the pass succeeds exactly on the texts that pass both. |
| `MslText.Preflight` | cera/build_support/msl_postpass.rs:148-188 | Clears a text exactly when it holds none of the introduced names and, blanks aside, none of the colliding tokens. |
| `MslText.InsertAfterInserts` | cera/build_support/msl_postpass.rs:774-780 | A swap that keeps its anchor is one insertion. |
| `MslText.PointerLinesOnlyInsert` | cera/build_support/msl_postpass.rs:308-376 | The declarations, seeds, steps and commits of the pointers are seven insertions: no character of the shader goes or changes. |
| `MslPlacing.PointersAreRendered` | cera/build_support/msl_postpass.rs:308-376 | On the text of any program, however it is written as long as no other line looks like a site, the pointer lines are placed exactly if the program has one seed, step and commit of each index, and what comes out is the text of the program with the lines below them. |
| `MslPointing.LoadsAreRendered` | cera/build_support/msl_postpass.rs:394-405 | The four replacements on the text of any program give the text of the program with all its loads repointed: no replacement misses a load, hits another line or undoes an earlier one. |
| `MslPointing.RewriteIsRendered` | cera/build_support/msl_postpass.rs:308-405 | So on the text of a kernel, placing the pointer lines and repointing the text of the k-loop gives the text of the rewritten kernel. |
| `MslScratch.ScratchIsMoved` | cera/build_support/msl_postpass.rs:197-305 | The move from end to end as the lines it swaps: each field, found as the one line that holds it, becomes a plain pointer; the kernel takes the allocation as parameter and its two array declarations go; `_sa` is bound to the start and `_sb` to twice the declared extent of the first array, in the 8192 bytes that the two fill. In the result that binding stands, no name of the old arrays is left and each field occurs twice. |
| `MslScratch.SlicesAreNamed` | cera/build_support/msl_postpass.rs:278-283 | Both spellings of a read through either field become the name of that field's own slice, whatever text is around them. |
| `MslText.PointersAreDeclared` | cera/build_support/msl_postpass.rs:312-316 | Both pointers are declared right below the sole declaration of the first index, or not at all. |
| `MslReadings.CountsRightIff` | cera/build_support/msl_postpass.rs:464-489 | The counts are right exactly when the span holds two whole-identifier writes of each index and one of each step temporary. |
| `MslReadings.TripCountReads` | cera/build_support/msl_postpass.rs:492-499 | The trip count is the decimal number between the sole test of the counter and the next parenthesis, whatever number of `U` stand behind it. |
| `MslReadings.SpacedTokenCollides` | cera/build_support/msl_postpass.rs:181-188 | A token to collide with is found whatever blanks it is cut by. |
| `MslSkeleton.OccurrenceWasThere` | cera/build_support/msl_postpass.rs:400-404 | After replacing a text, every occurrence of a pattern that the replacement cannot be part of is one from before, behind what became the text in front of it. |
| `MslSkeleton.LoopStaysInPlace` | cera/build_support/msl_postpass.rs:397-454 | Pointing the loads of any text whatever leaves the k-loop where it is: the same header is found again, and the block behind it is the one whose loads were pointed. |
| `MslPass.HeaderIsFoundAgain` | cera/build_support/msl_postpass.rs:454 | So the span found after the loads were pointed is that of the same loop, with the same indent. |
| `MslPass.LoopEmitted` | cera/build_support/msl_postpass.rs:504-507 | A directive line put in above the header leaves the loop below it, text and all: the search finds the same header one line further down. |
| `MslPass.EmittedIsSound` | cera/build_support/msl_postpass.rs:440-508 | Of the emitted text itself: its first line is the marker, no load in it addresses through the index, and below the marker line the k-loop that is found reads pointers only, names no scratch, and has right above its header, indented like it, the line that unrolls it by its own trip count. |
| `MslPass.Postpass` | cera/build_support/msl_postpass.rs:141-508 | Marked input is returned as it is and every success is marked, so a second application changes nothing. Other input is rewritten or declined exactly when it cannot be: taking the marker and the unroll line out of the output gives a text whose loads were pointed, its index writes counted and its trip count between 1 and 8; the output has what `EmittedIsSound` says. An older artifact is among the declined. |
| `MslAddress.RootIsUnique` | cera/build_support/msl_postpass.rs:402-404 | Which operator of a chain is applied last is determined by the levels of the C family's binary operators and the conditional one, so a text groups in one way. |
| `MslAddress.PrefixAdds` | cera/build_support/msl_postpass.rs:402-404 | Splicing `l +` in front of a chain without an operator looser than `+` adds l to its value, modulo 2^32. |
| `MslAddress.SpliceMoves` | cera/build_support/msl_postpass.rs:400-405 | Rewriting a load from index to pointer form, whatever sum and cast stand before it and whatever operators in and behind its parenthesis, moves its address by what the parenthesis with the operators behind it grows by, in strides, less what the pointer has moved. |
| `MslAddress.SpliceIsSoundIff` | cera/build_support/msl_postpass.rs:400-405 | The two forms address the same byte exactly when these are equal. |
| `MslAddress.SpliceableSkewsIff` | cera/build_support/msl_postpass.rs:400-405 | A text that no cast re-sizes, with no operator looser than `+` in the offset and none tighter behind the parenthesis, moves exactly where index and offset wrap as a `uint`. |
| `MslAddress.SpliceableIff` | cera/build_support/msl_postpass.rs:400-405 | That condition on the text is exact: it holds just where the two forms agree for every index, buffer and value that does not wrap, whatever the other operators compute. |
| `MslKernel.Simulates` | cera/build_support/msl_postpass.rs:330-405 | Every run of the rewritten statements ends like the index-walking run and loads its addresses less the skew of each load, given that pointers mirror indices wherever the flow analysis says so. |
| `MslKernel.SimulatesLoop` | cera/build_support/msl_postpass.rs:330-405 | The same through any number of loop turns. |
| `MslGuards.MirroredIffSitesInSpan` | cera/build_support/msl_postpass.rs:455-488 | With the counts of the pass (two writes an index, one a step temporary) every write in the span is mirrored exactly when all rewritten lines lie in the span. |
| `MslGuards.GuardsGiveFlow` | cera/build_support/msl_postpass.rs:336-488 | A kernel that every guard accepts, that compiles, and whose sites stand in the blocks their indentation suggests and in the counted span, keeps pointer = base + bytes of index before every load of the k-loop, loads between step and commit included. |
| `MslPointerWalk.WalkMirrorsIndex` | cera/build_support/msl_postpass.rs:336-488 | For such a kernel (compiled, sites placed and in the span), run for run, the rewritten program issues the source's loads in the same order, each displaced by its own skew. |
| `MslPointerWalk.SameLoadsIff` | cera/build_support/msl_postpass.rs:336-488 | For such a kernel the load addresses of a run agree exactly when no load of that run is skewed. |
| `MslPointerWalk.MeaningPreserved` | cera/build_support/msl_postpass.rs:336-488 | An accepted kernel that compiles, whose sites stand in the blocks their indentation suggests and in the counted span, and whose load texts meet the exact condition, issues the same sequence of load addresses exactly when no load's index and offset wrap, for any tiles, iterations, input and start state. |
| `MslDivergence.StrayAccepted` | cera/build_support/msl_postpass.rs:467-488 | The guards accept a kernel whose seed of B stands before the counted span and whose index is written again inside it. |
| `MslDivergence.StraySeedDiverges` | cera/build_support/msl_postpass.rs:467-488 | On those kernels the rewritten program loads the same addresses exactly when the stray write repeats the seed. |
| `MslDivergence.ConditionalAccepted` | cera/build_support/msl_postpass.rs:367-376 | The guards accept a kernel whose commit of A stands below an `if` without braces: the inserted line does not. |
| `MslDivergence.ConditionalDiverges` | cera/build_support/msl_postpass.rs:367-376 | On those kernels the rewritten program loads the same addresses exactly when the condition holds or the step is 0. |
| `MslDivergence.LooseLoadAccepted` | cera/build_support/msl_postpass.rs:400-420 | The guards accept any load text that has a type and no introduced name. |
| `MslDivergence.LooseLoadIff` | cera/build_support/msl_postpass.rs:400-420 | On those kernels the addresses agree exactly when that text has no skew at the index it is run with. |
| `MslDivergence.InsideIff` | cera/build_support/msl_postpass.rs:400-405 | With one operator looser than `+` in the offset they agree exactly when it passes the index on unchanged. |
| `MslDivergence.OutsideIff` | cera/build_support/msl_postpass.rs:400-405 | Likewise with one operator tighter than `+` behind the parenthesis. |
| `MslDivergence.CastIff` | cera/build_support/msl_postpass.rs:400-405 | With a cast before the address they agree exactly when it keeps the size of an element or the index is 0. |
| `MslDivergence.LooseLoadsDiverge` | cera/build_support/msl_postpass.rs:400-405 | The rewrite of `lsma_0 + 64U & 127U` loads the same below index 64 only, those of `lsma_0 + 64U << 1U` and `(lsma_0 + 64U) * 2U` at index 0 only. |
| `MslDivergence.BelowZeroDiverges` | cera/build_support/msl_postpass.rs:400-405 | An offset that is below zero by itself, as in `lsma_0 + 4U - 8U`, goes wrong in the rewritten kernel from the index on from which it is right in the source. |
| `ChatHistory.TurnCopy.TruncateOldestTurnPair` | cera-cli/src/main.rs:1662-1693 | Removes the oldest pair (or lone entry) behind the system message from both lists, and refuses exactly when only the newest entry is left. |
| `ChatHistory.SimulateTruncateOldestTurnPairs` | cera-cli/src/main.rs:1710-1739 | Computes where the dropped range ends and how many pairs it counts, as the recursive index walk says. |
| `ChatHistory.SimulationAgreesIff` | cera-cli/src/main.rs:1697-1739 | Kept entries and count agree with repeated in-place truncation exactly when the walk drops no system message and, if the last entry is the reply of a turn, there are more turns than pairs to drop. |
| `ChatHistory.ConversationAgreesIff` | cera-cli/src/main.rs:1697-1739 | In a conversation: always while a turn is open, as at every dispatch, and otherwise exactly when there are no pairs or more than are dropped. |
| `ChatHistory.WalkTakesTurns` | cera-cli/src/main.rs:1710-1739 | The index walk goes from turn to turn and reaches the end exactly when the last entry closes a turn and it has that many turns to drop. |
| `ChatHistory.OpenTailIsKept` | cera-cli/src/main.rs:1697-1739 | The last entry is never dropped when it is not an assistant reply, which is how every caller uses it. |
| `ChatHistory.SimulationDisagrees` | cera-cli/src/main.rs:1697-1739 | The smallest disagreement: one finished turn with nothing after it. |
| `ChatHistory.ConversationRoles` | cera-cli/src/chat_tui.rs:113-152 | system?, (user assistant)* and a possible open user turn, by position. |
| `ChatHistory.WalkDropsPairs` | cera-cli/src/main.rs:1710-1739 | In an open conversation the index walk drops exactly as many whole pairs as asked while there are that many. |
| `ChatHistory.TruncateDropsPair` | cera-cli/src/main.rs:1662-1693 | In an open conversation in-place truncation drops one whole pair, and refuses exactly when the open turn is all there is. |
| `ChatHistory.DropPairsConversation` | cera-cli/src/main.rs:1662-1693 | Dropping oldest pairs leaves a conversation of the same shape with that many pairs less. |
| `ChatInvariants.TrimStartAppends` | cera-cli/src/chat_tui.rs:293-299 | The chunk rule: trimming the longer text is what the drain does with one more chunk. |
| `ChatInvariants.OverflowDropsNextPair` | cera-cli/src/chat_tui.rs:909-924 | One overflow takes the worker's copy from n to n + 1 dropped pairs of the UI's history, or is refused when none is left. |
| `ChatInvariants.DispatchDropsPairs` | cera-cli/src/chat_tui.rs:779-800 | At dispatch the index walk drops exactly `truncate_offset` pairs, the offset is not lowered, and the request is the history without them. |
| `ChatInvariants.SystemIsSet` | cera-cli/src/chat_tui.rs:699-736 | After `/system` the prompt is the given text, or gone when that is empty. |
| `ChatInvariants.DrainKeeps` | cera-cli/src/chat_tui.rs:283-392 | Every arm of the drain keeps the protocol invariant. |
| `ChatInvariants.CommandKeeps` | cera-cli/src/chat_tui.rs:509-818 | Every slash command and every dispatch, a failed send included, keeps it. |
| `ChatInvariants.OverflowKeeps` | cera-cli/src/chat_tui.rs:909-924 | A worker-side truncation retry keeps it. |
| `ChatInvariants.StepKeeps` | cera-cli/src/chat_tui.rs:283-925 | Every step of UI, worker and fetch thread keeps it. |
| `ChatInvariants.RunKeeps` | cera-cli/src/chat_tui.rs:283-925 | So does every interleaving. |
| `ChatTheorems.TokenIffGenerating` | cera-cli/src/chat_tui.rs:113-152 | In every reachable state a turn is in flight exactly when one token exists (queued request, busy worker or unread end), never more than one, and exactly when `pending` is set. |
| `ChatTheorems.HistoryShape` | cera-cli/src/chat_tui.rs:113-152 | In every reachable state the two lists are parallel, roles read system?, (user assistant)* with a trailing user exactly while generating, only user turns carry images, and no turn runs beside a URL fetch or after leaving. |
| `ChatTheorems.OffsetNeverHeals` | cera-cli/src/chat_tui.rs:779-788 | `truncate_offset` never exceeds the complete pairs, so the self-heal branch never runs. |
| `ChatTheorems.EndAgrees` | cera-cli/src/chat_tui.rs:350-360 | When `Done` or `Error` is next, what the worker last attempted is the UI's history without `truncate_offset` oldest pairs, images alike. |
| `ChatTheorems.OverflowsEnd` | cera-cli/src/chat_tui.rs:858-925 | The retry loop ends after at most as many overflows as the request had pairs, and one more. |
| `ChatTheorems.PrefillEnds` | cera-cli/src/chat_tui.rs:858-925 | In every reachable state a prefilling worker is through after no more overflows than the UI's history has pairs, and one more. |
| `ChatTheorems.ReplyIgnoresChunking` | cera-cli/src/chat_tui.rs:285-322 | While streaming the text shown is the drained text without leading blanks, and `Done` commits the whole sent text without leading blanks, however it was cut. |
| `ChatTheorems.AttachmentsConserved` | cera-cli/src/chat_tui.rs:749-756 | Every image attached since the last `/clear` is, in order, in exactly one committed user turn or still pending; in flight the open turn holds the pending ones. |
| `ChatTheorems.FailureRestores` | cera-cli/src/chat_tui.rs:338-349 | A failed turn leaves the UI as it was before the dispatch, images still pending, but for a larger offset. |
| `ChatTheorems.GoneWorkerRestores` | cera-cli/src/chat_tui.rs:801-817 | A dispatch that finds the worker gone changes nothing. |
| `ChatTheorems.CommandsAreExact` | cera-cli/src/chat_tui.rs:516-547 | A line is said word for word unless it starts with a slash; leaving and clearing take the bare command, trailing blanks aside, so no argument is ignored. |
| `ChatCommands.SystemTakesText` | cera-cli/src/chat_tui.rs:516-528 | `/system` takes the rest of the line without the blanks around it, and a bare one takes the prompt away. |
| `ChatCommands.ImageTakesPath` | cera-cli/src/chat_tui.rs:620-634 | `/image` fetches a web address and loads anything else as a file; a bare one does nothing. |
| `ChatCommands.UrlIff` | cera-cli/src/image_source.rs:39-42 | A web address starts with `http://` or `https://`, in letters of either case. |
| `ChatCommands.ClearLeavesPrompt` | cera-cli/src/chat_tui.rs:565-599 | In every reachable state `/clear` leaves exactly the leading system message, if there is one, no attachment and no offset. |
| `ChatCommands.SystemReplacesPrompt` | cera-cli/src/chat_tui.rs:699-734 | `/system` puts its text in front of the turns or takes the prompt away, and leaves everything else. |
| `ChatCommands.FileIsAttached` | cera-cli/src/chat_tui.rs:634-657 | An image file is attached behind the others, and one that cannot be loaded changes nothing. |
| `ChatCommands.FetchIsAttached` | cera-cli/src/chat_tui.rs:361-391 | A web image is attached, once, when what the fetch delivers is drained; a failed fetch leaves the UI as it was. |
| `ChatCommands.ExitStopsWorker` | cera-cli/src/chat_tui.rs:409-412 | `/exit` is Ctrl+C between turns, and the idle worker ends on the request it leaves. |
| `ChatCommands.BusyUiIgnoresKeys` | cera-cli/src/chat_tui.rs:440-482 | During a turn neither Enter nor Ctrl+C changes the state, during a fetch Enter does not, and a blank line never does. |
| `ChatTurns.FinishedTurn` | cera-cli/src/chat_tui.rs:935-946 | From any reachable state with the worker streaming: when the generation returns well, the drained UI holds the whole reply, committed, and nothing pending; when it fails, the UI is that of before the dispatch with possibly a larger offset. |
| `ChatTurns.DrainingIsInvisible` | cera-cli/src/chat_tui.rs:282-398 | However the UI's draining interleaves with the worker's steps, the state once all mail is drained is the same. |
| `ChatTurns.TurnCommits` | cera-cli/src/chat_tui.rs:752-947 | A whole turn from a reachable resting state: the line said, any number of overflows the history can bear, a prefill that fits, any pieces of reply and a good end, with drains anywhere in between. The UI then holds the line with its attachments and the reply without leading blanks, and leaves out as many more pairs as there were overflows. |
| `ChatTurns.BrokenTurnRestores` | cera-cli/src/chat_tui.rs:935-941 | The same turn with a bad end leaves the UI as it was, but for the pairs to leave out. |
| `ChatTurns.FailedPrefillRestores` | cera-cli/src/chat_tui.rs:859-928 | So does a turn whose prefill fails after any number of overflows. |
| `ChatTurns.HopelessTurnRestores` | cera-cli/src/chat_tui.rs:906-928 | A turn that overflows even without any finished pair is refused, and leaves the UI as it was but for leaving them all out. |
| `ChatTui.ChatState.Take` | cera-cli/src/chat_tui.rs:285-392 | One drain arm, in place, is the protocol's drain step. |
| `ChatTui.ChatState.TakeAll` | cera-cli/src/chat_tui.rs:283-394 | The inner loop drains the channel in order. |
| `ChatTui.ChatState.ClearHistory` | cera-cli/src/chat_tui.rs:565-600 | `/clear` keeps the system prompt only, drops pending images and resets the offset. |
| `ChatTui.ChatState.SetSystemPrompt` | cera-cli/src/chat_tui.rs:699-736 | `/system` replaces, inserts or removes the prompt, keeping the two lists parallel. |
| `ChatTui.ChatState.SendTurn` | cera-cli/src/chat_tui.rs:746-817 | A user message is committed, cut by the offset and sent, or rolled back when nobody receives it. |
| `ChatTui.ChatState.Submit` | cera-cli/src/chat_tui.rs:450-481 | Enter on a line is the protocol's submit step: new state, request, fetch and exit. |
| `ChatTui.PrefillWithRetries` | cera-cli/src/chat_tui.rs:858-929 | The worker's retry loop takes the protocol's prefill steps and no more tries than the history is long, plus one. |
| `Utf8.DecodeEncode` | cera-client/src/stream.rs:140 | Decoding an encoded text gives it back. |
| `Utf8.EncodeDecode` | cera-client/src/stream.rs:140 | What decodes is the encoding of its decoding, so each text has one encoding (section 4 of RFC 3629). |
| `Utf8.PrefixEndIsBoundary` | cera-cli/src/chat_tui.rs:1255-1269 | Every end of an encoded prefix is a character boundary and cuts the bytes into two encoded texts. |
| `Utf8.BoundaryEndsPrefix` | cera-cli/src/chat_tui.rs:1255-1269 | Every character boundary is such an end. |
| `LineEditor.PrevCharBoundary` | cera-cli/src/chat_tui.rs:1255-1261 | The closest boundary to the left, or 0. |
| `LineEditor.NextCharBoundary` | cera-cli/src/chat_tui.rs:1263-1269 | The closest boundary to the right; past the end it just counts on. |
| `LineEditor.Editor.InsertChar` | cera-cli/src/chat_tui.rs:500-503 | Inserts at the cursor and moves behind it. |
| `LineEditor.Editor.DeleteBack` | cera-cli/src/chat_tui.rs:483-487 | Removes the character before the cursor, all of its bytes and no others. |
| `LineEditor.Editor.DeleteForward` | cera-cli/src/chat_tui.rs:488-491 | Removes the character after the cursor. |
| `LineEditor.Editor.MoveLeft` | cera-cli/src/chat_tui.rs:492-494 | Moves over one whole character. |
| `LineEditor.Editor.MoveRight` | cera-cli/src/chat_tui.rs:495-497 | Moves over one whole character. |
| `LineEditor.Editor.HandleKey` | cera-cli/src/chat_tui.rs:456-506 | Every key on bytes and byte cursor does what it does on the zipper of characters, the cursor stays on a boundary, and only Esc on an empty prompt leaves, only a bare Enter on a line that is not blank submits, all of it. |
| `LineEditor.TypingInserts` | cera-cli/src/chat_tui.rs:500-503 | Typing a text inserts it before the cursor. |
| `LineEditor.BackspacesUndoTyping` | cera-cli/src/chat_tui.rs:483-503 | As many Backspaces undo any typing. |
| `LineEditor.LeftRightUndoIff` | cera-cli/src/chat_tui.rs:492-497 | n steps left and n right meet again exactly when the left end did not stop them. |
| `LineEditor.SubmitsWhatWasTyped` | cera-cli/src/chat_tui.rs:456-482 | Wherever the cursor was moved to, a bare Enter submits the text typed and empties the prompt, unless the text is blank; Esc empties it and leaves only from an empty one. |
| `LineEditor.IdleKeysAreIgnored` | cera-cli/src/chat_tui.rs:500-504 | Control characters and unknown keys do not show in what is typed. |
| `LineEditor.HomeEndAreSteps` | cera-cli/src/chat_tui.rs:498-499 | Home and End are as many steps as there are characters on that side. |
| `LineEditor.DeleteIsRightBackspace` | cera-cli/src/chat_tui.rs:464-491 | Delete is a step right and a Backspace; Shift+Enter and Alt+Enter type a newline. |
| `WrapCursor.WalkFindsLayout` | cera-cli/src/chat_tui.rs:1054-1079 | A text cuts into rows in exactly one way: put together with the hard breaks they give the text, each row fits the width unless the indent or one character alone is wider, and each row that begins no source line starts with a character that found no room in the row before. The walk ends as many rows down and as many cells right as that layout does. |
| `WrapCursor.RowsCountLayout` | cera-cli/src/chat_tui.rs:1107-1127 | The row count is the number of rows in that layout. |
| `WrapCursor.WrappedRowCount` | cera-cli/src/chat_tui.rs:1107-1127 | The `u16` loop returns the number of rows in the layout, saturated; it has no result exactly where a column sum leaves `u16`. |
| `WrapCursor.RowsCompose` | cera-cli/src/chat_tui.rs:1107-1127 | Hard breaks add: rows of two texts joined by a newline are the sum. |
| `WrapCursor.WrappedHeightForMessage` | cera-cli/src/chat_tui.rs:1176-1192 | The saturated sum over prefixed source lines is the exact sum, saturated, unless a line's column sum leaves `u16`. |
| `WrapCursor.HeightIsRowsOfJoined` | cera-cli/src/chat_tui.rs:1176-1192 | In a nonempty width it is the row count of the prefixed text as one string. |
| `WrapCursor.ZeroWidthCounts` | cera-cli/src/chat_tui.rs:1108-1110 | In a zero width it is one row a source line. |
| `WrapCursor.ColumnBound` | cera-cli/src/chat_tui.rs:1063-1075 | With a width of 1 to 65533 the column stays within the width or the prompt, and no sum leaves `u16`. |
| `WrapCursor.ColumnFitsIff` | cera-cli/src/chat_tui.rs:1063-1075 | The column sum stays within `u16` for every text exactly when the width is 1 to 65533, on a terminal that has a character of two cells. |
| `WrapCursor.CursorAgreesIff` | cera-cli/src/chat_tui.rs:1061-1076 | The exact row of the cursor is one less than the exact rows of the prefixed source lines before it, for every text, exactly when the width is not 1; where a column sum leaves `u16` the methods have no result to compare. |
| `WrapCursor.WidthOneDisagrees` | cera-cli/src/chat_tui.rs:1061-1076 | At width 1 they differ on the empty prompt already. |
| `WrapCursor.SaturatedAgreesIff` | cera-cli/src/chat_tui.rs:1061-1076 | As `u16` values they agree exactly while the row has not saturated. |
| `WrapCursor.PlaceCursor` | cera-cli/src/chat_tui.rs:1061-1100 | There is a cell exactly where no column sum leaves `u16`. It lies inside every nonempty area, shows the last row of the layout of the text before the cursor after the least scroll that brings it in, and the column is what that row's cells fill, two more where it begins a source line, wherever that fits. |
| `SseStream.UpcomingAfterLine` | cera-client/src/stream.rs:129-162 | A complete line can be interpreted before anything more arrives without changing the items to come. |
| `SseStream.ChatCompletionStream.TakeLine` | cera-client/src/stream.rs:129-162 | One complete line: its item leaves the future, a terminal one empties it, a silent one changes nothing. |
| `SseStream.ChatCompletionStream.TakeEvent` | cera-client/src/stream.rs:164-215 | One poll of the network: bytes and pending polls change no future item; an error, the cap and the end give the last one. |
| `SseStream.ChatCompletionStream.PollNext` | cera-client/src/stream.rs:121-228 | Whatever is returned, items returned and items to come stay the same; the buffer stays within 16 MiB; the network is polled exactly when nothing buffered decides, and never once terminated, which it then says at each poll; each poll ends. |
| `SseTheorems.PiecesAreLines` | cera-client/src/stream.rs:129-138 | The cut at LF loses nothing: all pieces but the last are whole lines, the last holds no LF. |
| `SseTheorems.ArrivesIffFits` | cera-client/src/stream.rs:166-174 | All bytes are decoded with their own ending exactly when no chunk overfills the buffer behind an unterminated rest. |
| `SseTheorems.SmallInputFits` | cera-client/src/stream.rs:166-174 | An input no longer than the cap fits however it is cut. |
| `SseTheorems.FragmentationIsInvisible` | cera-client/src/stream.rs:121-218 | Two ways of cutting the same bytes, with any empty polls between, give the same items: those of splitting the whole input at LF and reading line by line up to the first terminal result, the rest included. |
| `SseTheorems.OneChunkFitsIff` | cera-client/src/stream.rs:112-113 | A single chunk fits exactly when it is no longer than the cap: the cap is on the buffer, not on a line. |
| `SseTheorems.BlankLinesOverflow` | cera-client/src/stream.rs:112-113 | Blank lines decode to nothing, but in one chunk of more than 16 MiB they are an error. |
| `SseTheorems.DataLineCarriesPayload` | cera-client/src/stream.rs:64-106 | One `data:` line is one event with its payload, whatever blanks surround field and value. |
| `SseTheorems.DoneEndsTheStream` | cera-client/src/stream.rs:72-82 | The `[DONE]` line ends the stream without an item. |
| `SseTheorems.EmptyDataIsSilent` | cera-client/src/stream.rs:71-76 | A data line without a payload is silent, and the stream goes on. |
| `SseTheorems.LineIsItsText` | cera-client/src/stream.rs:130-208 | Any bytes without an LF are read as what they stand for, whether LF or CR LF ends them, and as an unterminated last line with or without a CR; bytes that are no UTF-8 end the stream with an error. |
| `SseTheorems.TextIsRead` | cera-client/src/stream.rs:130-208 | A line of text, encoded and ended in any of these ways, is read as that text. |
| `SseTheorems.EveryInputIsLines` | cera-client/src/stream.rs:129-137 | Every input is a sequence of such lines and an unterminated rest. |
| `SseTheorems.DecodesLines` | cera-client/src/stream.rs:124-212 | The whole-input decoder gives what the lines stand for, in order, up to the first that ends the stream, and then the unterminated rest or the error that the connection broke off with. |
| `SseTheorems.OtherLinesAreSilent` | cera-client/src/stream.rs:64-106 | Comments and other fields are silent. |
| `SseTheorems.ReadEndsIff` | cera-client/src/stream.rs:64-106 | A line with an item ends the stream exactly when the item is neither a chunk nor a payload that does not parse. |
| `SseTheorems.RunIsGrammatical` | cera-client/src/stream.rs:121-218 | Every run yields chunks and unparsed payloads, then at most one terminal error. |
| `SseTheorems.Collect` | cera-client/src/stream.rs:121-227 | Awaiting every item of a fresh stream gives the whole-input decoding when the cap is not reached: what the delivered lines stand for as text, in order, and then the end. The items are grammatical in any case. |
| `Bpe.ScanBest` | scripts/compare_tokenizer.py:46-52 | The scan finds the leftmost pair of least rank, or that no pair is ranked. |
| `Bpe.BestIsUnique` | scripts/compare_tokenizer.py:46-52 | There is one such pair. |
| `Bpe.BpeEncode` | scripts/compare_tokenizer.py:37-62 | The in-place loop ends, and returns the ids of the greedy run. |
| `Bpe.GreedyKeepsBytes` | scripts/compare_tokenizer.py:44-59 | The tokens always concatenate to the input bytes, and none of the final pairs is ranked. |
| `Bpe.MeetingRun` | scripts/compare_tokenizer.py:44-59 | Where a rule can meet the token that another has just built, three tokens show it: the run applies the one and then the other. |
| `Bpe.RanksNeverDecreaseIff` | scripts/compare_tokenizer.py:44-59 | On every list of tokens the ranks applied never decrease, exactly when no rule meets one of lesser rank. |
| `Bpe.GreedyWorksThroughPass` | scripts/compare_tokenizer.py:44-59 | Where every rule meets only rules of greater rank, the run works through the pairs of least rank from left to right, as one pass of that rule would. |
| `Bpe.GreedyIsRuleByRuleIff` | scripts/compare_tokenizer.py:44-59 | On every list of tokens the greedy run is the rule-by-rule encoder, one left-to-right pass for each rank in order, exactly when every rule meets only rules of greater rank. |
| `Bpe.BuildBeforeUseIsStrict` | scripts/compare_tokenizer.py:44-59 | A table in which rules rank after the rules that build their tokens is such a table; one that is such a table need not be in that order. |
| `BpeTables.LoadVocab` | scripts/compare_tokenizer.py:79-84 | Every token has an id that leads back to it, the last one where it occurs twice. |
| `BpeTables.LoadMerges` | scripts/compare_tokenizer.py:87-96 | A rule's rank is the number of the last line that states it; a line without a space states none but still counts. |
| `BpeTables.LoadedRanksAreDistinct` | scripts/compare_tokenizer.py:87-96 | No two rules share a rank. |
| `BpeTables.IdLeadsBackIff` | scripts/compare_tokenizer.py:62 | An id leads back to its token exactly when the table has the token. |
| `BpeTables.MergeLineIsTwoTokens` | scripts/compare_tokenizer.py:92-96 | A merge line is the token before its first space and the one behind it; a line without a space is no rule. |
| `BpeTables.EscapeIsOneByte` | scripts/compare_tokenizer.py:31-33 | `<0xHH>` is the byte with these two hexadecimal digits, in either case. |
| `BpeTables.BlockIsSpace` | scripts/compare_tokenizer.py:34 | A word behind the block sign is the word behind a space. |
| `BpeTables.GreedyStaysInTable` | scripts/compare_tokenizer.py:37-62 | With all bytes and all merge results in the table, every token of a run is in it. |
| `BpeTables.EncodeRoundTrip` | scripts/compare_tokenizer.py:37-62 | Then the vocabulary entries of the encoded ids concatenate to the UTF-8 bytes of any text. |
| `SessionHandles.LocalInStep` | cera-ffi/src/chat.rs:495-525 | Each step of a conversion keeps slot and flag of the handle in step with the thread that holds it. |
| `SessionHandles.OwnedKept` | cera-ffi/src/chat.rs:495-525 | Each step moves the core session from one place to one place. |
| `SessionHandles.MadeKept` | cera-ffi/src/chat.rs:881-890 | A handle is converted at most once. |
| `SessionHandles.RunKeeps` | cera-ffi/src/chat.rs:495-525 | Every interleaving of any number of threads keeps the ownership invariant. |
| `SessionOwnership.ExactlyOneOwner` | cera-ffi/src/chat.rs:495-525 | In every reachable state each core session is in exactly one slot or in one lock-holding thread's hands. |
| `SessionOwnership.FlagTellsTheSlot` | cera-ffi/src/chat.rs:881-890 | While a mutex is free its handle is flagged exactly when its slot is empty, and at most one conversion of a handle succeeds. |
| `SessionOwnership.FlagStays` | cera-ffi/src/chat.rs:546-553 | A reclaimed handle stays dead. |
| `SessionOwnership.CancelStaysHome` | cera-ffi/src/chat.rs:831-840 | Cancelling through an unflagged handle reaches a core session that this handle, or the thread converting it, still owns. |
| `SessionOwnership.RefusalRestores` | cera-ffi/src/chat.rs:520-523 | A refused conversion gives the handle back with the same core session and makes none, whatever other threads do in between. |
| `SessionOwnership.FreeHandleIsLocked` | cera-ffi/src/chat.rs:496-504 | A conversion that is offered begins: an idle thread gets the lock of a free handle of the right kind, and an unconverted one still has its core session. |
| `SessionOwnership.PublishMakesOne` | cera-ffi/src/chat.rs:508-518 | The publishing step adds exactly one handle, owning the core session in the thread's hands. |
| `SessionOwnership.AcceptedMakesChat` | cera-ffi/src/chat.rs:495-519 | An accepted `from_session`, with any steps of other threads in between, leaves the Session handle empty, flagged and free, and makes exactly one handle: a chat that owns the same core session. |
| `SessionOwnership.AcceptedMakesSession` | cera-ffi/src/chat.rs:881-890 | An `into_session` of a chat that owns its core likewise makes exactly one Session that owns it. |
| `SessionOwnership.SpentHandleIsRefused` | cera-ffi/src/chat.rs:502-504 | Converting a converted handle gives it back as it was and makes none. |
| `HandleObjects.ChatSession.FromSession` | cera-ffi/src/chat.rs:495-525 | Moves the core into a new handle, or leaves the old one as it was, with the error that says why. |
| `HandleObjects.ChatSession.IntoSession` | cera-ffi/src/chat.rs:881-890 | Succeeds exactly once, hands the core on with its cancel flag cleared. |
| `HandleObjects.ChatSession.Cancel` | cera-ffi/src/chat.rs:835-840 | Raises the flag exactly while this handle owns the core. |
| `HandleObjects.ChatSession.ClearCancel` | cera-ffi/src/chat.rs:843-851 | Clears it exactly while this handle owns the core. |
| `HandleObjects.ChatSession.Position` | cera-ffi/src/chat.rs:546-553 | Reads the position exactly while this handle owns the core. |
| `HandleObjects.ChatSession.WithChat` | cera-ffi/src/chat.rs:469-480 | Any work runs once on the owned core and its own result is returned, or it does not run at all. |
| `HandleObjects.Session.FromCore` | cera-ffi/src/lib.rs:2593-2607 | A fresh session handle owns its core. |
| `BundlePicker.RowsAreExact` | cera-cli/src/bundle_picker.rs:97-122 | The rows are exactly the matching entries, in the catalog's order. |
| `BundlePicker.SettleIsMinimal` | cera-cli/src/bundle_picker.rs:129-144 | Settling clamps the cursor, puts it inside the window, leaves no avoidable blank tail, and no other such offset is closer to the old one. |
| `BundlePicker.SettledStays` | cera-cli/src/bundle_picker.rs:129-144 | A view is left alone exactly when it is settled. |
| `BundlePicker.MovesUndo` | cera-cli/src/bundle_picker.rs:294-299 | Home and End reach the first and last row; Up undoes Down and PageUp undoes PageDown exactly when the list's end did not stop them. |
| `BundlePicker.BackspaceUndoesTyping` | cera-cli/src/bundle_picker.rs:300-342 | A typed character and a Backspace, pressed, give the filter back with the list shown from its top: the whole view exactly where it was at the top before. |
| `BundlePicker.BackspaceKeepsPlace` | cera-cli/src/bundle_picker.rs:300-302 | Backspace shows no fewer rows, and the cursor stays on the same place among them. |
| `BundlePicker.ListedIff` | cera-cli/src/bundle_picker.rs:97-119 | A bundle is listed exactly when its name without the catalog's suffix holds the filter, letters compared without their case, and a quantization exactly when its own name does. |
| `BundlePicker.EscGoesBack` | cera-cli/src/bundle_picker.rs:278-293 | Esc goes back from the quantizations to the top of the whole list and leaves from there without a choice; Ctrl+C leaves from anywhere. |
| `BundlePicker.AlwaysVisible` | cera-cli/src/bundle_picker.rs:169-346 | Over every run of keys, filter edits, stage changes and resizes, whenever the loop waits the cursor is a row in the drawn window, and any choice returned is in the catalog. |
| `BundlePicker.EnterActsOnHighlighted` | cera-cli/src/bundle_picker.rs:169-346 | In every reachable state with rows and room one drawn line carries the marker, and Enter acts on that line: it returns the bundle's name with its only quantization, opens the list of its quantizations from the top, or returns the bundle with the quantization on the line. |
| `BundlePicker.PickerState.SettleAt` | cera-cli/src/bundle_picker.rs:129-144 | Settling in place computes that view. |
| `BundlePicker.PickerState.Press` | cera-cli/src/bundle_picker.rs:278-345 | One key, in place, is one step of the run. |
| `BundlePicker.Run` | cera-cli/src/bundle_picker.rs:169-346 | The loop returns what the run of its frames and keys comes to, and only choices in the catalog. |

## Left out

- MslScratch.ScratchIsMoved: that the sole occurrence of a line found is that line itself, and not the same text within a longer one.
- MslPass.Postpass: where the search would find the k-loop if the marker line were searched with the text below it.
- MslPointing.RewriteIsRendered: that the block found by counting braces is the k-loop of the program, and that the counts of writes and loads on text are those on the program.
- MslText.PointTheLoads: error messages, and which of several reasons a decline names first.
- MslPointerWalk.MeaningPreserved: the walk itself (`lsma_0` and its step) does not wrap; writes through addresses or a parenthesised name, which the pass does not see either, and side effects within an expression are not statements of the language.
- MslGuards: kernels are a tile loop around one k-loop with the seed of A in the tile loop, as `gemm_q8_0` is.
- MslAddress: an address is a sum; whatever uses it as a whole (a conditional, a call) sees one value in both forms. Calls and unary operators take one operand.
- MslDivergence: one family of kernels for each condition; the exact conditions are `MslGuards.MirroredIffSitesInSpan`, `MslAddress.SpliceableIff` and `MslPointerWalk.SameLoadsIff`.
- MslScan: offsets count characters where the source counts bytes; the two differ only on text that is not ASCII, which the scanners treat alike.
- ChatHistory.SimulationAgreesIff: histories in which one system message occurs twice, word for word, which the chat TUI never builds.
- ChatTheorems.TokenIffGenerating: worker panics, poisoned mutexes and a worker that dies with a request queued; the worker ends only between turns.
- ChatTheorems.OffsetNeverHeals: `truncate_offset` is unbounded, where the source saturates at the word size.
- ChatTui.ChatState.Submit: the outcome of reading an image file is a parameter; `/save`, `/help` and status lines change no modelled state.
- ChatTui.PrefillWithRetries: what a prefill attempt comes to is a parameter; chat templates, tokens and image encoding are not modelled.
- Cancellation of a running turn: Ctrl+C only raises a flag that the model of inference would read.
- LineEditor.Editor.HandleKey: key decoding and key release events; the Ctrl+C and Ctrl+D paths are in the protocol.
- WrapCursor.PlaceCursor: what a build without overflow checks does after a column sum has left `u16`.
- WrapCursor: character widths are a parameter of at most 2 cells; drawing itself is not modelled, so neither is the terminal's own wrapping.
- SseStream: JSON parsing is a parameter from payload to chunk, API error or neither; error messages and response types are not modelled.
- SseStream.ChatCompletionStream.PollNext: wakers and pinning; a source that yields after its end, since none is polled then.
- SseTheorems.Collect: stands for any consumer that awaits item after item; the client has no such loop of its own.
- Bpe.RanksNeverDecreaseIff: lists of tokens that no byte string leads to are among those it speaks of.
- BpeTables.LoadVocab: reading the GGUF file; the comparison of the two encoders and its report.
- SessionHandles: memory order, poisoned mutexes, panics while a lock is held, and cancellation racing with a conversion between its test of the flag and its store.
- HandleObjects.ChatSession.WithChat: what the work can see of a core is its two atomics; chats without a cancel handle of their own are not told apart.
- HandleObjects: `ingest`, checkpoints, streaming and recovery status only call into the core under the lock.
- BundlePicker: drawing, and the wording of rows beyond the text that the filter matches; the cursor is unbounded between a key and the settling that follows it.
- HTTP clients, providers, request types, image downloading, model loading, the KV cache and every numeric kernel.
