# Faktor VS Code client: verified model

Faktor is a coding agent; its VS Code extension is the client half of a streaming protocol. This project models the
parts of that client whose correctness is not visible from any single function, and proves what they promise:

- **Durable event stream** (`LineReader`, `SseFrames`, `SseReader`, `SseBudget`, `SseWire`, `SseDelivery`,
  `EventStream`, `EventRuns`, `EventProgress`). A server-sent-event reader with a cumulative byte budget per frame, a
  resume cursor and a terminal blocked state. Within the budget the way the response is cut into chunks is invisible,
  and over it exactly when is known. Over whole runs, with any number of connections still being read, exactly the
  journal's rows after the starting cursor are delivered, in order; and a connection on which the rest of the journal is
  written as readable text delivers all of it. The server is assumed to send readable rows in journal order; a row the
  client cannot read may take any form, and the rows after it may follow at once.
- **Live-output overlay** (`LiveOverlay`, `LiveLineages`, `EntryPieces`, `LiveTranscript`). A lossy, duplicating,
  reordering channel of byte-offset deltas from any attempts, reconciled with snapshots and a durable floor. The held
  text is always a prefix of one attempt's text exactly as long as no frame takes over an unpinned part.
- **Incremental Markdown** (`MarkdownScan`, `MarkdownParse`, `MarkdownGrammar`, `MarkdownGrowth`, `MarkdownRender`). A
  block parser, held to a line grammar, and a renderer that keeps nodes while text grows. It always shows what parsing
  and rendering everything would show.
- **Transcript windowing** (`TranscriptWindow`). Spacers and prefix sums that lay out like the whole list.
- **Smaller protocols** (`RefreshScheduler`, `SubmissionFence`, `Credentials`, `RenderCache`) and **codecs**
  (`Utf8Chunks`, `Base64`, `DisplayText`, `Money`).

`Text` holds what several of them share: code points with their UTF-8 size, and the line structure of a growing text.
State that the source changes in place is a class whose methods are proved against functions; the laws are lemmas about
those functions. JSON, number and whitespace parsing and the Markdown line classifiers are function-valued parameters,
so the results hold for every choice of them. Characters of decoded text are Unicode scalar values; `DisplayText` works
on UTF-16 units.

## What the proofs found

- `parse` stops after a paragraph that is directly followed by a non-blank line that starts another block: the rest of
  the text is not parsed. `MarkdownParse.CoversIffUnbroken` says exactly when every line is covered, and
  `MarkdownParse.ListUnderParagraphIsDropped` is the smallest case.
- A snapshot of another attempt, or a durable text, that diverges from what is held leaves the part unpinned, and the
  next frame of any attempt that fits extends it: two attempts are merged, which the code means never to do.
  `LiveLineages.LineagesStayApartIff` and `LiveLineages.ForeignFrameExtendsIff` give the exact conditions,
  `LiveLineages.LateFrameMixesAttempts` a run.
- An entry without ordered parts is rendered from its buckets until live output touches one of them; from then on only
  the touched bucket is rendered, and its other bucket, summary and tools are not. `EntryPieces.MergeRendersIff` says
  exactly when a merged entry is rendered whole, `EntryPieces.GrowthHidesReasoning` is a case.
- `renderTranscriptWindow` takes its off-screen branch for a window that reached the end of the list even when the list
  has grown: there is no bottom spacer to update, so the new entries have no height.
  `TranscriptWindow.OffscreenLayout` gives the exact condition, `TranscriptWindow.AppendBelowWindowIsLost` a case.
- `liveNodeAt` does not count the top spacer: it finds the right row exactly when the window starts at the first entry
  (`TranscriptWindow.LiveNodeFoundIff`).
- A sign-out erases a credential obtained between its re-read and its delete, and only then
  (`Credentials.SignOutErasesOnlyTheCaptured`).
- A resolution that finds a stored secret clears the plaintext afterwards: a delete from outside in between leaves
  neither (`Credentials.DeleteBeforeClearLosesBoth`). `Credentials.MigrationNeverLosesTheToken` has the condition.
- The composer is locked by conversation key: a submission made before the session has a name no longer locks it once
  the name arrives (`SubmissionFence.ComposerLockedIff`, `SubmissionFence.NamingTheSessionUnlocks`).
- Over the byte budget, whether a frame blocks or is retried can depend on the chunk boundaries.
  `SseBudget.CutAnyWayIff` says exactly when it does not, `SseBudget.OverBudgetChunkingMatters` is a case where it does.
- `strictBase64` accepts text that is not canonical: re-encoding gives the text back exactly when the unused bits are
  zero (`Base64.ReencodesIff`, `Base64.StrictIsNotCanonical`).
- In `CoalescingRefreshScheduler.fire` the branches for a disposed, running or clean scheduler are never taken
  (`RefreshScheduler.FiringStartsARun`).

Where code and comments disagree the model follows the code. The comment on `rebuildPartsForOverlay` says an append
extends the last part of that kind; the code does so only when that part is the last part of all. The comment at the
conversation switch says the accepted instance is dropped; the code keeps it.

## Model

| member | source | states |
|---|---|---|
| LineReader.PushReadsLines | apps/vscode/src/eventStream.ts:380-388 | taking complete lines off a buffer chunk by chunk, with additive byte counting, stands where reading the concatenated text in one pass stands, for any line consumer |
| SseFrames.AbsorbExtendsGroup | apps/vscode/src/eventStream.ts:397-422 | the fields accumulated line by line are the last event, the last id, all data lines and the total size of the group |
| SseFrames.ReadingDispatchesFrames | apps/vscode/src/eventStream.ts:389-425 | reading lines dispatches exactly the frames those lines complete, and after a refusal only those completed before it; nothing is dispatched after a frame that blocks and nothing read after an unreadable id |
| SseFrames.DispatchEffects | apps/vscode/src/eventStream.ts:462-542 | every complete frame is logged; only an offered event ahead of the cursor is delivered and moves it; only a reported one is reported |
| SseFrames.RefusedIff | apps/vscode/src/eventStream.ts:388-450 | a line is refused exactly for an unreadable id, a frame that blocks, or its frame's size; what a block names and when it is a plain failure |
| SseReader.JudgeIs | apps/vscode/src/eventStream.ts:462-542 | a frame is offered as an event if and only if it has its id, its data, a supported version and one agreed tag that is no heartbeat; otherwise one with an id blocks and one without is reported, but for heartbeats |
| SseReader.FeedReadsLines | apps/vscode/src/eventStream.ts:380-430 | one chunk reaches the one-pass state, or refuses that state for its size exactly when it is past the budget |
| SseReader.ChunkingIsInvisible | apps/vscode/src/eventStream.ts:365-430 | within the budget every way of cutting the text gives the one-pass result |
| SseReader.ChunkingsAgree | apps/vscode/src/eventStream.ts:365-430 | two ways of cutting one in-budget text have one outcome |
| SseReader.ChunksDispatchTheFrames | apps/vscode/src/eventStream.ts:365-430 | the dispatch calls are the text's complete frames in order, all of them unless one is refused |
| SseReader.BudgetHolds | apps/vscode/src/eventStream.ts:353-450 | after every chunk the reader has refused or the frame in progress fits the budget; the buffer's byte count is exact; retained data never exceeds the bytes counted |
| SseBudget.EveryCutRefuses | apps/vscode/src/eventStream.ts:388-430 | over the budget with a harmless crossing line, every way of cutting refuses the frame before that line, with the same callbacks |
| SseBudget.TwoCutsDiffer | apps/vscode/src/eventStream.ts:388-430 | with any other crossing line, cutting at the crossing and cutting after the line are told apart |
| SseBudget.CutAnyWayIff | apps/vscode/src/eventStream.ts:365-450 | the way a text is cut never shows if and only if it stays within the budget, or the line that first crosses it never ends or is refused at its end as it would be unfinished |
| SseBudget.OverBudgetChunkingMatters | apps/vscode/src/eventStream.ts:423-450 | a concrete over-budget text that blocks in one chunk and is retried in two |
| SseWire.CrLfIsLf | apps/vscode/src/eventStream.ts:382-388 | LF and CRLF end a line alike, and only one carriage return is dropped |
| SseWire.EventLine | apps/vscode/src/eventStream.ts:399-401 | an event line gives the trimmed name |
| SseWire.IdLine | apps/vscode/src/eventStream.ts:401-414 | an id line gives the number its trimmed text reads as, or is unreadable |
| SseWire.DataLine | apps/vscode/src/eventStream.ts:415-417 | a data line gives its text without exactly one leading space |
| SseWire.RowsRead | apps/vscode/src/eventStream.ts:388-425 | rows written as name, id and data lines, read back by the client's readers, are all delivered in one pass |
| SseDelivery.WrittenRowsAreDelivered | apps/vscode/src/eventStream.ts:365-542 | such rows ahead of the cursor and within the budget leave the connection live and are all delivered in order, however their text is cut |
| SseDelivery.BadRowBlocks | apps/vscode/src/eventStream.ts:462-535 | a row with a readable id that carries neither event nor heartbeat blocks under that id, after the rows before it, whatever follows and however the text is cut |
| EventStream.Stream.Start | apps/vscode/src/eventStream.ts:246-254 | starting is idempotent while running and clears a blocked state |
| EventStream.Stream.Recover | apps/vscode/src/eventStream.ts:272-277 | recovering restarts a blocked stream and does nothing otherwise; the cursor is untouched |
| EventStream.Stream.Block | apps/vscode/src/eventStream.ts:452-460 | a block records the cursor in force and the offending sequence |
| EventStream.Stream.Dispatch | apps/vscode/src/eventStream.ts:462-542 | the branch-by-branch dispatch does what the judgement of the frame and the cursor say |
| EventStream.Connection.Line | apps/vscode/src/eventStream.ts:388-425 | one line of the loop has the effect of one classified line |
| EventStream.Connection.TakeLines | apps/vscode/src/eventStream.ts:382-426 | the inner loop consumes exactly the buffer's complete lines up to the first refusal |
| EventStream.Connection.Chunk | apps/vscode/src/eventStream.ts:373-430 | one chunk of the read loop has exactly the specified effect on cursor, callbacks, buffer and verdict |
| EventRuns.DispatchKeepsRange | apps/vscode/src/eventStream.ts:519-542 | dispatching a faithfully served frame keeps the delivered rows contiguous and, unless it blocks, leaves no served row behind |
| EventRuns.ReadingKeepsRange | apps/vscode/src/eventStream.ts:382-430 | reading lines keeps the deliveries abreast of every row served, in whatever form, until the reading is refused; an id it is refused for names a row no later than the next |
| EventRuns.ChunkDispatches | apps/vscode/src/eventStream.ts:380-430 | what a chunk does to the cursor and deliveries is dispatching the frames newly completed in all that was received |
| EventRuns.StepKeeps | apps/vscode/src/eventStream.ts:246-325 | every step of a run keeps the delivery invariant and never moves the cursor back |
| EventRuns.DeliversTheJournal | apps/vscode/src/eventStream.ts:284-325 | over every run, with cuts anywhere, replays, heartbeats, comments, overlapping connections and rows the client cannot read with further rows behind them, the deliveries are exactly the next journal rows and the cursor is the last of them |
| EventRuns.BlockIsBehindCursor | apps/vscode/src/eventStream.ts:452-460 | over every run, the block in force was recorded at or behind the cursor |
| EventRuns.BlockedRunResumes | apps/vscode/src/eventStream.ts:268-277 | after any run that blocked, until a chunk arrives, the block names the cursor, recovering connects from it, it is the last row delivered, the rows asked for are exactly the undelivered ones, and an offending sequence beyond the cursor is the first of them |
| EventRuns.NothingServedIsMissing | apps/vscode/src/eventStream.ts:536-542 | once a connection that is still open has been served the whole journal, all of it has been delivered |
| EventRuns.StoppedIff | apps/vscode/src/eventStream.ts:246-325 | what stops a stream and what restarts it, a late block on an aborted connection excepted |
| EventRuns.BlockedIs | apps/vscode/src/eventStream.ts:246-325 | when a stream is blocked, at which cursor and by what |
| EventRuns.StoppedStaysStopped | apps/vscode/src/eventStream.ts:256-277 | over every run a stopped stream opens no connection until it is started or recovered |
| EventProgress.RestOfJournalIsDelivered | apps/vscode/src/eventStream.ts:284-325 | after any run, a connection on which the rest of the journal is written as readable text delivers all of it and stays open |
| LiveOverlay.MergedText | apps/vscode/media/chat.js:6938-6956 | the shown text always extends the durable text |
| LiveLineages.PartStaysHeld | apps/vscode/media/chat.js:6784-6808 | a part grows only by a frame that starts where it ends, along the frame's text |
| LiveLineages.FrameKeepsIff | apps/vscode/media/chat.js:6720-6808 | a frame of any attempt keeps every part a prefix of its own lineage's text with an exact byte count, if and only if it does not take over an unpinned part with another lineage's text; it never shortens a part it keeps |
| LiveLineages.ReconcileHeld | apps/vscode/media/chat.js:6859-6875 | a snapshot part of any attempt leaves the longer text where the two agree, with the attempt it came from, and the snapshot's, unpinned, where they diverge; it shortens exactly when they diverge; the later revision stays |
| LiveLineages.SnapshotKeeps | apps/vscode/media/chat.js:6818-6876 | a snapshot of any mixture of attempts keeps every part sound, and each part it names then holds at least what it last said of it |
| LiveLineages.SnapshotNeverShortens | apps/vscode/media/chat.js:6818-6876 | within one text a snapshot never shortens what is held, a newer live suffix included |
| LiveLineages.MergeKeeps | apps/vscode/media/chat.js:6884-6956 | merging a durable floor saved from any attempts keeps every part sound |
| LiveLineages.MergePartKeeps | apps/vscode/media/chat.js:6938-6956 | what is shown of a bucket is a prefix of one lineage's text too |
| LiveLineages.MergeNeverShortens | apps/vscode/media/chat.js:6938-6956 | within one text a durable floor never shortens what is held |
| LiveLineages.LineagesStayApartIff | apps/vscode/media/chat.js:6703-6956 | over every interleaving of lost, duplicated, reordered or overlapping frames and snapshots of any attempts, merges and conversation switches, every held text is at all times a prefix of its own lineage's text, the pinned one's if pinned, if and only if no frame takes over an unpinned part with another lineage's text |
| LiveLineages.HeldIsAlwaysAPrefix | apps/vscode/media/chat.js:6703-6876 | with one text per part and conversation, over every interleaving and across switches, held text is a prefix of it and its byte count its UTF-8 length |
| LiveTranscript.Panel.OnSwitch | apps/vscode/media/chat.js:6149-6153 | a conversation switch drops parts and floor and keeps the accepted instance, as the switch step of a run does |
| LiveLineages.ForeignFrameExtendsIff | apps/vscode/media/chat.js:6727-6808 | a frame of another lineage than the held text's extends it if and only if the part is unpinned and revision and offset fit; a pinned part is dropped with one resync; no other part changes |
| LiveLineages.LateFrameMixesAttempts | apps/vscode/media/chat.js:6859-6871 | a run of two diverging snapshots and a late frame after which the held text is no attempt's |
| LiveLineages.FrameAdvancesIff | apps/vscode/media/chat.js:6771-6808 | a frame of the part's own lineage advances exactly when it is the next revision and starts at the held end |
| LiveLineages.GapIff | apps/vscode/media/chat.js:6771-6803 | such a frame is dropped without a resync exactly when it brings nothing new, and then only its revision is noted |
| LiveLineages.FirstFrameIff | apps/vscode/media/chat.js:6703-6808 | the first frame of a part advances if and only if it starts where the text of the message's first durable entry ends, and the part then holds that text and the frame's |
| LiveLineages.InOrderFramesArrive | apps/vscode/media/chat.js:6720-6808 | frames in order and without loss are all shown |
| LiveLineages.MergeCatchesUp | apps/vscode/media/chat.js:6884-6956 | after a merge no part is behind the floor it was merged over |
| EntryPieces.RebuildPieces | apps/vscode/media/chat.js:3899-3944 | pieces that spelled the old bucket, or were absent, spell the new one; all other pieces keep their order and content; growth only extends the list, anything else replaces the kind in place |
| EntryPieces.AppendPiece | apps/vscode/media/chat.js:3920-3929 | an append adds exactly the delta to what the kind spells |
| EntryPieces.ReplacePieces | apps/vscode/media/chat.js:3930-3943 | a replacement leaves the kind as one piece with the new text where its first piece stood, or none if it is empty |
| EntryPieces.MergeOne | apps/vscode/media/chat.js:6900-6932 | a changed bucket whose pieces spelled it, or were absent, is spelled by the merged pieces; an unchanged one keeps its pieces; tools and other pieces keep order and content; where buckets grow the list of pieces only extends |
| EntryPieces.EntryPartsOf | apps/vscode/media/chat.js:3878-3891 | what is rendered is the ordered pieces, or pieces made up from buckets and tools when there are none |
| EntryPieces.MadeUpInOrder | apps/vscode/media/chat.js:3878-3891 | made-up pieces are the buckets that are not empty, reasoning first and text last, and then every tool in order |
| EntryPieces.MergeRendersIff | apps/vscode/media/chat.js:3879-3944 | what is rendered of a merged entry spells both merged buckets exactly when no ordered pieces are left or each bucket was touched or spelled by ordered pieces before; and exactly when summary and tools stay rendered |
| EntryPieces.GrowthHidesReasoning | apps/vscode/media/chat.js:3908-3919 | an entry without ordered parts whose reasoning and tool stop being rendered when its text grows |
| LiveLineages.BaseIsFloorText | apps/vscode/media/chat.js:6703-6717 | the floor of a part is the bucket of its kind in the first durable entry with that id, or empty |
| LiveTranscript.Panel.LiveDurableBase | apps/vscode/media/chat.js:6703-6717 | the loop finds that floor |
| LiveTranscript.Panel.OnFrame | apps/vscode/media/chat.js:6720-6808 | the in-place frame application has the specified effect on parts, instance and resync requests |
| LiveTranscript.Panel.OnSnapshot | apps/vscode/media/chat.js:6818-6876 | the in-place snapshot loop has the specified effect |
| LiveTranscript.Panel.MergedField | apps/vscode/media/chat.js:6938-6956 | one bucket's merge and the restart of an overtaken part |
| LiveTranscript.Panel.WithLiveOverlay | apps/vscode/media/chat.js:6884-6936 | every entry has the live text over its durable buckets, never shortened, with pieces that follow as for one merged entry; nothing changes when no entry has live text |
| LiveTranscript.ShownRendersIff | apps/vscode/media/chat.js:6884-6936 | the rendered entry spells the live text and reasoning under exactly that condition |
| MarkdownScan.WhileAgrees | apps/vscode/media/markdown.js:154-164 | a scan sees no further than the lines it stops at |
| MarkdownScan.ListAgrees | apps/vscode/media/markdown.js:217-241 | lists of two texts with the same first lines agree as far as they reach |
| MarkdownScan.SameExtentSameBody | apps/vscode/media/markdown.js:147-259 | same kind and same line range over shared lines force the same content, a fence's closed flag included |
| MarkdownScan.FollowedBlockIsStable | apps/vscode/media/markdown.js:147-259 | a block whose following line is shared too is the same block |
| MarkdownParse.BlocksTile | apps/vscode/media/markdown.js:140-265 | blocks start at non-blank lines and are separated only by blank lines, to the end unless a block ended the parse |
| MarkdownParse.BlocksOrdered | apps/vscode/media/markdown.js:133-266 | reported offsets are ordered, disjoint and non-empty |
| MarkdownParse.CoversIffUnbroken | apps/vscode/media/markdown.js:258-263 | every non-blank line is in a block if and only if no paragraph is followed directly by a non-blank line |
| MarkdownParse.ListUnderParagraphIsDropped | apps/vscode/media/markdown.js:258-263 | a list directly under a paragraph is not parsed |
| MarkdownGrammar.ItemsAre | apps/vscode/media/markdown.js:214-241 | a list's items start at its item lines, every other line continues the item above it, each item says its own text and those lines trimmed, and the list ends at the first line that does neither |
| MarkdownGrammar.BlockAtIsBlock | apps/vscode/media/markdown.js:141-259 | the block at any line is the one a line grammar over the classifiers has there: which lines it takes, where it ends and what it says |
| MarkdownGrammar.ParsedBlocksAreGrammatical | apps/vscode/media/markdown.js:133-266 | so is every block of a parse; only the last can be unterminated, and the partial start is where it starts |
| MarkdownGrowth.SplitGrows | apps/vscode/media/markdown.js:51-53 | appending changes no complete line and only extends the last one |
| MarkdownGrowth.FollowedBlocksAreFinal | apps/vscode/media/markdown.js:133-266 | a block whose following line is newline-terminated is parsed identically after every append, and so is everything before it |
| MarkdownGrowth.KeptBlocksMatch | apps/vscode/media/markdown.js:472-479 | equal kind, start and end in a text and its extension mean equal content |
| MarkdownGrowth.FinalStaysFinal | apps/vscode/media/markdown.js:468-488 | a block that may be kept for good stays so through every further append |
| MarkdownGrowth.BlocksQuoteTheSource | apps/vscode/media/markdown.js:165-172 | the reported offsets point into the text: a paragraph and a fence's code are exact slices of the source |
| MarkdownGrowth.TrailingNewlineIsNotFinal | apps/vscode/media/markdown.js:217-241 | a list whose text ends in a newline still grows when an item is appended |
| MarkdownRender.ScanFence | apps/vscode/media/markdown.js:149-174 | the fence loop gives the block's lines and closed flag |
| MarkdownRender.ScanTable | apps/vscode/media/markdown.js:194-213 | the table loop takes exactly the row lines |
| MarkdownRender.ScanLazy | apps/vscode/media/markdown.js:227-238 | the continuation loop extends the last item with exactly the lazy lines |
| MarkdownRender.ScanList | apps/vscode/media/markdown.js:214-241 | the list loop gives the items and the end of the list |
| MarkdownRender.ScanParagraph | apps/vscode/media/markdown.js:243-259 | the paragraph loop takes exactly the paragraph's lines |
| MarkdownRender.ScanBlock | apps/vscode/media/markdown.js:141-259 | the chain of tests picks the block of its first line |
| MarkdownRender.ParseText | apps/vscode/media/markdown.js:133-266 | the one-pass loop with its running offset computes the parse |
| MarkdownRender.Container.Keep | apps/vscode/media/markdown.js:471-488 | every block counted as kept is unchanged, and every final block is counted |
| MarkdownRender.Container.Render | apps/vscode/media/markdown.js:452-513 | after any render the children show every block of the parsed text; nodes of final blocks keep their identity while text grows |
| TranscriptWindow.WindowIsFaithful | apps/vscode/media/chat.js:4228-4261 | spacers, rows and gaps give the height and row positions of the unwindowed list, for every window |
| TranscriptWindow.RowsCover | apps/vscode/media/chat.js:3628-3635 | the rows cover the viewport at the estimated height with the overscan, no more, and never fewer than the minimum |
| TranscriptWindow.WindowShowsAnchor | apps/vscode/media/chat.js:4161-4171 | the window is as large as it can be; pinned it ends with the list; unpinned it contains any valid anchor with half of the rows above it unless an end of the list is in the way |
| TranscriptWindow.PrefixOf | apps/vscode/media/chat.js:3620-3626 | the prefix array holds every entry's offset |
| TranscriptWindow.AnchorFromScroll | apps/vscode/media/chat.js:3534-3552 | the binary search finds the last entry at or above the scroll position, and restoring the anchor gives the position back |
| TranscriptWindow.Transcript.Measure | apps/vscode/media/chat.js:3655-3672 | measured heights replace cached ones for the rendered rows that have a height |
| TranscriptWindow.Transcript.Offscreen | apps/vscode/media/chat.js:4193-4221 | following the list off screen keeps the layout exactly when there is a bottom spacer or nothing was appended |
| TranscriptWindow.Transcript.Build | apps/vscode/media/chat.js:4222-4264 | building a window gives a faithful layout |
| TranscriptWindow.Transcript.PlaceScroll | apps/vscode/media/chat.js:4183-4188 | pinned, the bottom; otherwise the anchored row's place, or no number for an anchor past the end of a list that shrank |
| TranscriptWindow.Transcript.Render | apps/vscode/media/chat.js:4158-4277 | rendering keeps the layout faithful exactly when it does not follow a grown list off screen without a spacer, shows the end of the list when pinned, and puts the anchor back |
| TranscriptWindow.OffscreenLayout | apps/vscode/media/chat.js:4202-4212 | the exact condition for a faithful layout off screen |
| TranscriptWindow.AppendBelowWindowIsLost | apps/vscode/media/chat.js:4193-4221 | a concrete list where an appended entry gets no height |
| RefreshScheduler.StepKeeps | apps/vscode/src/refreshScheduler.ts:42-112 | every step keeps: one timer, none while running, one run, a dirty scheduler has a timer or a run, nothing after disposal |
| RefreshScheduler.RunKeeps | apps/vscode/src/refreshScheduler.ts:42-112 | the same over every run; runs never overlap |
| RefreshScheduler.FiringStartsARun | apps/vscode/src/refreshScheduler.ts:79-96 | every timer that fires starts a run |
| RefreshScheduler.RequestIsOwed | apps/vscode/src/refreshScheduler.ts:42-51 | after a request, short of a reset or disposal, a run has started since or one is owed |
| RefreshScheduler.OwedRunStarts | apps/vscode/src/refreshScheduler.ts:97-105 | an owed run starts once the run in progress reports and the timer fires |
| RefreshScheduler.TimerIsNeverPostponed | apps/vscode/src/refreshScheduler.ts:42-51 | an armed timer stands until it fires, whatever else arrives |
| RefreshScheduler.NoRunWithoutRequest | apps/vscode/src/refreshScheduler.ts:42-112 | from an idle scheduler no run starts until the next request, whatever else happens |
| RefreshScheduler.IdleAfter | apps/vscode/src/refreshScheduler.ts:59-65 | a reset leaves the scheduler idle, and so does the timer that starts a run |
| RefreshScheduler.DisposalIsFinal | apps/vscode/src/refreshScheduler.ts:67-70 | after disposal no run ever starts |
| RefreshScheduler.LateDoneIsIgnored | apps/vscode/src/refreshScheduler.ts:97-102 | a late or double report changes nothing, ever |
| RefreshScheduler.CoalescingRefreshScheduler.Request | apps/vscode/src/refreshScheduler.ts:42-51 | the request method takes the specified step |
| RefreshScheduler.CoalescingRefreshScheduler.Reset | apps/vscode/src/refreshScheduler.ts:59-65 | the reset method takes the specified step |
| RefreshScheduler.CoalescingRefreshScheduler.Dispose | apps/vscode/src/refreshScheduler.ts:67-70 | the dispose method takes the specified step |
| RefreshScheduler.CoalescingRefreshScheduler.TimerFired | apps/vscode/src/refreshScheduler.ts:72-95 | the timer callback takes the specified step |
| RefreshScheduler.CoalescingRefreshScheduler.ReportDone | apps/vscode/src/refreshScheduler.ts:97-111 | the done callback takes the specified step |
| SubmissionFence.StepKeeps | apps/vscode/media/chat.js:7248-7301 | every step keeps one submission per conversation, rows fenced by their token, and the row bound |
| SubmissionFence.RunKeeps | apps/vscode/media/chat.js:7526-7597 | the same over every interleaving of submits, results, switches and snapshots |
| SubmissionFence.TokensAreFresh | apps/vscode/media/chat.js:7579-7586 | a submission's token was never in flight or in a row before |
| SubmissionFence.LockHolds | apps/vscode/media/chat.js:6467-6478 | a submission's conversation stays locked until a result settles it |
| SubmissionFence.ComposerLockedIff | apps/vscode/media/chat.js:6467-6478 | while a submission is unsettled the composer is locked exactly when it still shows that conversation or has another one in flight there; otherwise a second submit goes through |
| SubmissionFence.NamingTheSessionUnlocks | apps/vscode/media/chat.js:7526-7597 | a submit without a session, the session's name, and a second submit put two in flight |
| SubmissionFence.SubmitAddsRow | apps/vscode/media/chat.js:7579-7597 | a submit ends the rows with the goal, sending, under the new token, with the number of durable twins it has now; only the oldest row can go, at the bound |
| SubmissionFence.RowFate | apps/vscode/media/chat.js:6523-6533 | a pending row goes exactly on a refusal, a switch, a submit past the bound while it is the oldest, or, once accepted, a transcript with more twins than at its submission |
| SubmissionFence.PendingRowStays | apps/vscode/media/chat.js:6523-6533 | over every run of other steps it stays with its text and count |
| SubmissionFence.ResultSettlesItsRow | apps/vscode/media/chat.js:7253-7301 | a result releases exactly its submission; its row is accepted or dropped and all others are untouched; one with an unknown token changes nothing |
| SubmissionFence.ReconcileMembers | apps/vscode/media/chat.js:6523-6533 | a pending row is dropped exactly when accepted and its text gained a durable twin |
| SubmissionFence.Composer.RequestStart | apps/vscode/media/chat.js:7526-7597 | the submit path takes the specified step |
| SubmissionFence.Composer.StartResult | apps/vscode/media/chat.js:7236-7301 | the result path takes the specified step |
| SubmissionFence.Composer.SettleRows | apps/vscode/media/chat.js:7286-7301 | the in-place loop with its stepping-back cursor settles exactly the hit rows |
| SubmissionFence.Composer.OnSnapshot | apps/vscode/media/chat.js:6127-6207 | the snapshot path switches, clears and reconciles as specified |
| Credentials.ResolveStepKeeps | apps/vscode/src/controlPlaneAuth.ts:246-286 | what holds at every stage of a resolution under external writes |
| Credentials.MigrationNeverLosesTheToken | apps/vscode/src/controlPlaneAuth.ts:246-286 | until a token is returned the plaintext is still in its setting; then it is not, and the returned token is in the secret store exactly when no external write since the own read or store replaced it |
| Credentials.UndisturbedResolution | apps/vscode/src/controlPlaneAuth.ts:246-286 | with nobody else writing: which token a resolution ends with, what it refuses and what it leaves in the two stores |
| Credentials.DeleteBeforeClearLosesBoth | apps/vscode/src/controlPlaneAuth.ts:263-268 | a delete between the read and the clearing leaves neither copy |
| Credentials.RefusedPlaintextIsNeverReturned | apps/vscode/src/controlPlaneAuth.ts:246-286 | a returned token was read from the secret store or confirmed for migration |
| Credentials.LeaveStepKeeps | apps/vscode/src/controlPlaneAuth.ts:312-361 | what holds at every stage of a sign-out under external writes |
| Credentials.SignOutErasesOnlyTheCaptured | apps/vscode/src/controlPlaneAuth.ts:331-354 | what is erased is the captured value, or exactly the last one written between re-read and delete |
| Credentials.RotationSurvivesSignOut | apps/vscode/src/controlPlaneAuth.ts:345-361 | a rotation seen by the re-read is left in place and the plaintext is always cleared |
| Credentials.UndisturbedSignOut | apps/vscode/src/controlPlaneAuth.ts:312-361 | with nobody else writing a sign-out erases the credential of a valid scope, and always the plaintext |
| Credentials.GapErasesARotation | apps/vscode/src/controlPlaneAuth.ts:349-351 | a rotation in the gap between re-read and delete is erased |
| Utf8Chunks.CutAtBoundary | crates/acp/src/sync_bridge.rs:37-40 | well-formed text cut at a boundary is two well-formed texts |
| Utf8Chunks.BoundaryNear | crates/acp/src/sync_bridge.rs:38-40 | a boundary is at most three bytes back |
| Utf8Chunks.ChunkEnd | crates/acp/src/sync_bridge.rs:37-43 | stepping back always stops past the start, at a boundary |
| Utf8Chunks.EmitChunks | crates/acp/src/sync_bridge.rs:35-58 | the loop advances; chunks are non-empty, well-formed, bounded and full but for a split character, and spell the text or a prefix of it on an early stop |
| Utf8Chunks.ByteLenIsUtf8 | apps/vscode/src/eventStream.ts:359-363 | the byte length counted character by character is the length of the text's well-formed UTF-8 |
| Base64.Base64FromBytes | apps/vscode/media/chat.js:5262-5274 | the shift-and-mask loop produces the encoding of section 4 of RFC 4648 |
| Base64.RoundTrip | apps/vscode/src/changeReview.ts:622-627 | every encoding passes the strict check and decodes to the same bytes |
| Base64.EncodedEvidenceIsAccepted | apps/vscode/src/changeReview.ts:635-656 | encoded evidence is accepted exactly when its declared length is true and within the bound |
| Base64.ReencodesIff | apps/vscode/src/changeReview.ts:621-627 | text that passes the strict check is re-encoded as it was exactly when the unused bits of its last group are zero |
| Base64.StrictIsNotCanonical | apps/vscode/src/changeReview.ts:621-627 | a text that passes the check and is not canonical |
| DisplayText.HasLoneSurrogate | apps/vscode/src/displayText.ts:35-49 | the scan decides exactly UTF-16 ill-formedness |
| DisplayText.WellFormedIff | apps/vscode/src/displayText.ts:35-49 | well-formed means every high surrogate is followed by a low one and every low one follows a high one |
| DisplayText.StripIsUnitwise | apps/vscode/src/displayText.ts:11-17 | stripping drops exactly the invisible units and keeps the others in order |
| DisplayText.SafeSliceTakesAll | apps/vscode/src/displayText.ts:20-32 | a cut takes the bound, or one unit less exactly when it would split a pair |
| DisplayText.SafeSlice | apps/vscode/src/displayText.ts:20-32 | a slice is a prefix within the bound |
| DisplayText.SafeSliceWellFormed | apps/vscode/src/displayText.ts:20-32 | slicing keeps well-formed text well-formed |
| DisplayText.StripKeepsWellFormed | apps/vscode/src/displayText.ts:11-17 | stripping controls keeps well-formed text well-formed |
| DisplayText.ClampWellFormed | apps/vscode/src/cockpit.ts:1581-1584 | clamping keeps well-formedness and stays within one unit of the bound |
| DisplayText.ClampIs | apps/vscode/src/cockpit.ts:1581-1584 | text that fits stays; longer text is cut as far out as possible and ends in an ellipsis |
| DisplayText.ClampIdempotent | apps/vscode/src/cockpit.ts:1581-1584 | clamping twice is clamping once |
| Money.DollarIsExact | apps/vscode/media/money-input.js:71-91 | an amount with one to six decimals is read as exactly that many micro-USD and accepted exactly up to 2^53-1 |
| Money.WholeDollarIsExact | apps/vscode/media/money-input.js:71-91 | whole dollars are read exactly |
| Money.DollarAcceptedIff | apps/vscode/media/money-input.js:23-91 | text is accepted if and only if it is an optional dollar sign, digits and at most six decimals, of at most 2^53-1 micro-USD |
| Money.DollarRoundTrip | apps/vscode/media/money-input.js:71-91 | printing with six decimals and parsing gives the amount back |
| Money.WireRoundTrip | apps/vscode/src/money.ts:51-109 | every u64 amount survives the wire form and nothing larger is read |
| Money.ReadersAccept | apps/vscode/src/money.ts:51-80 | every u64 decimal is read, and exactly the safe non-negative numbers |
| Money.DisplaysRoundHalfUp | apps/vscode/src/money.ts:87-100 | the four-decimal and the cent display are decimal texts that read back, sign included, within half a unit of the amount, ties away from zero, despite the carry |
| Money.SmallAmounts | apps/vscode/media/chat.js:5755-5771 | exactly nothing and less than a cent have their own words |
| Money.PpmRoundTrip | apps/vscode/src/outcomes.ts:148-159 | a formatted rate reads back to the same parts per million |
| Money.PpmIsShort | apps/vscode/src/outcomes.ts:148-159 | decimals are shown exactly when there are any, and never end in a zero |
| RenderCache.Cache.CachedRender | apps/vscode/media/chat.js:462-479 | the value is what this exact source derives to, whatever shares the key; the order list is a duplicate-free listing of the keys within 512 |

## Left out

- Backoff, jitter, statuses and abort timing of the reconnect loop: steps may come at any time here, which covers every timing.
- `setCursor`: runs are stated without an explicit reseeding of the cursor.
- `LiveOutputStream` and its field parsers: the overlay takes frames after field validation, and live frames and snapshots are those of the conversation shown.
- The Markdown line classifiers, inline rendering and link checks: the block results hold for any classifiers, and a node shows a block's body.
- `parse` moves its running offset line by line inside each block loop; the model moves it over a block's lines at once.
- DOM construction, focus, keys and the unwindowed transcript path; key comparisons and measured heights are inputs of the window model, and heights are whole pixels.
- `storeControlPlaneToken`: its two steps are the last two of a migration.
- The budget, attachment and contract fields of a submission: a refused budget leaves every modelled field as it is.
- `parseRawMicro`, `microBalance`, `sumMicro`, the wording of refusals, non-integer rates in `formatPpm`, `mergeOutcomesPage`: they would only add easy members.
- An entry without an ordered part list is an entry with an empty one.
- EventRuns.Next: connections, chunks and ends may interleave more freely than one event loop allows.
- Everything outside the VS Code client's protocol core: the Rust engine, the JetBrains client, daemon spawning and the remaining panels.
