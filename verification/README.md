# SymDesk, modelled in Dafny

This project models the parts of SymDesk in which a mistake would lose or
corrupt a user's notes or would not show on the screen: the offline write queue
of the phone, the table, diagram and formula code of the Markdown preview, the
search index, the query language, the frontmatter of notes, and two functions of
the desktop command. It proves what their callers rely on. `dafny verify
dfyconfig.toml` checks all of it.

Classes whose fields the source updates are classes here (`MobileOutbox`,
`Coordinator`, `MobileSearchIndex`, `MobileInlineAIModel`, `Debouncer`), and code
that loops over changing variables is a method with a loop. Each is proved
against a function, and the functions carry the theorems. Loops that differ only
in a predicate on lines share one method that takes the predicate.

What the functions themselves compute is stated once more without them, in terms
of the text that is typed and of plain constants: in the modules whose names end
in `Reads`, `Kinds`, `Prints`, `Meanings` and `Shapes`, and beside the functions of
the queue, the diagrams and the formulas.

## The parts

**The write queue** (`Outbox`, `WriteAdapters`, `WriteProtocol`,
`WriteFailures`, `WriteRetries`, `WriteRestarts`, `WriteCoordinator`). The user, the drain, the
remote side, the clock and crashes are atomic steps between two suspension
points, so a sequence of steps is an interleaving, and a theorem about `Run` is
one about every run.
Retrying is two steps because the actor can be entered between its read and its
write. A save may fail, a write may reach the backend without the phone learning
of it, and a relaunch brings the queue back as it was last saved, with dates cut
to whole seconds. Fetching the live file, checking the precondition and writing
are one step; the code does not make them atomic, and a change that arrives
between its fetch and its write is outside this model. The proofs are about
safety only: a drain trigger that arrives while a drain is about to end does
nothing (`TriggerLost`). Where the code and its own comments disagree, or a
reader might expect more of it, the model follows the code:

- The comment on `drain` says that everything but a network error fails visibly.
  An error that is not a `MobileWriteError` is queued again instead
  (`ConnectionLossRequeues`).
- A failed stat in Files mode is taken for an absent file, so a create can
  replace a file that is there; `CreateOverwritesIff` says exactly when.
- `update` appends an entry that it does not find, so a removal during a drain
  can be undone by it; `RemovalSticksIff` says exactly when a removal sticks.
- A write that landed without an acknowledgement is queued again with its old
  precondition, so its next attempt can lose a conflict against itself;
  `RetryConflictsIff` says exactly when.

**Mermaid and mathematics** (`Mermaid`, `MathTypesetter`). The graph builder
works on lines that are already cut into segments. The symbol and script tables
of the typesetter are parameters, so its theorems hold whatever they contain.
Rendering is not idempotent, and a fraction is not always the quotient of its
rendered groups: the script pass reads braces that an earlier rendering has
removed. `RenderKeepsIff`, `RenderTwiceIff` and `FractionComposes` give the exact
condition, which a caller can check on the rendered text.

**The preview's blocks** (`PreviewBlocks`, `PreviewLoops`, `PreviewShapes`,
`PreviewKinds`). What one line says about a block, how far the block goes, and what it holds are
separate functions; a block is made of the lines it takes and nothing else.

**Pipe tables** (`MarkdownTable`, `LineBlocks`, `TableEditor`, `TableEdits`,
`TablePrints`, `TableLoops`). One character unit stands for Swift's `count` and for UTF-16. A
row is not found again at its index when the header, or a row down to it, reads
as a separator line, because the editor skips such lines anywhere and the parser
only in second place. `Readable` is the exact condition, and the theorems on
edits carry it.

**Search** (`TokenOrder`, `SearchDocuments`, `SearchRanking`, `SearchIndex`,
`SearchMeanings`).
Runs of the index may contain failed saves, removals and restarts from an old
file. A query token that is only a prefix of indexed tokens scores with the
weight of the body, whatever field the longer token is in.

**Queries** (`QueryParser`, `QueryFilter`, `QueryShapes`, `QueryMeanings`). Letter case, calendar
dates and regular expressions are parameters. The filter engine promises that a
typed operator and the chip of the same name give the same result. The typed form
ends at white space and reads commas as alternatives, so that holds for one word
without a comma and for nothing else (`TypedTagIsChip`, `TypedTypeIsChip`).

**Notes** (`Frontmatter`, `FrontmatterLists`, `FieldReads`, `BodyLens`, `NewNote`,
`InlineAI`). The comment on `replacingBody` says that putting the parsed body
back always reproduces the file. It does not when the text behind the
frontmatter is blank but not empty, or is missing together with its line break,
or when the writer, which trims more than the parser, closes the frontmatter
earlier; `GetPut` gives the exact condition. The parser does not undo the escapes
that a new note's title is written with, and a title may hold a line that closes
the frontmatter; `NewNoteReadsBack` gives the exact conditions there.

**Desktop** (`Debounce`, `ToolVersion`).

## Model

| member | source | states |
|---|---|---|
| Outbox.NextDueIsOldest | Sources/SymDeskMobile/MobileWriteLayer.swift:472-478 | sorting the pending entries and then looking for a due one finds the head of the due entries sorted by creation date, and nothing exactly when none is due |
| Outbox.NextDueIsDue | Sources/SymDeskMobile/MobileWriteLayer.swift:472-478 | the entry that is picked is in the queue and due; none is picked exactly when every entry is failed or waits for a later time |
| Outbox.HandledOnce | Sources/SymDeskMobile/MobileWriteLayer.swift:436-468 | removing the head of the due queue, or storing it back when it is no longer due, leaves exactly the rest of the due queue in order |
| Outbox.StoredIds | Sources/SymDeskMobile/MobileOutbox.swift:139-154 | a relaunch brings back the ids of the queue in their order |
| Outbox.StoredSurvives | Sources/SymDeskMobile/MobileOutbox.swift:239-247 | a saved queue has the same length, and each entry of it is the old one with the three dates put back: every date is the whole second at or below the old one, and present exactly when it was |
| Outbox.PutShape | Sources/SymDeskMobile/MobileOutbox.swift:192-203 | storing an entry replaces the one with its id in place, or appends it when there is none, and leaves every other where it was |
| Outbox.MobileOutbox.Enqueue | Sources/SymDeskMobile/MobileOutbox.swift:187-190 | the entry is at the end of the queue; if the save succeeds, the file holds every entry of it but for fractions of a second, and its old content otherwise |
| Outbox.MobileOutbox.Update | Sources/SymDeskMobile/MobileOutbox.swift:192-203 | the entry with that id is replaced in place, or appended when it is gone; if the save succeeds, the file holds every entry, state and reason included, but for fractions of a second |
| Outbox.MobileOutbox.Remove | Sources/SymDeskMobile/MobileOutbox.swift:205-209 | every entry with that id is gone from memory, and from the file if the save succeeds |
| Outbox.MobileOutbox.RemoveAll | Sources/SymDeskMobile/MobileOutbox.swift:211-221 | nothing is left in memory, nor in the file if the save succeeds |
| WriteAdapters.SiblingBesideTarget | Sources/SymDeskMobile/MobileWriteLayer.swift:38-51 | the conflict sibling of a note lies in the same directory and is never the note itself |
| WriteAdapters.MarkedBeforeExtension | Sources/SymDeskMobile/MobileWriteLayer.swift:41-51 | in any directory, the sibling of a name made of a stem and an extension is the stem, ` conflicted copy.` and the extension |
| WriteAdapters.MarkedAtEnd | Sources/SymDeskMobile/MobileWriteLayer.swift:41-51 | every other name gets ` conflicted copy` at its end |
| WriteAdapters.DerivedNames | cmd/symdesk/conflict.go:99-112 | the desktop drops ` conflicted copy` or ` 2` in front of the extension and leaves other names as they are |
| WriteAdapters.ResolveFindsTarget | cmd/symdesk/conflict.go:99-112 | the desktop's resolve command leads from a sibling back to its note exactly for names without a dot or made of a stem and an extension: both not empty, no dot or space in the extension, and no two dots at the start |
| WriteAdapters.ApplyGuarded | Sources/SymDeskMobile/MobileWriteLayer.swift:95-129 | no apply replaces an existing note unless the live file matches the precondition; the one exception is a create whose target could not be read in Files mode |
| WriteAdapters.ApplyAccounts | Sources/SymDeskMobile/MobileWriteLayer.swift:257-319 | an apply writes at most one file, with the content of its entry, and changes nothing else |
| WriteAdapters.ConflictPreserves | Sources/SymDeskMobile/MobileWriteLayer.swift:148-161 | an apply that ends in a conflict has put the entry's content at the sibling it reports and has left the target as it was |
| WriteAdapters.SuccessDelivers | Sources/SymDeskMobile/MobileWriteLayer.swift:123-146 | an apply without an error has put the content at the target, or has ingested the original |
| WriteAdapters.UploadLands | Sources/SymDeskMobile/MobileWriteLayer.swift:297-308 | an upload lands in its folder, or in `inbox_watch`, under its own name or its path; on a server it leaves the notes alone |
| WriteAdapters.CreateOverwritesIff | Sources/SymDeskMobile/MobileWriteLayer.swift:266-295 | a create replaces a file that is there exactly when Files mode cannot stat it and the write goes through |
| WriteAdapters.CaptureAdmits | Sources/SymDeskMobile/MobileVault.swift:523-546 | a precondition captured on a server admits only the same content, one captured in a folder only the same date and size, and neither admits a replacement in the other mode |
| WriteProtocol.BackoffShape | Sources/SymDeskMobile/MobileWriteLayer.swift:480-483 | retries wait two seconds, then twice as long each time, up to the cap of fifteen minutes, which is reached at the tenth attempt and never passed |
| WriteProtocol.StepInv | Sources/SymDeskMobile/MobileWriteLayer.swift:397-470 | every step of every caller keeps the queue free of duplicate ids, keeps each entry equal to what was enqueued, and keeps acknowledged entries accounted for in memory and in the file |
| WriteProtocol.OutsideSteps | Sources/SymDeskMobile/MobileWriteLayer.swift:350-386 | the world outside may put any file anywhere, take it away, switch the mode and let time pass, and does nothing else |
| WriteProtocol.RunInv | Sources/SymDeskMobile/MobileWriteLayer.swift:357-484 | the invariant holds in every reachable state of every interleaving |
| WriteProtocol.NoBlindOverwrite | Sources/SymDeskMobile/MobileWriteLayer.swift:95-129 | in every run a note write replaces an existing file only if that file is the one the edit was made against, by hash on a server and by date and size in a folder |
| WriteProtocol.NoCrossModeOverwrite | Sources/SymDeskMobile/MobileVault.swift:523-546 | an update that was queued in one connection mode and drained in the other never overwrites |
| WriteProtocol.NothingLost | Sources/SymDeskMobile/MobileOutbox.swift:187-221 | in every run an acknowledged entry is still queued with its content, or was delivered, or was removed by the user; the same holds after a crash |
| WriteProtocol.FailedUntilTouched | Sources/SymDeskMobile/MobileWriteLayer.swift:406-425 | a failed entry stays exactly as it is, reason and conflict path included, until it is retried, removed or cleared, or the app crashes |
| WriteProtocol.RetryQueues | Sources/SymDeskMobile/MobileWriteLayer.swift:406-415 | a retry queues the failed entry in its place, due at once, with reason, conflict path and retry date cleared and everything else kept; an entry that is not failed stays as it is |
| WriteRestarts.CrashAfterSave | Sources/SymDeskMobile/MobileOutbox.swift:239-247 | a relaunch after a save has the saved queue, no drain, no retry and no mode, and the same notes |
| WriteRestarts.FailedOutlivesCrashes | Sources/SymDeskMobile/MobileOutbox.swift:239-247 | a failed entry that was saved stays failed, with reason and conflict path, through any steps and any number of crashes, until the user retries, removes or clears |
| WriteRestarts.SavedFailure | Sources/SymDeskMobile/MobileWriteLayer.swift:453-459 | that holds from any save that succeeds while the entry is failed |
| WriteProtocol.ConflictOutcome | Sources/SymDeskMobile/MobileWriteLayer.swift:453-459 | a conflict met by the drain leaves the content at the sibling, the target untouched, and the entry failed and naming the sibling, with its attempts and its date as they were |
| WriteProtocol.RemovalSticksIff | Sources/SymDeskMobile/MobileOutbox.swift:192-209 | a removed entry never comes back, whatever follows, exactly when no copy of it is held by a drain or a retry and the removal was saved |
| WriteFailures.FailedHasReason | Sources/SymDeskMobile/MobileWriteLayer.swift:444-468 | in every run a failed entry was refused, had no content, or lost a conflict after its content was written to the sibling that it names |
| WriteFailures.ConnectionLossRequeues | Sources/SymDeskMobile/MobileWriteLayer.swift:444-468 | a lost connection or an unknown error keeps the entry queued with one more attempt, that error, and a retry after the backoff, which is between two seconds and fifteen minutes; anything else fails it with its reason |
| WriteRetries.ApplyOutcome | Sources/SymDeskMobile/MobileWriteLayer.swift:95-129 | what one apply of a note does on any backend and network: the error of a server that cannot be read, a conflict exactly when the file that is seen blocks the write, and else the content at the target |
| WriteRetries.RetryConflictsIff | Sources/SymDeskMobile/MobileWriteLayer.swift:444-468 | a write that landed unacknowledged is queued again; whatever happens meanwhile, its next attempt there ends in a conflict exactly when the file it then finds is not the one the edit was made against, and if it finds its own landing: for a create always, for an update on a server exactly when its content is not what the queued hash names |
| WriteRetries.OwnConflict | Sources/SymDeskMobile/MobileWriteLayer.swift:453-459 | a run in which a write conflicts with itself, with the same text then at the note and at its sibling |
| WriteRetries.TriggerLost | Sources/SymDeskMobile/MobileWriteLayer.swift:430-436 | a trigger between a drain's last look at the clock and its end does nothing, whatever has become due meanwhile |
| WriteRetries.DueButIdle | Sources/SymDeskMobile/MobileWriteLayer.swift:472-478 | so an entry can be due while no drain is under way and its trigger is spent |
| WriteCoordinator.Coordinator.Enqueue | Sources/SymDeskMobile/MobileWriteLayer.swift:397-404 | enqueueing is one step of the protocol and keeps its invariant |
| WriteCoordinator.Coordinator.Retry | Sources/SymDeskMobile/MobileWriteLayer.swift:406-415 | retrying is its two steps: only a failed entry is queued again, with its reason cleared |
| WriteCoordinator.Coordinator.Remove | Sources/SymDeskMobile/MobileWriteLayer.swift:417-420 | removing is one step of the protocol |
| WriteCoordinator.Coordinator.Clear | Sources/SymDeskMobile/MobileWriteLayer.swift:422-425 | clearing is one step of the protocol |
| WriteCoordinator.Coordinator.SetMode | Sources/SymDeskMobile/MobileWriteLayer.swift:383-386 | switching the backend touches no entry |
| WriteCoordinator.Coordinator.Handle | Sources/SymDeskMobile/MobileWriteLayer.swift:436-468 | one round of the drain is four steps of the protocol and takes the head off the due queue |
| WriteCoordinator.Coordinator.Classify | Sources/SymDeskMobile/MobileWriteLayer.swift:444-468 | the catch clauses give the entry that the protocol stores for each kind of error |
| WriteCoordinator.Coordinator.DrainLoop | Sources/SymDeskMobile/MobileWriteLayer.swift:436-468 | the loop ends, is a run of the protocol, handles the due entries once each and oldest first, and leaves none due |
| WriteCoordinator.Coordinator.Drain | Sources/SymDeskMobile/MobileWriteLayer.swift:430-470 | at a frozen clock a drain leaves every entry failed or waiting for a strictly later time; a second drain meanwhile does nothing |
| Mermaid.OrderOfRefs | Sources/SymDeskCore/MarkdownPreview.swift:558-569 | every node that is mentioned is in the order, and only once |
| Mermaid.LinkEndsMentioned | Sources/SymDeskCore/MarkdownPreview.swift:571-593 | both ends of every edge are nodes that are mentioned |
| Mermaid.Parse | Sources/SymDeskCore/MarkdownPreview.swift:548-598 | there is no graph exactly when nothing is mentioned; else its edges are those of the neighbouring references in the chains, once for each pair and in their order, and its nodes the ids that are referred to, in order of first mention and with the first caption that is not the id |
| Mermaid.DrawnIff | Sources/SymDeskCore/MarkdownPreview.swift:571-593 | so an edge is in the graph exactly when two neighbouring segments of a chain refer to its ends and the second carries its label, and an id exactly when a segment or a single line refers to it |
| Mermaid.AcyclicWalkShort | Sources/SymDeskCore/MarkdownPreview.swift:529-540 | a walk in an acyclic graph has fewer edges than there are nodes, so the cap on depths never binds |
| Mermaid.FixpointCovers | Sources/SymDeskCore/MarkdownPreview.swift:529-540 | after a round without a change every walk is accounted for, so leaving the loop early loses nothing |
| Mermaid.Relax | Sources/SymDeskCore/MarkdownPreview.swift:531-539 | one round keeps every depth the length of a real walk and relaxes every edge |
| Mermaid.Depth | Sources/SymDeskCore/MarkdownPreview.swift:527-540 | every depth is the length of a walk and at most the node count, and in an acyclic graph that of the longest walk |
| Mermaid.LongestPrefix | Sources/SymDeskCore/MarkdownPreview.swift:541-544 | a longest walk passes a longest walk of every smaller length, so no layer of an acyclic graph is empty |
| Mermaid.Layers | Sources/SymDeskCore/MarkdownPreview.swift:526-545 | the layers hold every node once and none is empty; every edge leads to a strictly later layer exactly when the graph has no cycle, and then the index of a layer is the length of the longest walk to its nodes |
| MathTypesetter.FindIsFirst | Sources/SymDeskCore/MarkdownPreview.swift:361-374 | a command is found at its first occurrence, and not found only when there is none |
| MathTypesetter.TakeGroupLoop | Sources/SymDeskCore/MarkdownPreview.swift:383-408 | the scanning loop takes the balanced group or the single character that the specification takes |
| MathTypesetter.TakeBraced | Sources/SymDeskCore/MarkdownPreview.swift:383-408 | a braced group with balanced content is taken as a whole, and the rest is what stands behind it |
| MathTypesetter.TakeSpaced | Sources/SymDeskCore/MarkdownPreview.swift:383-408 | spaces in front of a group are skipped, and without a brace the group is one character |
| MathTypesetter.FracCommand | Sources/SymDeskCore/MarkdownPreview.swift:360-371 | the groups of a fraction and the text around them are together shorter than the text, malformed fractions included |
| MathTypesetter.NamedCommand | Sources/SymDeskCore/MarkdownPreview.swift:373-380 | the same for a command with one group |
| MathTypesetter.Render | Sources/SymDeskCore/MarkdownPreview.swift:333-358 | rendering ends on every text and never makes it longer |
| MathTypesetter.RenderLoop | Sources/SymDeskCore/MarkdownPreview.swift:333-358 | the rewriting loops compute the rendering |
| MathTypesetter.RenderScripts | Sources/SymDeskCore/MarkdownPreview.swift:410-435 | the loop over script markers computes the script pass |
| MathTypesetter.RenderIsClean | Sources/SymDeskCore/MarkdownPreview.swift:353-357 | whatever the input, no brace and no backslash is left and the result is trimmed |
| MathTypesetter.PlainIsTrimmed | Sources/SymDeskCore/MarkdownPreview.swift:333-358 | text without any TeX in it is only trimmed |
| MathTypesetter.FractionRenders | Sources/SymDeskCore/MarkdownPreview.swift:360-371 | the first fraction of a text, nested or not, may be replaced by the bracketed quotient of its rendered groups: the text renders as before, whatever stands around it |
| MathTypesetter.FractionComposes | Sources/SymDeskCore/MarkdownPreview.swift:360-371 | a fraction of balanced groups renders to the quotient of its rendered groups exactly when every script marker in that quotient is settled: nothing follows it, or directly a character that is no space and has no script form |
| MathTypesetter.BrokenFraction | Sources/SymDeskCore/MarkdownPreview.swift:360-371 | a fraction without groups keeps its name, and one with only a numerator keeps that and a slash |
| MathTypesetter.RootRenders | Sources/SymDeskCore/MarkdownPreview.swift:338-339 | the first root of a text without fractions may be replaced by the root sign and its rendered group in brackets |
| MathTypesetter.TextRenders | Sources/SymDeskCore/MarkdownPreview.swift:340-341 | the first text command may be replaced by its rendered group alone, if that makes no fraction or root of what stands around it |
| MathTypesetter.RomanRenders | Sources/SymDeskCore/MarkdownPreview.swift:340-342 | the same for roman text, which is read last |
| MathTypesetter.BrokenCommand | Sources/SymDeskCore/MarkdownPreview.swift:373-380 | a command without its group keeps its name |
| MathTypesetter.LongestSymbolWins | Sources/SymDeskCore/MarkdownPreview.swift:344-347 | of the symbol names that fit behind a backslash the longest is replaced, and what stands behind it stays |
| MathTypesetter.ScriptGroup | Sources/SymDeskCore/MarkdownPreview.swift:410-435 | a marked group is replaced character by character if all of it has script forms, and else keeps its marker and loses its braces |
| MathTypesetter.RenderKeepsIff | Sources/SymDeskCore/MarkdownPreview.swift:333-358 | rendering leaves a text as it is exactly when the text has no brace and no backslash, is trimmed, and its script markers are settled |
| MathTypesetter.RenderTwiceIff | Sources/SymDeskCore/MarkdownPreview.swift:410-435 | a second rendering changes nothing exactly when the script markers of the first result are settled |
| MathTypesetter.RendersTwice | Sources/SymDeskCore/MarkdownPreview.swift:410-435 | an input that shows that it can: a group that is mapped only in part changes again when rendered again |
| PreviewBlocks.UsedSome | Sources/SymDeskCore/MarkdownPreview.swift:39-193 | every block takes at least one line, so the parser ends on every text |
| PreviewBlocks.SpansPartition | Sources/SymDeskCore/MarkdownPreview.swift:29-194 | the lines that the blocks take, put together in order, are the lines after the frontmatter |
| PreviewBlocks.SpanStandsAlone | Sources/SymDeskCore/MarkdownPreview.swift:29-194 | the lines of a block parse by themselves to that block and nothing else, unterminated fences and formulas included |
| PreviewBlocks.BlocksConcat | Sources/SymDeskCore/MarkdownPreview.swift:29-194 | behind a blank line, heading, rule, embed or list item parsing starts afresh: the blocks of the whole are those of the two parts |
| PreviewBlocks.LoneParagraphIff | Sources/SymDeskCore/MarkdownPreview.swift:174-191 | the defensive branch of the paragraph loop is reached exactly by lines that start with a hash and are no heading, and makes a paragraph of that line alone |
| PreviewShapes.HeadingIff | Sources/SymDeskCore/MarkdownPreview.swift:112-123 | hashes, a space and a text are a heading of that level up to six hashes and a paragraph line beyond |
| PreviewShapes.LoneHashes | Sources/SymDeskCore/MarkdownPreview.swift:112-123 | hashes alone are an empty heading, up to six of them |
| PreviewKinds.BlankIff | Sources/SymDeskCore/MarkdownPreview.swift:45-50 | a line is a blank block exactly when it holds nothing but blanks |
| PreviewKinds.RuleIff | Sources/SymDeskCore/MarkdownPreview.swift:125-130 | a line is a rule exactly when it is three dashes, stars or underscores but for blanks |
| PreviewKinds.BulletReads | Sources/SymDeskCore/MarkdownPreview.swift:227-232 | a dash, star or plus, a space and a text are an item with that text, as deep as there are spaces and tabs in front |
| PreviewKinds.NumberedReads | Sources/SymDeskCore/MarkdownPreview.swift:233-241 | digits, a dot, a space and a text are a numbered item |
| PreviewKinds.EmbedReads | Sources/SymDeskCore/MarkdownPreview.swift:196-209 | an embed shows its name and its heading, without its alias, and no heading when that is empty |
| PreviewKinds.FormulaReads | Sources/SymDeskCore/MarkdownPreview.swift:75-84 | a formula between two dollars on either side of one line |
| PreviewKinds.FormulaHolds | Sources/SymDeskCore/MarkdownPreview.swift:85-102 | a formula over several lines holds what stands behind the opening dollars, the lines between, and what stands in front of the closing ones |
| PreviewKinds.FenceLanguage | Sources/SymDeskCore/MarkdownPreview.swift:52-55 | the language of a fence of either kind is what stands behind it, without blanks |
| PreviewKinds.TildesHold | Sources/SymDeskCore/MarkdownPreview.swift:52-63 | a fence of tildes holds exactly its lines; backticks do not close it |
| PreviewKinds.CodeKinds | Sources/SymDeskCore/MarkdownPreview.swift:64-71 | `mermaid` is a diagram, `base` and `symdesk-base` a base, in any case of their letters, and anything else code |
| PreviewKinds.CalloutReads | Sources/SymDeskCore/MarkdownPreview.swift:211-225 | a callout has its kind in lower case, its title or the capitalised kind, and the lines behind it; a fold mark does not matter |
| PreviewKinds.NoCallout | Sources/SymDeskCore/MarkdownPreview.swift:143-147 | a quote that does not start so is a quote with all its lines |
| PreviewKinds.ClosingLines | Sources/SymDeskCore/MarkdownPreview.swift:58-164 | the lines that close a fence or a formula, and those that go on a quote or a table, by what they start or end with but for blanks |
| PreviewKinds.BreaksIff | Sources/SymDeskCore/MarkdownPreview.swift:174-185 | a paragraph ends before every line that starts another block but a rule or a fence of tildes, and before every hash |
| PreviewKinds.ParagraphHolds | Sources/SymDeskCore/MarkdownPreview.swift:174-191 | a paragraph is its lines, trimmed and joined by spaces |
| PreviewKinds.PrintedTableShows | Sources/SymDeskCore/MarkdownPreview.swift:158-172 | a table as the editor prints it is shown with its header and rows, filled up, if none of them reads as a separator line |
| PreviewKinds.ShownLines | Sources/SymDeskCore/MarkdownPreview.swift:32-37 | a document is shown from behind its frontmatter on, and from its first line on without any |
| PreviewShapes.FenceHolds | Sources/SymDeskCore/MarkdownPreview.swift:52-73 | a fenced text is one block with exactly its lines, if and only if none of them closes the fence |
| PreviewShapes.QuoteHolds | Sources/SymDeskCore/MarkdownPreview.swift:132-149 | quoted lines are one quote or callout with exactly their texts |
| PreviewLoops.ReadFence | Sources/SymDeskCore/MarkdownPreview.swift:52-73 | the loop over a fence takes the lines and makes the block of the specification, and may stop one past the end |
| PreviewLoops.ReadMath | Sources/SymDeskCore/MarkdownPreview.swift:75-103 | the same for a formula over several lines |
| PreviewLoops.ReadQuote | Sources/SymDeskCore/MarkdownPreview.swift:132-149 | the same for a quote or callout |
| PreviewLoops.ReadTable | Sources/SymDeskCore/MarkdownPreview.swift:158-172 | the same for a table, without its separator lines |
| PreviewLoops.ReadParagraph | Sources/SymDeskCore/MarkdownPreview.swift:174-191 | the same for a paragraph, the defensive line included |
| PreviewLoops.ParseBlocks | Sources/SymDeskCore/MarkdownPreview.swift:29-194 | the main loop returns the blocks of the text |
| MarkdownTable.ParsedIsClean | Sources/SymDeskCore/MarkdownTable.swift:35-56 | whatever lines are parsed, the cells of the table are trimmed and free of pipes and line breaks |
| MarkdownTable.ParsePrinted | Sources/SymDeskCore/MarkdownTable.swift:44-93 | parsing the printed lines returns the same cells, filled up to the column count, with alignments over the full width |
| MarkdownTable.ParseSerialize | Sources/SymDeskCore/MarkdownTable.swift:44-93 | the same through the printed text: its lines are the printed lines |
| MarkdownTable.SerializePadded | Sources/SymDeskCore/MarkdownTable.swift:59-93 | the normal form of a table prints as the table |
| MarkdownTable.SerializeIdempotent | Sources/SymDeskCore/MarkdownTable.swift:44-93 | printing after parsing is idempotent on any block of lines |
| MarkdownTable.RowSeparatorIff | Sources/SymDeskCore/MarkdownTable.swift:29-33 | a printed row reads as a separator line exactly when its cells hold a dash and nothing but dashes, colons and spaces |
| TablePrints.AlignmentsPrinted | Sources/SymDeskCore/MarkdownTable.swift:80-86 | printed and parsed again, a column has a colon at the start or at the end of its separator exactly where its alignment had one, and dashes everywhere else |
| TablePrints.WidthIs | Sources/SymDeskCore/MarkdownTable.swift:60-68 | a column is as wide as its widest cell, and at least three |
| TablePrints.PrintedCell | Sources/SymDeskCore/MarkdownTable.swift:70-79 | a cell stands between two pipes and spaces, with its text first and then blanks up to the width, behind as many pipes as there are columns before it |
| TablePrints.TableLineIff | Sources/SymDeskCore/MarkdownTable.swift:24-27 | a line belongs to a table exactly when it is blanks, a pipe and something more than blanks |
| TablePrints.RowReads | Sources/SymDeskCore/MarkdownTable.swift:35-40 | the texts between the pipes of a row are its cells, trimmed |
| TablePrints.OpenRowReads | Sources/SymDeskCore/MarkdownTable.swift:35-40 | the same for a row without its last pipe, or without either |
| TablePrints.ParsedTable | Sources/SymDeskCore/MarkdownTable.swift:44-56 | the first line is the header, the second the alignments if it is a separator line, and every other line a row |
| TablePrints.OtherLinesIgnored | Sources/SymDeskCore/MarkdownTable.swift:44-46 | a line that belongs to no table changes nothing |
| MarkdownTable.PrintedIsRectangular | Sources/SymDeskCore/MarkdownTable.swift:59-93 | all printed lines have the same length and one pipe more than there are columns |
| MarkdownTable.Measure | Sources/SymDeskCore/MarkdownTable.swift:61-68 | measuring a row widens exactly the columns that it has |
| MarkdownTable.Print | Sources/SymDeskCore/MarkdownTable.swift:59-93 | the running widths and output lines give the printed table |
| LineBlocks.SpotIsBlock | Sources/SymDeskCore/MarkdownTable.swift:129-149 | the lines found around a cursor are a maximal run of table lines that holds it |
| LineBlocks.BlockIsSpot | Sources/SymDeskCore/MarkdownTable.swift:129-149 | a maximal run with the cursor on one of its lines is the one that is found |
| LineBlocks.SpliceText | Sources/SymDeskCore/MarkdownTable.swift:190-195 | exchanging the text between the two offsets exchanges exactly the lines of the run |
| TableEditor.LocatedTable | Sources/SymDeskCore/MarkdownTable.swift:129-186 | the row and column that are found are cells of the table that is found |
| TableEditor.WalkBackStops | Sources/SymDeskCore/MarkdownTable.swift:223-228 | the cursor is put behind the last character of the cell that is not padding |
| TableEditor.CellEndColumn | Sources/SymDeskCore/MarkdownTable.swift:164-173 | the pipes left of the end of a printed cell are those of its column |
| TableEditor.RowReadBack | Sources/SymDeskCore/MarkdownTable.swift:153-163 | a printed row is found at its index exactly when the header and no row down to it reads as a separator line, and never further down |
| LineBlocks.RowOfLine | Sources/SymDeskCore/MarkdownTable.swift:155-163 | the row of a line is the number of lines above it that are no separators, less one, as far as there are rows; the first such line and every separator line stand for the header |
| TablePrints.ColumnUnderCursor | Sources/SymDeskCore/MarkdownTable.swift:165-174 | a cursor between two pipes is in the column of the left one |
| TablePrints.CursorBehindText | Sources/SymDeskCore/MarkdownTable.swift:212-229 | the cursor of an edit stands right behind the text of its cell |
| TableEditor.EditRelocates | Sources/SymDeskCore/MarkdownTable.swift:190-210 | an edit exchanges the text of the table and nothing else, and looking again at the new cursor finds the table in its normal form, the intended column, and the intended row exactly when it can be read back, otherwise a row above it |
| TableEdits.NextIsNext | Sources/SymDeskCore/MarkdownTable.swift:235-257 | Tab goes to the next cell in reading order and changes the table only past the last cell, where it adds one blank row |
| TableEdits.PreviousIsPrevious | Sources/SymDeskCore/MarkdownTable.swift:261-275 | Shift-Tab goes to the previous cell, and nowhere exactly at the first one |
| TableEdits.InsertIsBelow | Sources/SymDeskCore/MarkdownTable.swift:279-285 | a new row is blank, stands right below the cursor and moves the others down by one |
| TableEdits.AddColumnCells | Sources/SymDeskCore/MarkdownTable.swift:288-304 | a new column is empty and moves the cells from it on to the right by one, in every row |
| TableEdits.RemoveColumnCells | Sources/SymDeskCore/MarkdownTable.swift:307-320 | a removed column takes one cell out of every row that has it and keeps the others in order |
| TableEdits.RemoveIsRemoval | Sources/SymDeskCore/MarkdownTable.swift:307-320 | a column is removed unless it is the only one, and the cursor stays or moves to the new last column |
| TableEdits.NextCellLands | Sources/SymDeskCore/MarkdownTable.swift:235-257 | on any document Tab does something exactly inside a table, keeps the text around it, and is found again where it should be |
| TableEdits.PreviousCellLands | Sources/SymDeskCore/MarkdownTable.swift:261-275 | the same for Shift-Tab, except at the first header cell |
| TableEdits.InsertRowLands | Sources/SymDeskCore/MarkdownTable.swift:279-285 | the same for a new row |
| TableEdits.AddColumnLands | Sources/SymDeskCore/MarkdownTable.swift:288-304 | the same for a new column |
| TableEdits.RemoveColumnLands | Sources/SymDeskCore/MarkdownTable.swift:307-320 | the same for a removed column, except in a table with one column |
| TablePrints.MovesKeepAlignment | Sources/SymDeskCore/MarkdownTable.swift:233-285 | Tab, Shift-Tab and a new row keep the colons of every column |
| TablePrints.NewColumnKeepsAlignment | Sources/SymDeskCore/MarkdownTable.swift:288-304 | a new column has no colons, and every other column keeps its own |
| TablePrints.RemoveKeepsAlignment | Sources/SymDeskCore/MarkdownTable.swift:307-320 | the columns that stay keep their colons |
| TableEdits.PreviousUndoesNext | Sources/SymDeskCore/MarkdownTable.swift:235-275 | Shift-Tab right after Tab never changes the text, and returns to the cell where Tab was pressed exactly when the row that Tab went to can be read back |
| TableEdits.RemoveUndoesAdd | Sources/SymDeskCore/MarkdownTable.swift:288-320 | removing a column right after adding it leaves the document as printing the table alone would, alignments included |
| TableLoops.Find | Sources/SymDeskCore/MarkdownTable.swift:129-186 | the loops over offsets, lines and pipes find what the specification locates |
| TableLoops.Rewrite | Sources/SymDeskCore/MarkdownTable.swift:190-210 | the running offset gives the document and the cursor of the specification |
| TableLoops.ContentEndOf | Sources/SymDeskCore/MarkdownTable.swift:214-229 | the pipe list and the walk over padding give the end of the cell |
| TableLoops.NextCell | Sources/SymDeskCore/MarkdownTable.swift:235-257 | Tab, with its local table, row and column, is the edit of the specification |
| TableLoops.PreviousCell | Sources/SymDeskCore/MarkdownTable.swift:261-275 | Shift-Tab is the edit of the specification |
| TableLoops.InsertRowBelow | Sources/SymDeskCore/MarkdownTable.swift:279-285 | inserting a row is the edit of the specification |
| TableLoops.AddColumn | Sources/SymDeskCore/MarkdownTable.swift:288-304 | filling up and inserting row by row is the edit of the specification |
| TableLoops.RemoveColumn | Sources/SymDeskCore/MarkdownTable.swift:307-320 | dropping cells row by row is the edit of the specification |
| TokenOrder.PrefixBetween | Sources/SymDeskMobile/MobileSearchIndex.swift:227-245 | between a prefix and a token with it there are only tokens with it, so the range from the lower bound on is complete |
| TokenOrder.AscendingUnique | Sources/SymDeskMobile/MobileSearchIndex.swift:212 | the sorted token list is determined by the tokens |
| TokenOrder.LowerBound | Sources/SymDeskMobile/MobileSearchIndex.swift:228-237 | the binary search returns the first position whose token is not below the prefix |
| TokenOrder.WithPrefix | Sources/SymDeskMobile/MobileSearchIndex.swift:227-245 | the tokens that are returned are exactly those with the prefix |
| SearchDocuments.WordsConcat | Sources/SymDeskMobile/MobileSearchIndex.swift:164-181 | a separator ends a word: the tokens of two texts around it are those of one and then those of the other |
| SearchDocuments.WordsOfJoined | Sources/SymDeskMobile/MobileSearchIndex.swift:189-202 | joining tags or fields with spaces never makes one token of two |
| SearchDocuments.WordsAreWords | Sources/SymDeskMobile/MobileSearchIndex.swift:164-181 | a token is at least two word characters and nothing else |
| SearchMeanings.WordsAreTokens | Sources/SymDeskMobile/MobileSearchIndex.swift:164-181 | the tokens of a text are exactly its runs of word characters of length two or more, with none left out at either end |
| SearchMeanings.LoneWord | Sources/SymDeskMobile/MobileSearchIndex.swift:164-181 | a text without a separator is one token if it has two characters and else none |
| SearchMeanings.IndexFields | Sources/SymDeskMobile/MobileSearchIndex.swift:189-202 | each token field of an indexed note holds exactly the tokens of the folded text of that field |
| SearchDocuments.Tokenize | Sources/SymDeskMobile/MobileSearchIndex.swift:164-181 | the scanning loop returns the words of the folded text |
| SearchDocuments.ScratchIsLast | Sources/SymDeskMobile/MobileSearchIndex.swift:78-86 | of several notes with one path the last one is indexed |
| SearchDocuments.SaveAndLoad | Sources/SymDeskMobile/MobileSearchIndex.swift:268-293 | what is saved is read back, and loading never meets two entries for one path |
| SearchDocuments.MergeAgrees | Sources/SymDeskMobile/MobileSearchIndex.swift:75-91 | a merge into any index made of notes seen before leaves what indexing the snapshot from scratch leaves, and exactly its paths |
| SearchDocuments.MergeIsScratch | Sources/SymDeskMobile/MobileSearchIndex.swift:75-98 | after any run of merges, removals, restarts and failed saves, one more merge leaves the token fields, inverted map and tokens of the last snapshot alone, if path and signature determine the text |
| SearchDocuments.KeptDate | Sources/SymDeskMobile/MobileSearchIndex.swift:183-185 | an entry that is kept may hold an older date, but by less than a second, or both dates are less than a second from 1970 |
| SearchMeanings.KeptIff | Sources/SymDeskMobile/MobileSearchIndex.swift:79-86 | a merge keeps an entry exactly when size and whole second are those it was made with |
| SearchDocuments.Invert | Sources/SymDeskMobile/MobileSearchIndex.swift:204-213 | the rebuilt map leads from each token to exactly the documents that have it |
| SearchRanking.TitleWins | Sources/SymDeskMobile/MobileSearchIndex.swift:134-147 | for any number of tokens, exact title hits on all of them score strictly above any other document, whatever the ages |
| SearchMeanings.OneTokenScore | Sources/SymDeskMobile/MobileSearchIndex.swift:137-144 | a token is worth 6 points in the title, 4 in a tag, 3 in the frontmatter, 1 in the body, and 0.6 if only a longer token starts with it |
| SearchMeanings.MoreTokensScore | Sources/SymDeskMobile/MobileSearchIndex.swift:136-146 | every further token adds its worth; from two on all count half as much again, and recency is added once |
| SearchMeanings.BestFirst | Sources/SymDeskMobile/MobileSearchIndex.swift:150-156 | hits come with falling scores, and with falling dates between equal scores; if all fit, they are exactly the documents that match |
| SearchRanking.TitleFirst | Sources/SymDeskMobile/MobileSearchIndex.swift:134-156 | in an answer such a document stands before every other one, and is not cut off while one of those is shown |
| SearchRanking.CutIsAnswer | Sources/SymDeskMobile/MobileSearchIndex.swift:150-156 | cutting the ordered list of matches to the limit leaves as many hits as match, up to the limit, and nothing that was cut off is better than a hit |
| SearchRanking.Place | Sources/SymDeskMobile/MobileSearchIndex.swift:150-155 | ordering by score and then by date keeps every hit and leaves no later hit better than an earlier one |
| SearchIndex.ConsistentUnique | Sources/SymDeskMobile/MobileSearchIndex.swift:204-213 | two indexes over the same token fields are the same, map and token list |
| SearchIndex.MobileSearchIndex.constructor | Sources/SymDeskMobile/MobileSearchIndex.swift:61-68 | a cold start holds the documents of the file and an index that is consistent with them |
| SearchIndex.MobileSearchIndex.Merge | Sources/SymDeskMobile/MobileSearchIndex.swift:75-91 | merging is the step of the runs above and keeps the index consistent |
| SearchIndex.MobileSearchIndex.RemoveAll | Sources/SymDeskMobile/MobileSearchIndex.swift:93-98 | removing everything is the step of the runs above and keeps the index consistent |
| SearchIndex.MobileSearchIndex.PathsForPrefix | Sources/SymDeskMobile/MobileSearchIndex.swift:216-224 | the union over the prefix range is the set of documents with a token that starts with it |
| SearchIndex.MobileSearchIndex.MatchAll | Sources/SymDeskMobile/MobileSearchIndex.swift:112-129 | the intersections, with their early returns, are the documents in which every query token is a prefix of some token |
| SearchMeanings.FoundIff | Sources/SymDeskMobile/MobileSearchIndex.swift:107-129 | a note is found exactly when every token of the folded query starts a token of its folded title, tags, frontmatter or body |
| SearchIndex.MobileSearchIndex.ScoreOf | Sources/SymDeskMobile/MobileSearchIndex.swift:134-147 | the accumulated score is the sum over all tokens, with the bonus and the recency |
| SearchIndex.MobileSearchIndex.Search | Sources/SymDeskMobile/MobileSearchIndex.swift:107-157 | searching for a text returns the answer of a scan of all documents for its words: every match once, with its score, best first, cut to the limit |
| QueryParser.DelimitedExtends | Sources/SymDeskMobile/MobileSearchQueryParser.swift:161-214 | what stands behind the closing quote or slash does not change a phrase or pattern |
| QueryParser.UnitExtends | Sources/SymDeskMobile/MobileSearchQueryParser.swift:122-134 | a unit that follows `last` stays the unit when more text is written behind it |
| QueryParser.ItemExtends | Sources/SymDeskMobile/MobileSearchQueryParser.swift:85-143 | an entry of a query is read the same way when more text follows |
| QueryParser.ParseJoins | Sources/SymDeskMobile/MobileSearchQueryParser.swift:74-149 | two queries joined by a space parse to both plans in order, or to the error of the second one; the look-ahead never crosses the joint |
| QueryParser.ReadDelimited | Sources/SymDeskMobile/MobileSearchQueryParser.swift:161-214 | the scanning loop with its escape flag reads the phrase or pattern of the specification |
| QueryParser.ReadBare | Sources/SymDeskMobile/MobileSearchQueryParser.swift:114-142 | words, filters and the look-ahead are read as specified |
| QueryParser.ParseQuery | Sources/SymDeskMobile/MobileSearchQueryParser.swift:74-149 | the index loop with its growing plan returns the plan or the first error |
| QueryShapes.PhraseReads | Sources/SymDeskMobile/MobileSearchQueryParser.swift:161-186 | every phrase but the empty one, quoted with escapes, parses to itself |
| QueryShapes.MinusNegates | Sources/SymDeskMobile/MobileSearchQueryParser.swift:89-97 | a minus negates the entry behind it and changes nothing else |
| QueryShapes.WordReads | Sources/SymDeskMobile/MobileSearchQueryParser.swift:114-142 | a word without a colon is a term of its own |
| QueryMeanings.PatternReads | Sources/SymDeskMobile/MobileSearchQueryParser.swift:103-113 | a pattern between slashes is taken as typed, backslashes included, and refused if it does not compile |
| QueryMeanings.DelimitersRefused | Sources/SymDeskMobile/MobileSearchQueryParser.swift:161-214 | empty or unclosed quotes and slashes, and a minus without a term, are refused with their own errors |
| QueryMeanings.GluedRefused | Sources/SymDeskMobile/MobileSearchQueryParser.swift:145-147 | text that sticks to the closing quote of a phrase is refused |
| QueryMeanings.ColonWords | Sources/SymDeskMobile/MobileSearchQueryParser.swift:216-235 | a colon behind no operator: an identifier is refused as an unknown operator, anything else is a word; without a value it is refused |
| QueryMeanings.OperatorIgnoresCase | Sources/SymDeskMobile/MobileSearchQueryParser.swift:226-234 | operators are known in any case of their letters |
| QueryMeanings.DateOperator | Sources/SymDeskMobile/MobileSearchQueryParser.swift:119-136 | a date operator keeps its value as typed, and is refused if that is no date |
| QueryMeanings.LastTakesUnit | Sources/SymDeskMobile/MobileSearchQueryParser.swift:122-134 | `last` takes the unit behind it, in any case of the letters and over any white space |
| QueryMeanings.CommaDates | Sources/SymDeskMobile/MobileSearchQueryParser.swift:245-248 | a list of dates is one exactly when every part is |
| QueryMeanings.DateRanges | Sources/SymDeskMobile/MobileSearchQueryParser.swift:249-266 | a date stands for itself, and two with two dots between them for a range, if both are dates |
| QueryMeanings.ThreeDates | Sources/SymDeskMobile/MobileSearchQueryParser.swift:252-255 | more than two in one range are refused |
| QueryFilter.JoinedQueryMatches | Sources/SymDeskMobile/MobileSearchFilterEngine.swift:72-105 | a note matches two queries written one after the other exactly when it matches each |
| QueryFilter.SelectBoth | Sources/SymDeskMobile/MobileSearchFilterEngine.swift:62-70 | searching within the results of a first query is searching for both |
| QueryFilter.NegationComplements | Sources/SymDeskMobile/MobileSearchFilterEngine.swift:135-147 | a negated term matches the complement exactly when the term is not blank |
| QueryFilter.TypedTagIsChip | Sources/SymDeskMobile/MobileSearchFilterEngine.swift:72-131 | for every `x`, typing `tag:x` is a query and selects what the tag chip `x` selects, on every note, exactly when `x` is one word without a comma |
| QueryFilter.TypedTypeIsChip | Sources/SymDeskMobile/MobileSearchFilterEngine.swift:72-131 | the same for `type:x` and the type chip |
| QueryMeanings.OperatorSelects | Sources/SymDeskMobile/MobileSearchFilterEngine.swift:109-131 | `path:x` and `filename:x` select the notes in whose path or name `x` occurs, and `filetype:x`, `tag:x`, `type:x` and `status:x` those that have it, in any case of the letters |
| QueryMeanings.DatesSelect | Sources/SymDeskMobile/MobileSearchFilterEngine.swift:119-122 | `created` and `modified` select the notes whose creation or modification the value covers |
| QueryMeanings.CommaIsOr | Sources/SymDeskMobile/MobileSearchFilterEngine.swift:159-179 | values with a comma between them are alternatives |
| QueryMeanings.FilterComplements | Sources/SymDeskMobile/MobileSearchFilterEngine.swift:130 | a filter with a minus selects the other notes |
| QueryMeanings.TermsSelect | Sources/SymDeskMobile/MobileSearchFilterEngine.swift:133-145 | a word selects the notes in which some word starts with it, a phrase those that hold it anywhere, after folding |
| QueryMeanings.PatternSelects | Sources/SymDeskMobile/MobileSearchFilterEngine.swift:149-155 | a pattern selects the notes in whose title and body, with a line break between them, it is found, and with a minus the others |
| QueryMeanings.TagChipsNarrow | Sources/SymDeskMobile/MobileSearchFilterEngine.swift:86-88 | one more tag chip keeps the notes that also have that tag |
| QueryMeanings.ChipsAreAlternatives | Sources/SymDeskMobile/MobileSearchFilterEngine.swift:89-96 | several correspondents, or several types, are alternatives |
| QueryMeanings.LoneChips | Sources/SymDeskMobile/MobileSearchFilterEngine.swift:89-101 | what a single chip and a date range select; a note is dated by its document or else its creation, to the day |
| QueryMeanings.NoteOrDocument | Sources/SymDeskMobile/MobileSearchFilterEngine.swift:102-103 | every note is shown by exactly one of the two kind chips |
| Frontmatter.SplitFrontmatter | Sources/SymDeskMobile/MobileVault.swift:190-239 | the loop with its dictionaries and open list key reads the fields and the body of the specification |
| FrontmatterLists.InlineListReads | Sources/SymDeskMobile/MobileVault.swift:276-281 | an inline list of plain items is read back item by item |
| FrontmatterLists.ListReads | Sources/SymDeskMobile/MobileVault.swift:206-234 | items written line by line are appended to the open list in order and change nothing else |
| FrontmatterLists.TypedList | Sources/SymDeskMobile/MobileVault.swift:206-234 | a key and its item lines are read back as that list |
| FieldReads.FileReads | Sources/SymDeskMobile/MobileVault.swift:190-239 | a file with frontmatter is read as the fields of its lines, one after the other, and the trimmed text behind the closing delimiter |
| FieldReads.NoFrontmatter | Sources/SymDeskMobile/MobileVault.swift:197-202 | a file that does not start with a delimiter, or has no second one, is all body |
| FieldReads.BreaksBecomePlain | Sources/SymDeskMobile/MobileVault.swift:195 | line breaks of two characters become one, and nothing else changes |
| FieldReads.KeyLine | Sources/SymDeskMobile/MobileVault.swift:220-231 | a key and a value, whatever blanks stand around them: the last value of a key counts, an empty one opens a list, and a key with a space is none |
| FieldReads.ItemLine | Sources/SymDeskMobile/MobileVault.swift:212-218 | an item goes to the end of the open list, unless it is empty |
| FieldReads.OtherLine | Sources/SymDeskMobile/MobileVault.swift:220-223 | a line without a colon closes the open list |
| FieldReads.IdleLine | Sources/SymDeskMobile/MobileVault.swift:209-210 | blank lines and comments change nothing |
| FieldReads.ScalarReads | Sources/SymDeskMobile/MobileVault.swift:283-293 | a scalar is trimmed, and nothing if that leaves nothing |
| FieldReads.QuotedReads | Sources/SymDeskMobile/MobileVault.swift:287-292 | a scalar in quotes of either kind is what stands inside them, trimmed |
| FieldReads.TagsRead | Sources/SymDeskMobile/MobileVault.swift:190-239 | tags written line by line are the tags of the file |
| FieldReads.InlineTagsRead | Sources/SymDeskMobile/MobileVault.swift:276-281 | so are tags written between brackets |
| BodyLens.PlainBreaksAgree | Sources/SymDeskMobile/MobileInlineAI.swift:75-84 | with no line breaks but plain ones, the writer and the parser see the same frontmatter |
| BodyLens.GetPut | Sources/SymDeskMobile/MobileInlineAI.swift:71-97 | putting the parsed body back reproduces the file exactly when the writer sees no frontmatter, or closes it where the parser does, with a line behind it and a text there that is empty or not blank |
| BodyLens.PutGet | Sources/SymDeskMobile/MobileInlineAI.swift:86-97 | the new body is read back after a replace exactly when parser and writer close the frontmatter at one line and the body is trimmed, or the writer sees none and the body has none of its own; in the first case every field is as it was |
| BodyLens.PutGetFrameless | Sources/SymDeskMobile/MobileInlineAI.swift:75-84 | without frontmatter the new body is read back exactly when it does not start with frontmatter of its own |
| BodyLens.PutPut | Sources/SymDeskMobile/MobileInlineAI.swift:86-97 | two replaces equal the last one, for every second body, exactly when the first body was trimmed and did not empty a region with white space |
| BodyLens.UndoRestores | Sources/SymDeskMobile/MobileInlineAI.swift:71-97 | replacing the body and then putting the old one back restores the file, if the file takes its own body back |
| BodyLens.ReplacedFile | Sources/SymDeskMobile/MobileInlineAI.swift:86-97 | the file after a replace, as written: its frontmatter as it was, and the new body between the white space that stood around the old one |
| BodyLens.ReplacedWhole | Sources/SymDeskMobile/MobileInlineAI.swift:75-84 | a file without frontmatter is replaced as a whole |
| NewNote.EscapedTrimmed | Sources/SymDeskMobile/MobileWriteLayer.swift:53-55 | escaping and reading leave a title as it was exactly when it is trimmed and has nothing to escape |
| NewNote.TitleNoNewline | Sources/SymDeskMobile/MobileVault.swift:190-239 | a parsed title never has a line break, whatever the file |
| NewNote.NewNoteReadsBack | Sources/SymDeskMobile/MobileWriteLayer.swift:22-36 | the title of a new note is read back exactly when it is trimmed and has no backslash, quote or line break, and its body exactly when that is trimmed and no inner line of the title is a delimiter |
| NewNote.NewNoteHasNoTags | Sources/SymDeskMobile/MobileWriteLayer.swift:22-36 | the tag list of a new note whose title is one line is read back empty |
| NewNote.CreatedReadsBack | Sources/SymDeskMobile/MobileWriteLayer.swift:22-36 | the creation date of a new note whose title is one line is read back |
| InlineAI.ApplyBack | Sources/SymDeskMobile/MobileInlineAI.swift:57-63 | putting the selected text back where the suggestion stands restores the text, unless the suggestion was empty and the selection was not everything |
| InlineAI.ApplyKeepsAround | Sources/SymDeskMobile/MobileInlineAI.swift:57-63 | a suggestion takes the place of the selected text and leaves what stands around it; without a selection in the text it is everything |
| InlineAI.RebuiltKeepsFields | Sources/SymDeskMobile/MobileInlineAI.swift:287-306 | every file that a session writes keeps the frontmatter fields of the original, if writer and parser close its frontmatter at the same line |
| InlineAI.MobileInlineAIModel.Accept | Sources/SymDeskMobile/MobileInlineAI.swift:287-306 | accepting writes the original with the merged body, at most once for each result, and nothing without a suggestion |
| InlineAI.MobileInlineAIModel.Undo | Sources/SymDeskMobile/MobileInlineAI.swift:311-323 | undoing writes the original, and only while an accepted rebuild is the last write |
| InlineAI.MobileInlineAIModel.Start | Sources/SymDeskMobile/MobileInlineAI.swift:225-232 | starting again writes nothing and takes undo away |
| Debounce.Debouncer.Accumulate | cmd/symdesk/events.go:37-43 | the bits of a pending event grow and its time stays; a new one starts with its own |
| Debounce.Debouncer.Flush | cmd/symdesk/events.go:88-98 | deleting while ranging hands on exactly the matured events and keeps the others |
| Debounce.Conservation | cmd/symdesk/events.go:37-98 | over any run the bits received for a path are those handed on and those pending |
| Debounce.PendingIsWindow | cmd/symdesk/events.go:37-43 | a pending event has the bits of all receipts since the last delivery of its path and the time of the first |
| Debounce.DeliveredIsWindow | cmd/symdesk/events.go:88-98 | what is handed on is the window that the flush closes, and nothing of it stays |
| Debounce.PendingIsYoung | cmd/symdesk/events.go:88-98 | with flushes at most half a second apart nothing pending is ever a second old |
| Debounce.DeliveredAge | cmd/symdesk/events.go:88-98 | what is handed on has waited for at least half a second and less than one |
| Debounce.CreateSurvives | cmd/symdesk/events.go:48-62 | a path is classified as added exactly when one of the collected events was a creation, whatever came with it |
| Debounce.EmittedIff | cmd/symdesk/events.go:48-80 | a flushed Markdown file that was created or written is reported as indexed if it parses and by the classification if not; a removal is reported only without either; other files are not reported |
| ToolVersion.ParseToolVersion | cmd/symdesk/doctor.go:143-168 | filling the array part by part returns the parsed components, and nothing when one of them is not a number in range |
| ToolVersion.DottedReads | cmd/symdesk/doctor.go:143-168 | decimal numbers in range, written between dots, are read back, with or without a `v` and with white space around them |
| ToolVersion.BadPart | cmd/symdesk/doctor.go:155-166 | nothing is read where a part is empty or holds anything but digits |
| ToolVersion.SuffixIgnored | cmd/symdesk/doctor.go:149-154 | build metadata and pre-release labels do not matter, whatever they hold |
| ToolVersion.NewerFromIff | cmd/symdesk/doctor.go:128-140 | a version is newer exactly when it is greater at the first component in which the two differ |
| ToolVersion.ToolVersionIsNewer | cmd/symdesk/doctor.go:119-141 | the loop over the components decides as specified |
| ToolVersion.StrictWeakOrder | cmd/symdesk/doctor.go:119-141 | on versions that parse, newer is irreflexive and transitive, and not being ordered is an equivalence: the same components up to trailing zeros |
| ToolVersion.UnparsedUnordered | cmd/symdesk/doctor.go:116-127 | nothing is ordered against a version that does not parse |
| ToolVersion.TrailingZeros | cmd/symdesk/doctor.go:128-140 | appending a zero component to a plain version changes no comparison |

## Left out

- The HTTP transport, the keychain, file coordination and the ingest pipeline: a
  backend is a map of files, and each read and write has one of a few outcomes.
- Payload files of uploads: the bytes are in the queue file as well, despite the
  comment at Sources/SymDeskMobile/MobileOutbox.swift:42-44, so no entry depends
  on them.
- A change between the fetch and the write of one apply: the code does not
  exclude it, and the model treats the two as one step.
- Conflict siblings that replace an older sibling of the same note: the code
  allows it, so no theorem says that a sibling is kept for ever.
- Liveness of the queue: triggers can be lost at the end of a drain
  (`WriteRetries.TriggerLost`), so no theorem says that an entry is drained.
- WriteAdapters.ResolveFindsTarget: does not model how Go's `filepath.Join`
  cleans a path; paths are taken to be clean.
- Mermaid.Parse: takes the lines as segments. The header test, directions and the
  cutting of a line into arrows, labels and node shapes
  (Sources/SymDeskCore/MarkdownPreview.swift:600-720) are not modelled.
- The symbol and script tables of the typesetter: parameters.
- Transclusion and section extraction
  (Sources/SymDeskCore/MarkdownPreview.swift:256-324): they would only add easy
  members.
- SHA-256 is an injective constructor; Unicode case folding and diacritics are
  maps on characters; the recency decay is any function into the range from 0 to
  1.5; strings compare character by character.
- The order of a Swift dictionary or set: maps and sets have none here, so the
  order of equally good search results is not specified.
- Frontmatter.SplitFrontmatter: does not model how Swift counts a carriage return
  and a line feed as one character.
- BodyLens.GetPut: for files without carriage returns, for the same reason.
- BodyLens.PutGet: for files and bodies without carriage returns, for the same
  reason.
- BodyLens.PutGetFrameless: for bodies without carriage returns, for the same
  reason.
- NewNote.NewNoteReadsBack: for titles and bodies without carriage returns, for the
  same reason.
- NewNote.NewNoteHasNoTags: for titles and bodies without carriage returns, for the
  same reason.
- InlineAI.RebuiltKeepsFields: for texts without carriage returns, for the same
  reason, and for files on whose frontmatter writer and parser agree: where they
  do not, the text that is exchanged begins inside the parser's frontmatter.
- Facets, attachments, note scanning, snippets and the streaming providers of the
  inline assistant: they would only add easy members.
- The mutex of cmd/symdesk/events.go: the select loop unlocks it without a
  visible lock (cmd/symdesk/events.go:214-215); the map is used by that loop
  alone. Indexing and watching are left out with it.
- User interface code and the remaining commands: thin layers over services that
  are not part of this model.
