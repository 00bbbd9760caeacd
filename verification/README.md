# Verification of the workspace services

A Dafny model of the protocols and text pipelines of the workspace, with proofs. It
covers the material pipeline (processing, publication, delivery), the agent-run event
stream, the worker's job protocol, artifact publication, Agent Memory writes, and a few
compact checkers. `dafny verify dfyconfig.toml` checks everything.

SHA-256, case folding, JSON sizes and similar foreign functions are arbitrary functions
(`const` without a value): no result depends on what they compute. Object storage is a
map from keys to bytes. A database transaction is one step. A crash is a stop between two
steps. Clocks, replies and faults are parameters that may take any value.

## What is modelled

**Lease-fenced publication** (`Leases`, `Publication`, `Publisher`). A task row carries an
epoch, an owner, an expiry and an attempt budget. Staging intents bracket storage writes
that no transaction can undo. `Publication` is the protocol as a state machine over all
tasks and the database clock: claims, renewals, resets, preparations, each single storage
write or delete, the second lease check, the commit, cleanup passes, and aborts anywhere.
`Publisher` is the code: its methods are verified to be sequences of those steps. The
central facts are `LiveLeaseWasLiveThroughout` and that objects are deleted before their
intents. Crash safety of the staging holds for every run in which a completed task is
replayed with an output that is still staged or published; `CallIsCoveredIff` shows that
this condition is exact, and `MismatchedReplayLosesAnObject` is a run without it.

**Canonical text** (`Utf8`, `Decimal`, `Manifest`, `Pages`, `Archive`, `Segments`, `Evidence`,
`Delivery`, `Transcript`). What the document processor writes is checked against the
validators on the other side, which were written independently. The text is then cut into
segments, quoted as evidence with byte ranges, and delivered in pages found by binary
search. The size of a page is an arbitrary function, so nothing assumes that longer pages
are larger. The code's end-of-result continuation is shorter than the one in the middle,
so this matters.

**Event stream** (`SessionLog`, `Stream`, `Cursor`). The tail reads an append-only log in
pages while it grows, and shows a volatile overlay of the message being written.
`ClientView` states the whole contract with the client in terms of the log alone.
Assumption: session events become visible in sequence order.

**Worker** (`Outbox`, `Lifecycle`). The terminal outbox never acknowledges a job whose
waiters were not all woken. An attempt at a job is verified against an automaton over its
remote calls, under every placement of faults.

**Mutations** (`Artifacts`, `Memory`). Artifact publication with retries and crashes, and
hash-guarded file replacement under a lock.

**Compact checkers** (`ZipPlan`, `PatchPages`, `Recovery`).

Where the code does less than one might read into it, the model follows the code. Each such
case has an instance and an exact condition:

- Restarting from the cursor of a terminal event reads on behind it: `ResumeReadsOn`, `ResumeYieldsSuffixIff`.
- Revisions of one message can go back after another message was shown: `OlderRevisionAfterOtherMessage`, `RevisionsIncreaseIff`.
- A preview that grows between being measured and being copied is produced and then refused: `GrowingPreviewIsRefused`, `ProducedAcceptedIff`.
- A page with a side over 32 bits, or with more spans than are allowed, is built and then refused: `WidePageIsRefused`, `BuiltDocumentIff`.
- A search hit that fits no page takes the page of the hit before it with it: `OversizedHitHidesPrevious`, `MergingLosesNothingIff`.
- A delayed artifact call can delete an object that a retry has replaced and published: `LateDeleteLosesBytes`, `DeleteKeepsIntactIff`.
- A Memory write can report an error after it has taken effect: `FailureAfterInstall`, `AtomicWriteAt`.
- A replay that is no longer staged can leave an unknown object: `MismatchedReplayLosesAnObject`, `CallIsCoveredIff`.
- A read's line number can differ from the newline count: `SeparatorShiftsLine`, `ReadLineIff`.
- A plugin archive may hold a file named by a dot, an ancestor of every other entry: `DotFileIsAccepted`, `FilesAreLeavesIff`.

## Model

| member | source | states |
|---|---|---|
| Utf8.DecodePrefix | packages/api/app_core/transcript_output.py:29-36 | Any front of an encoded text decodes to its whole characters, or stops as cut off exactly where the split character starts, at most three bytes back. |
| Utf8.DecodeInside | packages/api/app_core/transcript_output.py:33-35 | Bytes taken from inside a character fail at once, and not as cut off. |
| Utf8.BoundaryIsPrefixEnd | packages/api/app_core/material_delivery.py:28-31 | An offset whose byte is no continuation byte is exactly the end of a whole front of the text. |
| Utf8.NewlinesOfText | packages/api/app_core/material_delivery.py:41-45 | Newlines counted in characters and in bytes agree. |
| Decimal.PrintValue | packages/api/app_core/runtime_client.py:571-579 | A canonical numeral is the printed form of its value, so equal values mean equal strings. |
| Manifest.ValidateManifest | packages/api/app_core/material_commit.py:214-284 | The loop, which compares each page only with the one before, accepts exactly the manifests whose every page slices the whole canonical text to its text and whose line numbers count newlines from the start. |
| Manifest.WritePage | packages/document_processor/document_processor.py:623-640 | One page is appended with the entry that locates it, exactly when its text and the canonical limit allow. |
| Manifest.WritePages | packages/document_processor/document_processor.py:617-646 | The page loop succeeds exactly when the finished text and manifest fit, and then has written them. |
| Manifest.WriteOutputs | packages/document_processor/document_processor.py:603-660 | The processor succeeds exactly when all budgets hold of the finished outputs, and returns exactly the canonical text, entries and sizes they describe. |
| Manifest.CopyPreview | packages/document_processor/document_processor.py:651-654 | Chunked copying succeeds exactly when the sum fits. |
| Manifest.EntriesAreLocated | packages/document_processor/document_processor.py:622-646 | Every entry written locates its page in the finished text, in bytes and in lines, whatever follows it. |
| Manifest.CanonicalDecodes | packages/document_processor/document_processor.py:618-633 | The canonical text is valid UTF-8. |
| Manifest.ProducedManifestIsValid | packages/api/app_core/material_commit.py:214-284 | For every well-formed page sequence the processor's manifest passes the validator against the processor's text. |
| Manifest.ValidPageMeans | packages/api/app_core/material_commit.py:246-280 | What acceptance says of a page: its number, the digest and size of the bytes it stands for, and spans that hold text and lie within the page. |
| Pages.OcrSpans | packages/document_processor/document_processor.py:259-282 | The loop keeps the detections with a text, clamped to the page, and refuses exactly a box that has become empty. |
| Pages.JoinText | packages/document_processor/document_processor.py:283-283 | The page text is the span texts with newlines between them. |
| Pages.JoinsAgree | packages/api/app_core/material_commit.py:277-277 | The producer and the validator join spans alike. |
| Pages.BuiltHolds | packages/document_processor/document_processor.py:198-216 | A page is refused exactly for a box without an area or a text over the limit; otherwise it holds the text of its source, with its digest and its route. |
| Pages.BuiltPageIff | packages/document_processor/document_processor.py:198-284 | A page the processor has built passes the validator's checks of header and spans exactly when its sides fit 32 bits and its spans are not too many. |
| Pages.BuiltDocumentIff | packages/api/app_core/material_commit.py:214-284 | The manifest of a processed document is valid against its canonical text exactly when all of its pages keep to those bounds. |
| Pages.WidePageIsRefused | packages/document_processor/document_processor.py:198-211 | A page wider than the validator allows is built all the same. |
| Archive.UnpackOutputs | packages/api/app_core/material_processor.py:38-69 | The member loop accepts exactly the archives with allowed, distinct members whose sizes and sum are in bounds. |
| Archive.MemberIff | packages/api/app_core/material_processor.py:49-62 | A member is the directory itself, or one of the four files within its own limit. |
| Archive.ProducedAcceptedIff | packages/api/app_core/material_commit.py:37-55 | A finished run passes `unpack_outputs`, in any stream with at most one MiB of archive overhead, and the commit validation exactly when its files fit the output budget together. |
| Archive.StablePreviewIsAccepted | packages/api/app_core/material_processor.py:47-66 | It does whenever the preview did not grow between being measured and being copied. |
| Archive.GrowingPreviewIsRefused | packages/document_processor/document_processor.py:604-654 | Whatever fits all the processor's limits with a workbook has, after its preview grew, an output that fits them too and that no stream brings past `unpack_outputs`. |
| Segments.CutWindow | packages/api/app_core/material_commit.py:173-185 | The backoff loop always finds a boundary before the window start and cuts the longest front that fits; its error branch is never taken. |
| Segments.CutSegments | packages/api/app_core/material_commit.py:168-211 | The loops return exactly the numbered non-blank pieces and never fail. |
| Segments.PiecesPartition | packages/api/app_core/material_commit.py:168-211 | The pieces of a page join to its text, have 1 to 32768 bytes, and all but the last are full to within three bytes. |
| Segments.AllPiecesLocate | packages/api/app_core/material_commit.py:196-209 | Every piece of a validated manifest, blank or not, is located exactly, on character boundaries, with line numbers counting all newlines before it. |
| Segments.SegmentsAreExact | packages/api/app_core/material_commit.py:186-211 | Segments have contiguous ordinals, are never blank, are located exactly, and every non-blank piece has one. |
| Evidence.ReadEvidence | packages/api/app_core/material_evidence.py:20-87 | A read returns exactly the requested lines, its byte range selects exactly its content in the canonical text, its locator and window agree, and it continues exactly when lines remain. |
| Evidence.ReadLineIff | packages/api/app_core/material_evidence.py:115-124 | The read's line number is the newline count before it exactly when every earlier line is ended by a newline and not by another separator. |
| Evidence.SeparatorShiftsLine | packages/api/app_core/material_evidence.py:115-124 | A read of the line after a line separator says line 2 where no newline comes before it. |
| Evidence.ReadingOnRebuilds | packages/api/app_core/material_evidence.py:40-65 | Reads that each start at the next offset of the one before rebuild the text for every window size, in at most one read per line. |
| Evidence.LinesJoin | packages/api/app_core/material_evidence.py:21-21 | Lines with their terminators join to the text, and a line holds a newline only at its end. |
| Evidence.SplitIsLines | packages/api/app_core/material_evidence.py:21-21 | No character of a line before its terminator ends a line, every line but the last is terminated, and CR LF is never divided. |
| Evidence.LinesAreUnique | packages/api/app_core/material_evidence.py:21-21 | A list of texts with these properties is what its join is split into. |
| Evidence.PageSpan | packages/api/app_core/material_evidence.py:137-144 | The pages reported are the least and the greatest that the byte range meets, or none when it meets none. |
| Evidence.OverlapIff | packages/api/app_core/material_evidence.py:137-144 | A page meets a range exactly when they share a byte, or, if it is empty, when it lies inside. |
| Evidence.HitsCite | packages/api/app_core/material_evidence.py:90-112 | Every search hit on a validated representation cites its segment: its range selects what it shows, its lines count newlines, and it shows the whole segment or the longest front within the snippet limit. |
| Evidence.BoundedPrefix | packages/api/app_core/material_evidence.py:127-134 | The loop returns the longest front of the text within the byte limit. |
| Delivery.CursorRoundTrip | packages/api/app_core/material_delivery.py:13-15 | A printed cursor is read back exactly when both numbers fit the cursor format. |
| Delivery.SinglePage | packages/api/app_core/material_delivery.py:12-94 | The binary search computes the specified page or refusal at every cursor; neither slice it decodes can fail. |
| Delivery.SearchIsMaximal | packages/api/app_core/material_delivery.py:82-88 | The search ends where what it keeps fits and one character more does not, for any page size function. |
| Delivery.PageIsMaximal | packages/api/app_core/material_delivery.py:82-94 | A returned page fits the budget, holds the text right after its cursor and could not hold one more character; it is refused exactly when no first character fits. |
| Delivery.PieceCites | packages/api/app_core/material_delivery.py:33-58 | A piece of located evidence is located: its range selects it, its first line counts newlines, its last line is that of its last byte. |
| Delivery.PieceFields | packages/api/app_core/material_delivery.py:53-70 | The fields a read result repeats agree with the piece; it is marked truncated exactly when it continues, and the next read's offset appears only on the last piece. |
| Delivery.PageDescribesPiece | packages/api/app_core/material_delivery.py:33-80 | What a page says of its piece: identity, whether it may be cited, which bytes, pages and lines it shows, and where to go on, after the last value to the next read if there is one. |
| Delivery.EmptyResult | packages/api/app_core/material_delivery.py:18-23 | A result without values has one page, with nothing on it and nothing after it. |
| Delivery.CallMovesOn | packages/api/app_core/material_delivery.py:59-65 | Along the printed cursors the values left, then the bytes left, decrease; so following them ends. |
| Delivery.FollowingRebuilds | packages/api/app_core/material_delivery.py:12-94 | The pieces of a walk, joined in the order of delivery, are a front of the rest of the current value followed by the later values; all of it when the walk ends without refusal. |
| Delivery.EachValueRebuilds | packages/api/app_core/material_delivery.py:12-94 | The pieces of each single value are a front of it, and all of it when the walk ends without refusal. |
| Delivery.OnlyBudgetStops | packages/api/app_core/material_delivery.py:13-15 | Within the cursor limits only an unfittable page can stop a walk. |
| Delivery.FollowedPiecesCite | packages/api/app_core/material_delivery.py:33-58 | Every piece of a whole walk cites the text its value came from. |
| Delivery.RenderPage | packages/api/app_core/material_delivery.py:97-121 | The merging loop returns the specified merged page, or the refusal met while looking ahead. |
| Delivery.RenderedFits | packages/api/app_core/material_delivery.py:110-120 | Merged pages fit the budget too. |
| Delivery.RenderedTakesNoMore | packages/api/app_core/material_delivery.py:102-120 | A page of search hits ends inside a hit, at the last hit, or where adding the next hit would not fit. |
| Delivery.MergedWalkIsFront | packages/api/app_core/material_delivery.py:97-121 | Following merged pages fails exactly when following single pages does, for the same reason, and collects a front of their items, all of them when nothing is refused. |
| Delivery.MergingLosesNothingIff | packages/api/app_core/material_delivery.py:102-121 | Merged pages deliver all that single pages deliver if and only if the single-page walk is not refused at the start of a hit; a refusal inside a hit loses nothing. |
| Delivery.OversizedHitHidesPrevious | packages/api/app_core/material_delivery.py:110-110 | When the page ending one hit is ready and the next hit has no page, single pages deliver the first and merged pages deliver nothing. |
| Transcript.JoinChunks | packages/api/app_core/transcript_output.py:16-27 | Missing chunks are reported before damaged ones; otherwise the checked chunks are joined. |
| Transcript.IntactIff | packages/api/app_core/transcript_output.py:20-27 | A chunk is used exactly when its digest is that of its bytes and they reach to the next chunk or to the end of the capture. |
| Transcript.ReadOutputRange | packages/api/app_core/transcript_output.py:8-36 | Every refusal has its exact condition; on a capture of a text the read succeeds exactly where a character starts and returns the flat text's page. |
| Transcript.PageAdvances | packages/api/app_core/transcript_output.py:15-36 | A page is the flat slice from its offset to a boundary at most three bytes short of the window, and moves on before the end. |
| Transcript.ReadingRebuilds | packages/api/app_core/transcript_output.py:8-36 | Reading on from zero rebuilds the whole text. |
| Leases.TaskRow.constructor | packages/api/app_core/models.py:2242-2255 | A new row has no lease and no attempt. |
| Leases.TaskRow.Claim | packages/api/app_core/material_leases.py:48-68 | The whole new row and the reply; a granted lease is live, and the row invariant is kept. |
| Leases.TaskRow.Check | packages/api/app_core/material_leases.py:71-78 | Passes exactly for the row's owner and epoch while running and unexpired, or on a completed row for a replay. |
| Leases.TaskRow.Renew | packages/api/app_core/material_leases.py:89-95 | Renews exactly a live lease, which stays live. |
| Leases.TaskRow.Reset | packages/api/app_core/material_processor.py:176-186 | Resets exactly under a live lease; otherwise nothing changes. |
| Leases.ChangeKeepsRowInv | packages/api/app_core/material_leases.py:48-95 | The epoch equals the attempt count, never exceeds three, whoever runs or completed is named, and a waiting or failed task carries no expiry. |
| Leases.TerminalIsAbsorbing | packages/api/app_core/material_leases.py:52-53 | No claim, renewal, reset or completion changes a completed or failed row. |
| Leases.OnlyLiveLeaseCompletes | packages/api/app_core/platform_material_commit.py:32-38 | A row becomes completed only by a publication under its current, unexpired lease. |
| Leases.LiveWasLive | packages/api/app_core/material_leases.py:71-78 | An issued lease that is live after a change was live before it. |
| Leases.ClaimTakesOver | packages/api/app_core/material_leases.py:48-68 | A claim is granted the next epoch, or fails the task when its attempts are used up, exactly on a task that is not over and that no lease protects; otherwise it changes nothing. |
| Leases.ClaimsRunOut | packages/api/app_core/material_leases.py:52-61 | If every worker dies, claiming the task again and again ends it, after one claim more than it has attempts left. |
| Leases.LeaseLasts | packages/api/app_core/material_leases.py:62-95 | A granted or renewed lease is live until its seconds are over, and no longer. |
| Leases.ResetIsClaimable | packages/api/app_core/material_processor.py:176-186 | A reset task is claimable at once and has lost no attempt. |
| Leases.CompletedAnswers | packages/api/app_core/material_leases.py:71-78 | A completed task passes replays of the lease that completed it, for ever, and nothing else. |
| Leases.OneLeasePasses | packages/api/app_core/material_leases.py:71-78 | At most one lease of a task passes the check in any state. |
| Publication.KeyPathIsInjective | packages/api/app_core/material_staging.py:13-18 | Different tasks, digests or kinds never share a storage key. |
| Publication.StepKeepsInv | packages/api/app_core/platform_material_commit.py:19-44 | Every protocol step keeps the invariant: published objects hold their exact bytes, prepared outputs of a live lease are staged, epochs count attempts. |
| Publication.EveryRunKeepsInv | packages/api/app_core/platform_material_commit.py:19-44 | So does every run over any number of tasks, with any interleaving, crashes and clock steps. |
| Publication.CallIsCoveredIff | packages/api/app_core/material_commit.py:76-165 | A publication call leaves no unknown object behind, wherever it fails, if and only if its output is staged or published when it takes the lock. |
| Publication.CallIsStaged | packages/api/app_core/platform_material_commit.py:23-31 | That is so for every call under a running lease and for every replay of the published output. |
| Publication.EveryGuardedRunIsCovered | packages/api/app_core/material_staging.py:12-51 | Over every guarded run each stored object is named by a staging intent or published. |
| Publication.PublishedReplaysAreCovered | packages/api/app_core/platform_material_commit.py:19-44 | A run whose replays on completed tasks carry the published output is guarded, so each stored object in it stays known. |
| Publication.UnstagedSaveIsLost | packages/api/app_core/material_storage.py:27-28 | Without that condition a crash after one write leaves an object nobody knows. |
| Publication.MismatchedReplayLosesAnObject | packages/api/app_core/platform_material_commit.py:23-29 | Such a run exists from the empty state: a replay with a new preview, a cleanup between preparation and lock, a crash. |
| Publication.TerminalRowsStay | packages/api/app_core/material_leases.py:48-95 | No run changes a completed or failed row. |
| Publication.CompletedAtMostOnce | packages/api/app_core/platform_material_commit.py:36-38 | In every run a task is completed at most once, and never after it failed. |
| Publication.CompletionIsFenced | packages/api/app_core/platform_material_commit.py:32-39 | The completing step is a commit whose lease is current and was unexpired at the second check. |
| Publication.LiveLeaseWasLiveThroughout | packages/api/app_core/material_leases.py:71-78 | A lease live at the end of a run was live at its start. |
| Publication.DeadLeasesStayDead | packages/api/app_core/material_leases.py:71-86 | Once superseded, reset or expired, a lease never passes again, not even as a replay and not even for the same owner. |
| Publication.NoTaskIsStuck | packages/api/app_core/material_leases.py:48-68 | In every state of every run a task that is not over and that no lease protects can be claimed, or is failed by the claim. |
| Publisher.StageAll | packages/api/app_core/material_staging.py:19-25 | All intents of an output are recorded, or none when one conflicts. |
| Publisher.MaterialTask.PrepareStaging | packages/api/app_core/material_staging.py:12-27 | Succeeds exactly when the preparation step is possible, and is that step. |
| Publisher.MaterialTask.RecoverForPublication | packages/api/app_core/material_staging.py:30-49 | Afterwards every unpublished staged object in storage is whole; nothing whole, published or unstaged was removed; exactly the unpublished intents are left to be kept. |
| Publisher.MaterialTask.DiscardStaged | packages/api/app_core/material_staging.py:30-51 | Deletes exactly the unpublished staged objects, each before its intent. |
| Publisher.MaterialTask.DiscardOne | packages/api/app_core/material_staging.py:39-51 | One intent is dropped, and its object is deleted first exactly when nothing published refers to it. |
| Publisher.MaterialTask.CleanupExpired | packages/api/app_core/material_processor.py:143-147 | Runs exactly on tasks with intents that no lease protects; afterwards no unpublished staged object is left and nothing else was touched; a rolled back pass keeps the intents of what it deleted. |
| Publisher.MaterialTask.StoreStream | packages/api/app_core/material_storage.py:22-84 | Stores exactly when the part arrives whole with its digest; an object that was there is never changed; a failed check removes what was written. |
| Publisher.MaterialTask.StoreExtras | packages/api/app_core/material_commit.py:85-102 | The preview and workbook uploads succeed exactly when the stream carries them whole. |
| Publisher.MaterialTask.StoreParts | packages/api/app_core/material_commit.py:76-104 | Succeeds exactly when the stream carries all parts and nothing more, and then every object holds its declared bytes. |
| Publisher.MaterialTask.RollBack | packages/api/app_core/material_commit.py:162-165 | Removes exactly what this call created. |
| Publisher.MaterialTask.Publish | packages/api/app_core/platform_material_commit.py:24-44 | One publication under the lock, a sequence of protocol steps on every path. |
| Publisher.MaterialTask.CommitBoundMaterial | packages/api/app_core/material_commit.py:58-165 | Commits exactly when the stream, the workbook, the manifest, an existing representation and the second check agree. |
| Publisher.MaterialTask.CommitProcessingOutput | packages/api/app_core/platform_material_commit.py:19-44 | Accepts exactly when validation, both fences, the task's source and the stream allow; then the task is completed with the output published. A whole output is accepted whatever earlier calls left under its staged keys, and again as a replay. |
| Publisher.MaterialTask.PrepareAgain | packages/api/app_core/material_staging.py:19-25 | Preparing is possible whenever nothing else is staged under the output's keys, and stays possible for the same output. |
| SessionLog.BetweenStable | packages/api/app_core/agent_run_stream.py:242-258 | Growth of the log never changes what lies at or below a cursor already handed out. |
| SessionLog.ProjectedSplit | packages/api/app_core/agent_run_stream.py:242-258 | Moving the cursor to an event splits what is owed exactly there. |
| SessionLog.ResumeYieldsSuffixIff | packages/api/app_core/agent_run_stream.py:353-388 | Restarting from an emitted cursor yields exactly the remaining suffix if and only if the event was not terminal or nothing follows it. |
| SessionLog.ResumeReadsOn | packages/api/app_core/agent_run_stream.py:353-388 | A log with an event after the terminal one, where the restart delivers that event. |
| Stream.GrowthKeepsInv | packages/api/app_core/agent_run_stream.py:353-388 | Nothing already sent is invalidated by the log growing. |
| Stream.OverlayKeepsInv | packages/api/app_core/agent_run_stream.py:417-431 | Showing an overlay that passed the checks keeps the client contract: nothing at or below the cursor supersedes it, and revisions increase. |
| Stream.FreshIsShown | packages/api/app_core/agent_run_stream.py:391-431 | A candidate that no committed event supersedes, newer than the overlay shown last if that is of the same message, is shown. |
| Stream.ConsistentIff | packages/api/app_core/agent_run_stream.py:313-326 | A candidate's message id conflicts exactly when it was committed twice or in another turn. |
| Stream.RevisionsOfOneMessage | packages/api/app_core/agent_run_stream.py:417-423 | While no other message is shown in between, the revisions a client sees of a message strictly increase. |
| Stream.RevisionsIncreaseIff | packages/api/app_core/agent_run_stream.py:417-423 | Whatever is shown next of a message is newer than all shown of it if and only if the tail still holds that message at the highest revision shown, or can show nothing more of it. |
| Stream.OlderRevisionAfterOtherMessage | packages/api/app_core/agent_run_stream.py:391-431 | A run of the tail that sends a message at revision 2, another message, and the first message again at revision 1. |
| Stream.FrontIsComplete | packages/api/app_core/agent_run_stream.py:353-388 | A client that received only a front of what was sent has every committed event up to its own cursor. |
| Stream.ReconnectingLosesNothing | packages/api/app_core/agent_run_stream.py:353-388 | Over any number of connections, broken anywhere and resumed at the last cursor received, while the log grows, the client has each projected event from its first cursor to its last once and in order. |
| Stream.TerminalAtIff | packages/api/app_core/agent_run_stream.py:261-279 | The stream ends at or below a cursor exactly when a terminal event of the run is there, or when it has none and was never admitted. |
| Stream.TerminalDelivery | packages/api/app_core/agent_run_stream.py:379-381 | At a terminal event the delivery is complete whatever follows in the log. |
| Stream.ShortPageDelivery | packages/api/app_core/agent_run_stream.py:382-388 | After a short page everything owed has been delivered. |
| Stream.TailStream.constructor | packages/api/app_core/agent_run_stream.py:434-444 | A new tail satisfies the contract at its start cursor. |
| Stream.TailStream.DeliverOne | packages/api/app_core/agent_run_stream.py:360-381 | One committed event: its whole effect on the tail, with the contract kept. |
| Stream.TailStream.DeliverPage | packages/api/app_core/agent_run_stream.py:359-381 | A page is delivered up to its first malformed or terminal event; what is owed afterwards is exactly the rest. |
| Stream.TailStream.DrainPostgres | packages/api/app_core/agent_run_stream.py:353-388 | However the log grows between pages, a finished drain has sent exactly the projected events above the start cursor, in order, up to the first terminal one; it breaks only on an event of the run that is not well formed, and goes on only after full pages. |
| Stream.TailStream.LookUp | packages/api/app_core/agent_run_stream.py:295-327 | The two queries note the last barrier and any seal of a message, including those before the resume point, or report a conflict. |
| Stream.TailStream.StreamLiveCandidate | packages/api/app_core/agent_run_stream.py:391-431 | From the tail that has caught up with the candidate, by a drain if needed, the overlay is shown exactly when nothing committed supersedes it and its revision is new; the whole new tail and the exact error condition. |
| Stream.TailStream.ShowCandidate | packages/api/app_core/agent_run_stream.py:400-431 | The tests after catching up: shown exactly when all pass, an error exactly when a needed lookup finds a conflicting identity. |
| Stream.TailStream.StreamItems | packages/api/app_core/agent_run_stream.py:527-654 | Over any succession of drains and candidates the client's items satisfy the whole contract, and nothing follows a terminal event; the loop goes on until the run ends, and fails only for an event that is not well formed, a log that outruns its views, or a candidate ahead of the log or with a conflicting id. |
| Cursor.ParserIsExact | packages/api/app_core/agent_run_stream.py:70-123 | The parser accepts the two zero forms and this run's printed cursors within 512 characters, with their sequence, and nothing else; for every JSON reader that reads back what was printed. |
| Cursor.CursorIsUnambiguous | packages/api/app_core/agent_run_stream.py:70-89 | No cursor stands for two sequences or two runs. |
| Cursor.Unbase64Base64 | packages/api/app_core/agent_run_stream.py:89-103 | Unpadded base64url decodes to what was encoded. |
| Cursor.ReadQuoted | packages/api/app_core/agent_run_stream.py:79-88 | A JSON string with its escapes reads back as the run identifier, whatever follows it. |
| Cursor.EscapedIff | packages/api/app_core/agent_run_stream.py:79-88 | Only quotes, backslashes and control characters are escaped. |
| Cursor.LoadsDumps | packages/api/app_core/agent_run_stream.py:79-104 | The compact payload reads back member for member. |
| Outbox.PageNextIff | packages/worker/worker.py:662-681 | Exactly the replies that can be true are accepted, and what is taken from one is its own continuation. |
| Outbox.ValidEventIff | packages/worker/worker.py:699-710 | Exactly the unpublished terminal events of a proper job identifier and generation are served. |
| Outbox.InvalidStops | packages/worker/worker.py:699-710 | Any other event stops the round before a call is made for it. |
| Outbox.ServedByReply | packages/worker/worker.py:711-744 | For every reply: the wake call is made, a publish request follows exactly on a genuine reply without a continuation, and the cursor kept is the reply's continuation. |
| Outbox.ServeKeepsInv | packages/worker/worker.py:699-744 | Serving one event, with any replies, never publishes before the replies say that no page is left, and keeps every retained cursor backed by genuine replies. |
| Outbox.TerminalDispatcher.constructor | packages/worker/worker.py:684-686 | A new dispatcher knows no cursor. |
| Outbox.TerminalDispatcher.Prune | packages/worker/worker.py:745-748 | Exactly the cursors of events no longer pending are dropped. |
| Outbox.TerminalDispatcher.DispatchOnce | packages/worker/worker.py:692-749 | A round makes exactly the specified calls and leaves exactly the specified cursors, also when it stops at an exception. |
| Outbox.RoundServesAll | packages/worker/worker.py:692-749 | A round without an exception has made one wake call per pending event, in order, and keeps exactly the continuation of each key's last reply and nothing for other keys. |
| Outbox.RoundCompletes | packages/worker/worker.py:692-749 | A round raises nothing when its events are proper and its replies genuine. |
| Outbox.RaisingKeepsCursors | packages/worker/worker.py:692-744 | A round that ends in an exception loses no cursor but those of keys it published. |
| Outbox.EveryRunDelivers | packages/worker/worker.py:684-749 | Over every run of rounds, exceptions, lost cursors and restarts no key is published before replies that lead from the first page to the end. |
| Outbox.FanOutAdvances | packages/worker/worker.py:711-744 | Successive rounds with genuine replies continue where the last one stopped, and a key is published exactly in the round whose reply has no next page. |
| Outbox.PublishedChain | packages/worker/worker.py:722-737 | Before each publish request there are wake calls of the same job and generation with genuine replies, each continuing the last, from null to null. |
| Outbox.ReachedChain | packages/worker/worker.py:711-724 | Each retained cursor is the end of such a chain. |
| Outbox.NoWaiterSkipped | packages/worker/worker.py:662-681 | Whatever order waiters are paged in, some call of a complete chain spans the place of every waiter. |
| Outbox.ChainDoesWork | packages/worker/worker.py:675-678 | Such a chain is no longer than the waiters its replies say were checked, plus one. |
| Lifecycle.Attempt.RaiseIfCancelled | packages/worker/worker.py:280-293 | Any other exception is raised again without a call; after a rejection exactly one lookup is made, and its reply decides what is raised. |
| Lifecycle.Attempt.SendForJob | packages/worker/worker.py:232-277 | Start, complete and yield are acknowledged or leave the attempt broken. |
| Lifecycle.Attempt.FinishLifecycle | packages/worker/worker.py:488-511 | Terminal transition, teardown and completion in this order, or an exception before the job is settled. |
| Lifecycle.Attempt.YieldAfter | packages/worker/worker.py:457-480 | Running transition, a lease check, then a yield due exactly at the later of the clock reading and the runtime's deadline, or a fixed pause after the reading. |
| Lifecycle.Attempt.ExecuteLifecycle | packages/worker/worker.py:390-485 | Returns normally exactly with the job completed or yielded; raises what a call or lease check has thrown; steps, yields and closes only right after a lease check. |
| Lifecycle.Attempt.FailClaimed | packages/worker/worker.py:296-335 | Reports the failure first; only an acknowledged last try moves the run to failed. |
| Lifecycle.Attempt.Execute | packages/worker/worker.py:608-648 | Under every placement of faults the calls stay within the automaton; the ending tells which state the job was left in. A failure is reported exactly when there is one to report, as the exception raised, and as worth another try exactly when it is; while retries are left an outage never fails the run. |
| Lifecycle.Attempt.Handle | packages/worker/worker.py:618-648 | Which exception leads to which report, to silence, or to a stop. |
| Lifecycle.TriesAllowed | packages/worker/worker.py:308-325 | A job is tried once more than its retries allow; only a failure not worth another try ends it earlier. |
| Lifecycle.AcceptedMeans | packages/worker/worker.py:296-388 | What an accepted reply confirms: the state asked for, another try exactly while one is left, a known state or reason to wait. |
| Lifecycle.DoesAsAsked | packages/worker/worker.py:390-511 | A run is closed in the state that was reported for it; a job is yielded for the reason and the deadline its step returned. |
| Lifecycle.SettledOnce | packages/worker/worker.py:608-648 | At most one of complete, yield and fail is acknowledged. |
| Lifecycle.NothingAfterDone | packages/worker/worker.py:608-648 | Nothing is sent after an acknowledged complete or yield. |
| Lifecycle.FailedOnlyAfterReport | packages/worker/worker.py:326-335 | The transition to failed directly follows an acknowledged terminal failure report. |
| Lifecycle.ShapeOfAttempt | packages/worker/worker.py:390-511 | A finished attempt made exactly the calls of one of four paths. |
| Lifecycle.FinishedIsAcknowledged | packages/worker/worker.py:390-511 | Each call of a finished attempt was acknowledged. |
| Artifacts.StepKeepsInv | packages/api/app_core/artifact_publish.py:113-166 | Every step of every call keeps: one artifact per run and folded file name, publications bound to it with its bytes, one library link per published artifact, truthful responses. |
| Artifacts.EveryRunKeepsInv | packages/api/app_core/artifact_publish.py:113-166 | So does every run of calls, retries and crashes, and no identity ever changes. |
| Artifacts.ResponsesAgree | packages/api/app_core/artifact_publish.py:187-196 | All successful responses for one publication are equal. |
| Artifacts.OneArtifactPerName | packages/api/app_core/artifact_publish.py:336-349 | Publications of one run whose names differ at most in case share one artifact and its bytes. |
| Artifacts.SameRequestIff | packages/api/app_core/artifact_publish.py:389-407 | A retry is accepted exactly when it repeats the whole request that made the publication. |
| Artifacts.CarefulStepKeepsIntact | packages/api/app_core/artifact_publish.py:121-141 | Published artifacts and library copies keep their bytes through every step except a delete of an object that is no longer bad. |
| Artifacts.DeleteKeepsIntactIff | packages/api/app_core/artifact_publish.py:135-141 | A delete is harmless if and only if the object is still bad or nothing relies on it. |
| Artifacts.EveryCarefulRunIsIntact | packages/api/app_core/artifact_publish.py:113-166 | Over runs whose deletes find their object still bad, nothing published is ever lost. |
| Artifacts.LateDeleteLosesBytes | packages/api/app_core/artifact_publish.py:135-141 | Without that care a delayed call deletes what a retry has published. |
| Artifacts.ArtifactStore.VerifyStoredObject | packages/api/app_core/artifact_publish.py:441-453 | Block-wise verification accepts exactly the declared bytes within the size limit. |
| Artifacts.ArtifactStore.FindArtifact | packages/api/app_core/artifact_publish.py:336-347 | Finds an artifact of the same run and folded name exactly when there is one. |
| Artifacts.ArtifactStore.PreparePublication | packages/api/app_core/artifact_publish.py:319-386 | Accepts exactly consistent requests, and is then the preparation step; otherwise nothing changes. |
| Artifacts.ArtifactStore.StoreObject | packages/api/app_core/artifact_publish.py:121-134 | An existing object is never overwritten; success means the object holds the declared bytes. |
| Artifacts.ArtifactStore.IngestLibraryCopy | packages/api/app_core/artifact_publish.py:56-110 | At most one copy and link per artifact; an existing link is left alone. |
| Artifacts.ArtifactStore.CommitPublication | packages/api/app_core/artifact_publish.py:143-166 | The closing transaction publishes artifact and publication together with the library copy, or changes nothing; it goes through exactly when a publication found published still has its bytes, and otherwise when the artifact is published or can be copied. |
| Artifacts.ArtifactStore.Discard | packages/api/app_core/artifact_publish.py:135-141 | The exception path deletes only objects without the declared bytes. |
| Artifacts.ArtifactStore.PublishArtifact | packages/api/app_core/artifact_publish.py:113-166 | A whole call is a run of the protocol; the exact success condition of a new file, of a new publication joining an artifact of the same name, and of a replay. |
| Memory.StepKeepsInv | packages/hosted_execution/src/memory.rs:233-367 | Every system call of every writer, successful or not, keeps mutual exclusion and the chain of replacements. |
| Memory.WritesFormAChain | packages/hosted_execution/src/memory.rs:233-367 | Under every interleaving and fault each install replaced exactly the content whose hash it was given; a conflict installed nothing, a success exactly once. |
| Memory.ContentIsWhole | packages/hosted_execution/src/memory.rs:345-367 | Every visible content is initial or one whole value passed to a write. |
| Memory.NextSeesPrevious | packages/hosted_execution/src/memory.rs:283-297 | Of two successive installs of a file the second had observed the first. |
| Memory.FailureAfterInstall | packages/hosted_execution/src/memory.rs:357-366 | A write that reports an error may have installed its content. |
| Memory.MemoryStore.InstallAtomic | packages/hosted_execution/src/memory.rs:345-367 | The file changes exactly when write, sync and rename succeed; the temporary file remains only if its removal failed; the calls are steps of the protocol. |
| Memory.MemoryStore.Replace | packages/hosted_execution/src/memory.rs:298-343 | After the guards: what is reached, what has changed and which outcome is reported. |
| Memory.StepAgrees | packages/hosted_execution/src/memory.rs:233-367 | What a writer does and sees depends only on the files, the lock and its own state. |
| Memory.OthersAgree | packages/hosted_execution/src/memory.rs:233-367 | No step of another writer is visible to a writer in its critical section. |
| Memory.CompanyIsInvisible | packages/hosted_execution/src/memory.rs:233-367 | So from its lock to its unlock a writer's own steps are a run, and lead to the same files and outcome, without the others. |
| Memory.MemoryStore.CreateTemporary | packages/hosted_execution/src/memory.rs:299-323 | Finds a free name among sixteen exactly when there is one and creation works. |
| Memory.MemoryStore.AtomicWriteAt | packages/hosted_execution/src/memory.rs:233-343 | A write is a run of one writer's steps. The file changes exactly when both guards pass and every call through the rename works; a failed write has changed it exactly when only the directory sync or the unlock failed; conflicts have their exact condition. |
| ZipPlan.PartsOfName | packages/api/app_core/plugin_install_source.py:175-180 | A path is what its own name is read as. |
| ZipPlan.EntryOfName | packages/api/app_core/plugin_install_source.py:162-190 | Every path is reached under its own name, as a directory with a slash appended, exactly when the name and its parts pass the tests. |
| ZipPlan.NamesAreFaithful | packages/api/app_core/plugin_install_source.py:129-147 | Comparing path names as strings decides equality of paths, and ancestry except for the path named by a dot. |
| ZipPlan.EnterNames | packages/api/app_core/plugin_install_source.py:133-140 | The inner loop succeeds exactly when the folded names stay apart and no ancestor is a file, and then the table holds them all. |
| ZipPlan.ValidatedEntries | packages/api/app_core/plugin_install_source.py:119-190 | For every list of archive entries: accepts exactly those that satisfy the order-free condition, unchanged, and calls too large exactly those whose first unacceptable entry is so for its size alone. |
| ZipPlan.OrderDoesNotMatter | packages/api/app_core/plugin_install_source.py:119-159 | That condition, and so acceptance, is invariant under permutation of the archive's entries. |
| ZipPlan.FilesAreLeavesIff | packages/api/app_core/plugin_install_source.py:133-148 | In an accepted list no file is an ancestor of another entry if and only if a file named by a dot stands alone. |
| ZipPlan.DotFileIsAccepted | packages/api/app_core/plugin_install_source.py:172-180 | A file named by a dot and a file `a` are accepted together, though the one is an ancestor of the other. |
| PatchPages.PositionsCompare | packages/api/app_core/runtime_client.py:571-579 | String equality and numeric equality of canonical positions coincide. |
| PatchPages.PositionIff | packages/api/app_core/runtime_client.py:571-579 | The positions are exactly the printed numbers of 64 bits. |
| PatchPages.ValidPatchContent | packages/api/app_core/runtime_client.py:621-652 | The loop with its mixed comparisons accepts exactly the pages that climb strictly from `after` within `through`. |
| PatchPages.PagesClimb | packages/api/app_core/runtime_client.py:621-678 | Across accepted pages positions climb strictly within `(after, through]`, the pages are finitely many, and the last reports no more exactly at `through`. |
| Recovery.QuotientTruncates | packages/runtime_server/src/execution_recovery_schedule.rs:30-37 | Signed division truncates towards zero. |
| Recovery.DelayRange | packages/runtime_server/src/execution_recovery_schedule.rs:30-37 | The jitter is exact and moves the delay by at most a fifth of the base. |
| Recovery.DeadlineIff | packages/runtime_server/src/execution_recovery_schedule.rs:21-38 | There is a deadline exactly while the budget lasts and the clock can hold it, one delay after the anchor. |
| Recovery.DelaysGrow | packages/runtime_server/src/execution_recovery_schedule.rs:30-37 | Up to the cap the next delay is longer whatever the digests say. |
| Recovery.DeadlinesAdvance | packages/runtime_server/src/execution_recovery_schedule.rs:21-38 | Along reservations made no earlier than their deadlines the deadlines increase and number at most the budget. |

## Left out

- Authorization, connectors and credentials; how `resolve_task_source` and `_validate_workbook_preview` decide: their verdicts are arbitrary.
- Shape checks of JSON objects (`set(...) != {...}`, type tests): a value of the wrong shape is a separate constructor or an absent value.
- Tar, ZIP and PDF decoding, OCR, containers, Redis, SSE timing and HTTP: only the values they hand over.
- Garbage collection of deleted owners, trash expiry and restore: they remove published objects by design.
- Representations without staged keys: `commit_bound_material` is modelled with the storage keys its only staged caller passes.
- Evidence.ReadEvidence: models the full-window mode only, the one the tools call; the byte-limited mode of `read_evidence` has no caller outside tests.
- The bound on the number of entries of a plugin archive, and its extraction.
- Reading from a memory path and the URI syntax of Agent Memory: one-step facts about strings.
- Deletes made by a live process whose row lock was lost (the exception path of `commit_bound_material` after a broken database connection): `Undo` and `RollBack` hold the lock.
- A power failure that undoes a rename whose directory was not synced: processes die, the machine does not.
- Heartbeats of a worker's lease: a lease check raises whatever a heartbeat may have raised; the calls heartbeats make are not recorded.
- Later changes to artifacts and library objects (failure, deletion, restore).
- Concurrent partial writes inside one storage save: a save is one step, except in material publication where any front of the bytes may remain.
- The kind comparison at packages/api/app_core/plugin_install_source.py:141-144 can never fail, because names are distinct by then; `TablesDecide` proves this and the loop omits it.
- Cursor.Loads: reads only the exact printed form; `ParserIsExact` is stated for any JSON reader that reads back what was printed.
- PatchPages.ValidPatchContent: sizes, block contents and removals are one flag per patch and page.
- Recovery.DelayRange: the digest is any number, so nothing is said about how jitter is distributed.
- Stream.TailStream.StreamItems: any order of drains and candidates is allowed, so nothing is said about how soon an event is sent.
