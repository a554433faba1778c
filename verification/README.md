# Verification of the H100 portal's core logic

This project models the state machines and algorithms of the H100 portal in Dafny and proves what they are for.
Operations are pure functions over values where the portal computes, and classes with mutable fields, arrays and
loops where it updates in place. Each such method is proved to follow its function, so that the theorems about the
functions hold for the methods.

| area | files | what is modelled |
|---|---|---|
| Web terminal | `TerminalModel`, `TerminalRuns`, `TerminalScrollback`, `TerminalAlternate`, `TerminalLayout`, `TerminalLines`, `TerminalEditing`, `TerminalSequences`, `TerminalEffects`, `TerminalRendering`, `TerminalScreen` | the escape-sequence parser, the grid, the bounded scrollback, the alternate screen and rendering; `TerminalScreen` has rows as heap objects edited in place |
| Compute leases | `LeaseModel`, `LeaseInvariant`, `LeaseRuns`, `LeaseHistory`, `LeaseViews`, `LeaseRenewals`, `LeaseTerms`, `LeaseRecords`, `LeaseOutcomes`, `LeaseGuarantees`, `LeaseLimits`, `LeaseLiveness`, `LeaseBatches`, `LeaseStarvation`, `LeaseExamples`, `LeaseService` | leases, renewals, lazy and eager activation, expiry scans and their batches, cleanup with retries, the recycle bin, operator recovery, over every run |
| GPU upgrade | `GpuUpgrade`, `GpuUpgradeProofs`, `GpuUpgradeReplies`, `GpuUpgradeEvidence`, `GpuUpgradeTraces`, `GpuUpgradeSession` | the batch upgrade of all containers and its compensation, against arbitrary Worker replies |
| Failed provisioning | `ProvisionReconciliation`, `ProvisionBindings`, `ProvisionQueue`, `ProvisionStarvation`, `ProvisionSession` | the release of a failed plan's reservations after a zero-residue verification, and the queue of plans waiting for it |
| Archive audit | `ArchiveAudit`, `ArchivePaths`, `ArchiveOnDisk` | member paths, link resolution and the two audit passes; links as the file system follows them once unpacked |
| SSH keys | `SshKeys`, `SshKeyLayouts` | the wire format, its two validators, the accepted blobs byte by byte, and the blob the browser builds |
| Rate limiter | `RateLimiter` | the sliding window per key, with eviction |
| Terminal input | `InputChunks` | splitting pasted text into bounded UTF-8 chunks |

## Conventions

- A terminal is `Safe` on an input when no step is a negative parameter of `H` or `f`. That is the only step that
  leaves the grid (`GridBreaksExactlyAtNegativeHome`).
- Lease times are microseconds; `int(total_seconds())` truncates, so the renewal window is strictly under 86401 s.
  A run is any sequence of transactions with a nondecreasing clock, arbitrary requests and arbitrary Worker replies;
  a transaction that fails is rolled back. Tables are sequences, and an id is an index.
- The database constraint on `previous_lease_id` refuses a second successor; an owner gets one root lease.
- The saga's Worker is a script of arbitrary replies, transport errors and undecodable bytes included.
- `Options` and `Counting` hold the option type and two facts about sets of numbers.

## Where the code does less than it seems to

Each point has a lemma with an input that shows it and, except for the archive's one-way condition, a lemma with the
exact condition.

- A negative `H` or `f` parameter puts the cursor outside the grid (`NegativeHomeEscapes`); no other character does
  (`GridBreaksExactlyAtNegativeHome`).
- `resize` keeps the grid exactly when it changes nothing, or the saved cursor still fits and no main screen is set
  aside (`ResizeKeepsGridExactly`); on the alternate screen any change of size breaks it (`ResizeOnAlternateEscapes`).
- A renewal decided while its lease is not the active one rewrites that lease's APPROVED state to RENEWAL_WINDOW, so
  the owner's chain stops before it, whichever way the decision went (`ApprovalExtendsExactlyOnActive`,
  `RejectionKeepsExactlyOnActive`; two hours become one in `SecondApprovalShortens` and in `RejectionShortens`).
- An expired lease whose only successor lapsed before anybody activated it is never due again: no lease of its owner is
  ever cleaned up and the environment stays open (`StrandedIsReachable`, `StrandedForever`). A scan of the lease before
  it or a use by the owner, in the successor's window, prevents it (`ScanActivates`, `UseActivates`,
  `WokenIsDueUntilCleaned`).
- A cleanup call whose answer cannot be decoded raises past every handler: the attempt's record and the closing of the
  environment are rolled back, so that every later scan makes the call again (`LostCallIsReachable`,
  `LostCallRepeats`). The attempts recorded are bounded in any case (`AtMostThreeSpacedAttempts`); the calls are what is
  recorded exactly when none is lost (`RecordedAreCalls`, `AtMostThreeSpacedCalls`), and a call closes the environment
  exactly when its answer can be decoded (`CallFailsClosedExactly`).
- The expiry worker takes the due leases in the order of their expiry, up to its limit, and stops at the first
  exception: a due lease is scanned exactly when fewer than `limit` come before it and none of their scans raises
  (`LeaseBatches.BatchReachesExactly`, `ScanRaisesExactly`). A lease whose owner has no retained key therefore keeps
  every later lease from being scanned, for ever (`NothingAfterBlocking`, reached in `KeylessOwnerBlocks`), and so do
  `limit` leases left to manual review while none of them is recovered (`NothingAfterReviews`, reached for every number
  in `ReviewsStarve`).
- Likewise a pending plan is attempted exactly when fewer than `limit` come before it and none of their attempts raises
  (`ProvisionQueue.BatchReachesExactly`). Plans that cannot succeed stay on the queue, and `limit` of them keep every
  younger one from being attempted (`StuckStarve`, `NeverVerifiesExactly`; for every number in `FamilyStarves`).
- The lease view offers a renewal that will be refused (`ViewOffersWhatFails`), exactly while a request of the owner is
  pending on a lease that has run out (`LeaseRenewals.ViewTellsRenewal`).
- `retry_failed_recycle` recycles a superseded lease unless its route refuses first (`RetryNeedsItsRoute`): it keeps the
  invariants exactly when there is no successor or the cleanup fails, and shuts out an owner whose lease covers the
  present exactly when there is such a lease (`RetryKeepsInvExactly`, `RetryShutsOutExactly`).
- A Worker reply without its backup digest, with an error that is not an object, with a list or object as preflight
  status, or that cannot be decoded passes every handler of the GPU upgrade: what was migrated stays upgraded and
  unreported (`MalformedReplyLeavesTraces`). One that cannot be decoded, or is nested too deeply, also escapes from the
  compensation and leaves the rest of it undone (`CompensationLeavesTraces`, `EscapedCompensationLeaves`).
  `TracesExactly` tells from the replies alone when either happens.
- An upgrade call without an answer leaves its operation running, whatever the compensation does, so that every later
  batch is refused while it stays so (`UnansweredBlocks`; exactly when, in `UpgradeOneRecords`). A batch that was rolled
  back cannot be repeated: a later batch that takes one of its containers fails and changes none (`RolledBackRefuses`;
  exactly what success needs, in `SucceedsExactly`).
- The audit resolves link targets as text. On disk a symlink on the way is followed first, so an archive that passes can
  lead outside (`PassingArchiveLeadsOutside`). Where no link's way meets a symlink both agree and everything stays
  inside (`PhysicalIsLexical`, `LinksStayInsideOnDisk`).
- The limiter's eviction removes nothing as long as every limit is positive (`PositiveLimitsNeverEvict`), and a window
  that grows between calls forgets admissions (`GrowingWindowForgets`); the count is wrong exactly when the cut lies
  before an event already forgotten (`PoppedCountsExactly`, `AnswerWrongExactly`).

## Model

| member | source | states |
|---|---|---|
| `TerminalRuns.GridBreaksExactlyAtNegativeHome` | portal/apps/web/lib/terminal-screen.ts:90-220 | one character keeps the grid invariant if and only if it is not the final of `H`/`f` with a row or column below 1 |
| `TerminalRuns.GridOverEveryRun` | portal/apps/web/lib/terminal-screen.ts:73-348 | after any input without a negative home: exactly `rows` rows of `cols` cells, cursor and saved cursor in range, scrollback within its limit, a control buffer of at most 128 characters (129 UTF-16 units) |
| `TerminalRuns.NoMinusIsSafe` | portal/apps/web/lib/terminal-screen.ts:19-26 | an input without a minus sign never leaves the grid |
| `TerminalRuns.GridWithoutMinus` | portal/apps/web/lib/terminal-screen.ts:73-348 | so every input free of minus signs keeps the grid from construction on |
| `TerminalRuns.FeedAppend` | portal/apps/web/lib/terminal-screen.ts:73-75 | feeding two pieces one after the other is feeding their concatenation |
| `TerminalRuns.FeedKeepsDimensions` | portal/apps/web/lib/terminal-screen.ts:73-75 | no input changes the dimensions or the scrollback limit |
| `TerminalSequences.NegativeHomeEscapes` | portal/apps/web/lib/terminal-screen.ts:198-200 | on any terminal, feeding `ESC [ - 5` is safe and the `H` after it puts the cursor six rows above the screen |
| `TerminalRuns.ResizeKeepsGridExactly` | portal/apps/web/lib/terminal-screen.ts:57-71 | a resize keeps the grid if and only if it is no change, or the saved cursor fits and no screen is set aside |
| `TerminalRuns.ResizeKeepsCommonCells` | portal/apps/web/lib/terminal-screen.ts:57-71 | cells inside both sizes survive, all others are blank |
| `TerminalRuns.ResizeMovesCursor` | portal/apps/web/lib/terminal-screen.ts:57-71 | a change of size moves each cursor coordinate to the new last one where it would lie beyond, and changes nothing else but the screen |
| `TerminalRuns.NewIsBlank` | portal/apps/web/lib/terminal-screen.ts:28-46 | a new terminal is blank, with the cursor home and nothing saved |
| `TerminalLayout.TextLayout` | portal/apps/web/lib/terminal-screen.ts:138-142 | n >= 1 printable characters on a cleared screen: rows in reading order, earlier rows scrolled off right-trimmed, every other cell blank, cursor after the last character with the wrap deferred |
| `TerminalLayout.RowsOfText` | portal/apps/web/lib/terminal-screen.ts:222-229 | every text has such a row count: (n-1) / cols full rows and (n-1) % cols + 1 characters |
| `TerminalLayout.CharacterOnScreen` | portal/apps/web/lib/terminal-screen.ts:222-243 | character k of one of the last rows is at row k / cols less the rows scrolled off, column k mod cols |
| `TerminalLayout.CharacterInScrollback` | portal/apps/web/lib/terminal-screen.ts:245-255 | for any limit an earlier character is in the scrollback if and only if the limit admits the rows scrolled off from its own on, and then its row is that many entries from the newest end |
| `TerminalLines.LineLayout` | portal/apps/web/lib/terminal-screen.ts:125-143 | any lines, each of at most `cols` printable characters, joined by CR LF and fed to a cleared screen: line i from the left of row i less the rows scrolled off, those right-trimmed in the scrollback as far as its limit lets them stay, all else blank |
| `TerminalLines.CharacterOfLine` | portal/apps/web/lib/terminal-screen.ts:127-143 | so character j of a line that still fits is in column j of its row, and the cursor is after the last line |
| `TerminalLines.LineInScrollback` | portal/apps/web/lib/terminal-screen.ts:245-255 | and an earlier line is, right-trimmed, that many entries from the newest end of the scrollback if the limit admits so many, and is dropped otherwise |
| `TerminalRendering.RenderedText` | portal/apps/web/lib/terminal-screen.ts:77-88 | printing a text and rendering gives the text cut into rows, without the oldest rows beyond the scrollback limit, at any screen height |
| `TerminalRendering.RenderedWhole` | portal/apps/web/lib/terminal-screen.ts:77-88 | and the whole text when the limit admits the rows that scrolled off |
| `TerminalRendering.DropEmptyExactly` | portal/apps/web/lib/terminal-screen.ts:86 | rendering drops empty lines only, from the end only, and all of them but the first line |
| `TerminalRendering.TrimRightExactly` | portal/apps/web/lib/terminal-screen.ts:245-255 | a row is trimmed of white space only, from its end only, and of all of it |
| `TerminalRendering.CursorIsDrawn` | portal/apps/web/lib/terminal-screen.ts:77-88 | the block replaces exactly the cell at the cursor, with a deferred wrap the last one of its row |
| `TerminalScreen.TerminalScreen.Render` | portal/apps/web/lib/terminal-screen.ts:77-88 | the loops of `render` compute the specified text and change nothing |
| `TerminalScrollback.BoundedScrollbackRefinesLog` | portal/apps/web/lib/terminal-screen.ts:39-43 | for any input the bounded terminal has the screen and cursor of an unbounded one, and the newest entries of its complete log |
| `TerminalScrollback.ConsumeCommutes` | portal/apps/web/lib/terminal-screen.ts:90-143 | bounding the scrollback before or after one character is the same |
| `TerminalScrollback.RememberNewest` | portal/apps/web/lib/terminal-screen.ts:248-252 | push and shift keep the newest entries of the log |
| `TerminalScrollback.ScrollLogsTopRows` | portal/apps/web/lib/terminal-screen.ts:245-255 | scrolling on the main screen by any count logs exactly the rows scrolled off, in order, right-trimmed, blank ones beyond the screen's height included |
| `TerminalScrollback.LogOnlyGrows` | portal/apps/web/lib/terminal-screen.ts:231-271 | the complete log is only appended to, except by reset, erase mode 3 and screen switches |
| `TerminalAlternate.AlternateScreenRestores` | portal/apps/web/lib/terminal-screen.ts:326-347 | entering, any input that neither resets nor leaves, and leaving restores cells, scrollback and cursor exactly |
| `TerminalAlternate.ConsumeKeepsSavedScreen` | portal/apps/web/lib/terminal-screen.ts:178-347 | on the alternate screen no other step touches the saved screen |
| `TerminalAlternate.ResizeOnAlternateEscapes` | portal/apps/web/lib/terminal-screen.ts:57-71 | on the alternate screen of any terminal, every change of size breaks the grid |
| `TerminalAlternate.EnterTwice` | portal/apps/web/lib/terminal-screen.ts:326-327 | entering again changes nothing |
| `TerminalAlternate.DeviceStringIsInvisible` | portal/apps/web/lib/terminal-screen.ts:91-107 | a whole device string, from its introducer to BEL or `ESC \`, leaves the terminal exactly as it was |
| `TerminalEditing.DeleteThenInsertLines` | portal/apps/web/lib/terminal-screen.ts:311-324 | deleting lines and inserting as many blanks those rows in place and changes no other |
| `TerminalEditing.InsertThenDeleteLines` | portal/apps/web/lib/terminal-screen.ts:311-324 | deleting the inserted lines restores every row but those pushed off the bottom |
| `TerminalEditing.DeleteThenInsertCharacters` | portal/apps/web/lib/terminal-screen.ts:291-309 | deleting characters and inserting as many is erasing them in place |
| `TerminalEditing.InsertThenDeleteCharacters` | portal/apps/web/lib/terminal-screen.ts:291-301 | deleting the inserted characters restores the row but for its lost end |
| `TerminalEditing.ScrollUpThenDown` | portal/apps/web/lib/terminal-screen.ts:245-262 | scrolling up and back down restores every row but those that left, which are blank |
| `TerminalEditing.ErasedFromCursor` | portal/apps/web/lib/terminal-screen.ts:272-276 | erase mode 0 blanks exactly the cells from the cursor on in reading order |
| `TerminalEditing.ErasedUpToCursor` | portal/apps/web/lib/terminal-screen.ts:277-281 | erase mode 1 blanks exactly the cells up to the cursor, a deferred wrap counting as the last column |
| `TerminalEditing.ErasedOnBothSides` | portal/apps/web/lib/terminal-screen.ts:264-282 | erasing after and then before the cursor clears the display |
| `TerminalEditing.CursorRestores` | portal/apps/web/lib/terminal-screen.ts:159-164 | saving, any input that does not save again, and restoring puts the cursor back, across resets and screen switches |
| `TerminalEditing.ConsumeKeepsSavedCursor` | portal/apps/web/lib/terminal-screen.ts:145-220 | nothing but a save changes the saved cursor |
| `TerminalSequences.ParametersRoundTrip` | portal/apps/web/lib/terminal-screen.ts:19-26 | parameters written in decimal with semicolons read back as themselves |
| `TerminalSequences.NumberIsRead` | portal/apps/web/lib/terminal-screen.ts:19-26 | a parameter is read after white space and a sign, up to the first character that is no digit |
| `TerminalSequences.NoNumberIsZero` | portal/apps/web/lib/terminal-screen.ts:19-26 | and counts as zero if there is no digit |
| `TerminalSequences.PartsAreRead` | portal/apps/web/lib/terminal-screen.ts:19-26 | whatever stands between semicolons, after a private mark or none, is read part by part |
| `TerminalSequences.ParametersGather` | portal/apps/web/lib/terminal-screen.ts:108-120 | up to 128 parameter characters gather in the control buffer and do nothing else |
| `TerminalSequences.SequenceDispatches` | portal/apps/web/lib/terminal-screen.ts:108-149 | a whole control sequence is carried out once, with the parameters it was written with |
| `TerminalSequences.HomeAddressesEveryCell` | portal/apps/web/lib/terminal-screen.ts:198-200 | `CSI row ; column H` puts the cursor exactly on that cell, for every cell |
| `TerminalSequences.SequenceMovesDown` | portal/apps/web/lib/terminal-screen.ts:180-186 | `CSI n B` moves down by n rows, at least one, and stops at the last row |
| `TerminalSequences.DownThenUp` | portal/apps/web/lib/terminal-screen.ts:184-186 | moving down and up by the same count returns if and only if the first move met no edge or began on the first row |
| `TerminalSequences.RightThenLeft` | portal/apps/web/lib/terminal-screen.ts:187-189 | the same sideways |
| `TerminalEffects.LineFeedEffect` | portal/apps/web/lib/terminal-screen.ts:129-134 | line feed, vertical tab and form feed keep the column and go down a row, or on the last row move the screen up by one, its first row, right-trimmed, becoming the newest entry of the main screen's scrollback |
| `TerminalEffects.CarriageReturnEffect` | portal/apps/web/lib/terminal-screen.ts:127-128 | a carriage return puts the cursor into the first column |
| `TerminalEffects.BackspaceEffect` | portal/apps/web/lib/terminal-screen.ts:135-136 | a backspace moves it left by one, up to the first column |
| `TerminalEffects.PrintableEffect` | portal/apps/web/lib/terminal-screen.ts:222-229 | a printable character replaces the cell at the cursor, on a new line if the wrap was deferred, and moves the cursor on |
| `TerminalEffects.TabEffect` | portal/apps/web/lib/terminal-screen.ts:137-139 | a tab is as many spaces as lead to the next column that is a multiple of eight |
| `TerminalEffects.OtherControlsEffect` | portal/apps/web/lib/terminal-screen.ts:125-142 | every other control character does nothing |
| `TerminalEffects.DownEffect` | portal/apps/web/lib/terminal-screen.ts:165-166 | ESC D goes down like a line feed |
| `TerminalEffects.NextLineEffect` | portal/apps/web/lib/terminal-screen.ts:167-169 | ESC E goes down to the first column |
| `TerminalEffects.UpEffect` | portal/apps/web/lib/terminal-screen.ts:239-243 | ESC M keeps the column and goes up a row, or on the first row moves the screen down by one, logging nothing |
| `TerminalEffects.ResetEffect` | portal/apps/web/lib/terminal-screen.ts:172-173 | ESC c blanks screen and scrollback, puts the cursor home and gives up a main screen set aside, but keeps the saved cursor |
| `TerminalEffects.SaveEffect` | portal/apps/web/lib/terminal-screen.ts:159-161 | ESC 7 saves both coordinates of the cursor |
| `TerminalEffects.RestoreEffect` | portal/apps/web/lib/terminal-screen.ts:162-164 | ESC 8 puts both back |
| `TerminalEffects.OtherEscapesEffect` | portal/apps/web/lib/terminal-screen.ts:145-176 | an escape with any other character does nothing |
| `TerminalEffects.EscapeInsideString` | portal/apps/web/lib/terminal-screen.ts:95-107 | an escape inside a device string that begins no terminator is passed over |
| `TerminalEffects.WrittenReadsBack` | portal/apps/web/lib/terminal-screen.ts:19-26 | parameters written with or without a private mark read back as themselves |
| `TerminalEffects.MoveEffect` | portal/apps/web/lib/terminal-screen.ts:180-197 | every move for every parameter list: by the first parameter, at least one, and never over an edge |
| `TerminalEffects.HomeEffect` | portal/apps/web/lib/terminal-screen.ts:198-200 | H and f for every parameter list without a minus sign: the row and column addressed, one where nothing is written, at most the last |
| `TerminalEffects.EditEffect` | portal/apps/web/lib/terminal-screen.ts:202-209 | line and character insertion, deletion and erasure and scrolling down, cell by cell; nothing but cells changes |
| `TerminalEffects.EraseDisplayEffect` | portal/apps/web/lib/terminal-screen.ts:264-282 | J likewise, with the scrollback for mode 3 only |
| `TerminalEffects.ScrollUpEffect` | portal/apps/web/lib/terminal-screen.ts:245-255 | S likewise |
| `TerminalEffects.ScrollUpLogs` | portal/apps/web/lib/terminal-screen.ts:245-255 | and it logs as many rows as it scrolls, on the main screen alone |
| `TerminalEffects.SaveSequenceEffect` | portal/apps/web/lib/terminal-screen.ts:210-212 | CSI s saves both coordinates |
| `TerminalEffects.RestoreSequenceEffect` | portal/apps/web/lib/terminal-screen.ts:213-215 | CSI u puts both back |
| `TerminalEffects.UnknownSequenceEffect` | portal/apps/web/lib/terminal-screen.ts:178-220 | a sequence with any other final character does nothing |
| `TerminalEffects.EnterEffect` | portal/apps/web/lib/terminal-screen.ts:326-338 | switching to the alternate screen sets screen, scrollback and cursor aside and shows a blank screen |
| `TerminalEffects.LeaveEffect` | portal/apps/web/lib/terminal-screen.ts:340-347 | switching back takes all of it back, or does nothing on the main screen |
| `TerminalEffects.OverlongSequenceEffect` | portal/apps/web/lib/terminal-screen.ts:113-118 | the parameter character after 128 ends the sequence without effect |
| `TerminalScreen.TerminalScreen.Feed` | portal/apps/web/lib/terminal-screen.ts:73-75 | the mutable terminal follows the model over any safe input; no row object is shared, on or between the screens |
| `TerminalScreen.TerminalScreen.Consume` | portal/apps/web/lib/terminal-screen.ts:90-143 | the same for one character in each of the seven parser states |
| `TerminalScreen.TerminalScreen.Csi` | portal/apps/web/lib/terminal-screen.ts:178-220 | the same for every control sequence |
| `TerminalScreen.TerminalScreen.Scroll` | portal/apps/web/lib/terminal-screen.ts:245-255 | the loop of in-place scrolls follows the model |
| `TerminalScreen.TerminalScreen.EraseDisplay` | portal/apps/web/lib/terminal-screen.ts:264-282 | the loops that blank rows in place follow the model |
| `TerminalScreen.TerminalScreen.InsertLines` | portal/apps/web/lib/terminal-screen.ts:311-318 | splicing fresh rows in keeps all rows distinct and follows the model |
| `TerminalScreen.TerminalScreen.DeleteLines` | portal/apps/web/lib/terminal-screen.ts:320-324 | splicing rows out and filling up keeps all rows distinct and follows the model |
| `TerminalScreen.TerminalScreen.EnterAlternateScreen` | portal/apps/web/lib/terminal-screen.ts:326-338 | the saved rows are copies that no live row aliases |
| `TerminalScreen.TerminalScreen.LeaveAlternateScreen` | portal/apps/web/lib/terminal-screen.ts:340-347 | the saved rows become the live ones |
| `TerminalScreen.TerminalScreen.Resize` | portal/apps/web/lib/terminal-screen.ts:57-71 | the resized screen is made of fresh rows and follows the model |
| `TerminalScreen.InsertedRows` | portal/apps/web/lib/terminal-screen.ts:311-318 | rows spliced in stay distinct, apart from the saved screen, and show the lines spliced in likewise |
| `LeaseGuarantees.ChainsOverEveryRun` | portal/apps/api/src/h100_portal_api/lease_service.py:106-126 | in every run: successors start where predecessors end, with their owner and GPU count; chains are linear; the terminal lease is always found; no instant is covered twice |
| `LeaseGuarantees.ChainEndsOverEveryRun` | portal/apps/api/src/h100_portal_api/lease_service.py:106-126 | in every run an approved lease is its owner's last, the walk takes at most one hop, and a request pending on a live lease names the end of the entitlement |
| `LeaseGuarantees.EntitlementHorizon` | portal/apps/api/src/h100_portal_api/lease_service.py:291-312 | in every run no lease ends more than 345600 s plus the renewal window after the present |
| `LeaseGuarantees.RenewalsOverEveryRun` | portal/apps/api/src/h100_portal_api/lease_service.py:257-382 | in every run one pending request per owner; granted exactly when a successor was created, of the terms asked for (`GrantsAreHonoured`); every successor was granted |
| `LeaseGuarantees.BinIsSuccessfulCleanups` | portal/apps/api/src/h100_portal_api/expiry_service.py:415-463 | in every run the recycle items are exactly the successful cleanups in order, none twice; RECYCLE_BIN and `recycled_at` hold exactly for their leases, which have run out and have no successor |
| `LeaseInvariant.PeriodsFollow` | portal/apps/api/src/h100_portal_api/lease_service.py:345-375 | an owner's periods follow each other, starts strictly increasing |
| `LeaseInvariant.AtMostOneCovers` | portal/apps/api/src/h100_portal_api/lease_service.py:44-53 | at any instant at most one lease of an owner covers it |
| `LeaseInvariant.SuccessorUnique` | portal/apps/api/src/h100_portal_api/models.py:804-807 | chains are linear |
| `LeaseInvariant.RootKeepsInv` | portal/apps/api/src/h100_portal_api/lease_service.py:222-254 | an owner's first lease keeps every invariant |
| `LeaseRuns.EnsureActivates` | portal/apps/api/src/h100_portal_api/lease_service.py:56-103 | lazy activation changes lease states only, keeps every invariant and returns a lease of the owner that covers now |
| `LeaseRuns.RequestKeepsInv` | portal/apps/api/src/h100_portal_api/lease_service.py:257-316 | a renewal request keeps every invariant |
| `LeaseRuns.DecideKeepsInv` | portal/apps/api/src/h100_portal_api/lease_service.py:319-382 | a decision keeps every invariant |
| `LeaseRuns.ReconcileKeepsInv` | portal/apps/api/src/h100_portal_api/expiry_service.py:36-81 | closing overdue requests keeps every invariant |
| `LeaseRuns.CleanupKeepsInv` | portal/apps/api/src/h100_portal_api/expiry_service.py:324-524 | recording a cleanup's success or failure keeps every invariant |
| `LeaseRuns.ScanKeepsInv` | portal/apps/api/src/h100_portal_api/expiry_service.py:666-701 | a scan of one lease keeps every invariant, whatever the Worker answers |
| `LeaseRuns.RecoverKeepsInv` | portal/apps/api/src/h100_portal_api/routes/self_service.py:3138-3214 | operator recovery keeps every invariant |
| `LeaseRuns.ApplyKeepsInv` | portal/apps/api/src/h100_portal_api/lease_service.py:56-382 | every transaction of the protocol keeps every invariant |
| `LeaseHistory.ApplyFinishes` | portal/apps/api/src/h100_portal_api/expiry_service.py:324-463 | a lease that has run out keeps its terms and changes only on the way to EXPIRED or the bin |
| `LeaseHistory.ReachableIsSound` | portal/apps/api/src/h100_portal_api/expiry_service.py:743-767 | every reachable state satisfies the invariants |
| `LeaseHistory.RecycledForever` | portal/apps/api/src/h100_portal_api/expiry_service.py:84-103 | a recycled lease never changes again and never gains a successor, over any run |
| `LeaseHistory.AtMostThreeSpacedAttempts` | portal/apps/api/src/h100_portal_api/expiry_service.py:147-221 | over any run at most three automatic cleanups of a lease are recorded, only after failures, 60 s and 300 s apart |
| `LeaseHistory.RecordedAreCalls` | portal/apps/api/src/h100_portal_api/expiry_service.py:582-614 | over any run the attempts recorded are the Worker calls made if and only if no call got an answer that cannot be decoded |
| `LeaseHistory.AtMostThreeSpacedCalls` | portal/apps/api/src/h100_portal_api/expiry_service.py:147-221 | so over any run that loses none, the calls themselves are at most three and spaced |
| `LeaseHistory.LostCallRepeats` | portal/apps/api/src/h100_portal_api/worker_client.py:58-67 | a call whose answer cannot be decoded leaves no record and is made again by the same scan any number of times |
| `LeaseHistory.RunAccounts` | portal/apps/api/src/h100_portal_api/expiry_service.py:270-321 | the operation row always tells the number, outcome and time of the attempts made |
| `LeaseHistory.NextAfterAttempt` | portal/apps/api/src/h100_portal_api/expiry_service.py:185-221 | after attempt n another starts if and only if n failed, was the first or second, may be retried, and its delay has passed; none while it runs or after it succeeded |
| `LeaseViews.ChainNeverInvalid` | portal/apps/api/src/h100_portal_api/lease_service.py:106-126 | LEASE_CHAIN_INVALID is unreachable and the walk ends at a later lease of the same owner |
| `LeaseViews.FallbackFindsNothing` | portal/apps/api/src/h100_portal_api/lease_service.py:68-79 | the fallback query for a lapsed lease never finds one the first query missed |
| `LeaseViews.StartCheckImplied` | portal/apps/api/src/h100_portal_api/expiry_service.py:224-240 | the start check left out by `_activate_successor` is implied by the chain |
| `LeaseViews.LazyEqualsEager` | portal/apps/api/src/h100_portal_api/expiry_service.py:224-240 | for the selected lease, lazy and eager activation give the same database; the second is a no-op |
| `LeaseViews.AttemptFailsClosed` | portal/apps/api/src/h100_portal_api/self_resources.py:97-127 | after any recorded cleanup attempt lease, environment and container are closed and the owner is refused from then on |
| `LeaseViews.CallFailsClosedExactly` | portal/apps/api/src/h100_portal_api/expiry_service.py:564-614 | a call of the Worker closes lease, environment and container if and only if its answer can be decoded, unless they were closed before; the owner is refused in either case |
| `LeaseViews.AttemptOnlyAtChainEnd` | portal/apps/api/src/h100_portal_api/expiry_service.py:84-103 | cleanup is attempted only on an expired, unrecycled lease without a successor |
| `LeaseViews.ClosedForever` | portal/apps/api/src/h100_portal_api/expiry_service.py:324-463 | no run of the protocol reopens a suspended or recycled environment |
| `LeaseViews.DecidedOnce` | portal/apps/api/src/h100_portal_api/lease_service.py:319-343 | a decided request never changes |
| `LeaseViews.RenewalSucceedsExactly` | portal/apps/api/src/h100_portal_api/lease_service.py:183-192 | a fresh, legal renewal request succeeds if and only if the view offers it and the owner has no pending request |
| `LeaseRenewals.AtMostOneHop` | portal/apps/api/src/h100_portal_api/lease_service.py:106-126 | the terminal lease is the lease itself or its approved successor |
| `LeaseRenewals.ApplyKeepsRenewing` | portal/apps/api/src/h100_portal_api/lease_service.py:257-382 | every transaction keeps that approved leases are last and that pending requests name chain ends |
| `LeaseRenewals.PendingNamesTerminal` | portal/apps/api/src/h100_portal_api/lease_service.py:302-309 | a request pending on a lease that has not run out names the terminal lease, which is active or waits approved behind the active one |
| `LeaseRenewals.ViewTellsRenewal` | portal/apps/api/src/h100_portal_api/lease_service.py:140-219 | in every reachable state a fresh renewal succeeds if and only if the view offers it and no request of the owner is pending on a lease that has run out |
| `LeaseRenewals.ViewTellsAfterReconciling` | portal/apps/api/src/h100_portal_api/expiry_service.py:36-81 | right after the overdue requests are closed the view alone decides |
| `LeaseLimits.ApprovalExtendsExactlyOnActive` | portal/apps/api/src/h100_portal_api/lease_service.py:345-382 | an approval extends the owner's chain to the new lease if and only if its lease is the active one; otherwise the entitlement shrinks to where that lease starts. Activation may still be due, and the request is proved to name the terminal lease |
| `LeaseLimits.RejectionKeepsExactlyOnActive` | portal/apps/api/src/h100_portal_api/lease_service.py:361-364 | a rejection leaves the entitlement's end alone if and only if the request's lease is the active one; otherwise it ends where that lease starts |
| `LeaseLimits.DecisionKeepsActive` | portal/apps/api/src/h100_portal_api/lease_service.py:56-103 | after a decision on a live request the same lease is active, and nothing is left to activate |
| `LeaseLimits.DueExactly` | portal/apps/api/src/h100_portal_api/expiry_service.py:84-103 | an expired lease is due if and only if nothing succeeds it or its approved successor has not ended |
| `LeaseLimits.StrandedForever` | portal/apps/api/src/h100_portal_api/expiry_service.py:84-103 | once the approved end of a chain lapsed unactivated, over every later run no lease of the owner is attempted, none is due, and identity, container and keys stay as they were |
| `LeaseLimits.LapsedGainsNoSuccessor` | portal/apps/api/src/h100_portal_api/lease_service.py:345-357 | a lease that has run out never gains a successor |
| `LeaseLimits.RetryKeepsInvExactly` | portal/apps/api/src/h100_portal_api/expiry_service.py:704-740 | the recovery function alone keeps every invariant if and only if the lease has no successor or the cleanup fails |
| `LeaseLimits.RetryShutsOutExactly` | portal/apps/api/src/h100_portal_api/expiry_service.py:527-563 | whatever the Worker answers, it closes the environment of an owner whose lease covers the present if and only if there is such a lease, where the route refuses |
| `LeaseTerms.GrantsAreHonoured` | portal/apps/api/src/h100_portal_api/lease_service.py:363-382 | in every run each granted request got a lease of the duration, owner and GPU count asked for, from the end of the lease it renewed to that end plus the requested seconds |
| `LeaseTerms.ApplyKeepsHonoured` | portal/apps/api/src/h100_portal_api/lease_service.py:257-382 | every transaction keeps that |
| `LeaseTerms.RequestsKeepTerms` | portal/apps/api/src/h100_portal_api/lease_service.py:257-382 | no transaction changes owner, lease, duration, key or time of a request once it is made |
| `LeaseTerms.DecisionRecords` | portal/apps/api/src/h100_portal_api/lease_service.py:319-382 | what a decision writes: the request decided now and its lease back in its window, with the new lease for an approval, or both closed for a late one, and nothing else |
| `LeaseTerms.RequestRecords` | portal/apps/api/src/h100_portal_api/lease_service.py:296-316 | a new request records owner, terminal lease, duration, key and time, and the active lease waits for it |
| `LeaseTerms.RequestIsIdempotent` | portal/apps/api/src/h100_portal_api/lease_service.py:270-289 | a request made again with its key, after any run, returns the same request and changes nothing; with another duration it is a conflict |
| `LeaseTerms.RootRecords` | portal/apps/api/src/h100_portal_api/lease_service.py:222-254 | an owner's first lease runs from now for the duration asked for |
| `LeaseTerms.RootSucceedsExactly` | portal/apps/api/src/h100_portal_api/lease_service.py:222-254 | it is created if and only if the owner has no lease, the duration is between one second and 96 hours, and the GPU count is 0 or 1 |
| `LeaseTerms.ClosesFirstOverdue` | portal/apps/api/src/h100_portal_api/expiry_service.py:36-81 | a request is cancelled if and only if it is pending on a lease that has run out and fewer than `limit` such requests come before it |
| `LeaseTerms.ViewTellsTime` | portal/apps/api/src/h100_portal_api/lease_service.py:140-219 | the view's seconds are the whole seconds to the end of the entitlement; it offers a renewal for 1 to 86400 of them unless a request is pending on the terminal lease |
| `LeaseRecords.AttemptSettlesIdentity` | portal/apps/api/src/h100_portal_api/expiry_service.py:324-463 | an attempt succeeds if and only if the reply confirms everything; then every key is suspended with its fingerprint. A failed one suspends the keys if and only if the reply confirms exactly these, and gives up the allocation if and only if the reply says it was revoked; no other identity changes |
| `LeaseRecords.RecycledOwnersAreLocked` | portal/apps/api/src/h100_portal_api/expiry_service.py:415-463 | in every run the owner of each lease in the bin has no installed key |
| `LeaseRecords.RecordsAreTruthful` | portal/apps/api/src/h100_portal_api/expiry_service.py:324-463 | in every run a lease is stamped expired exactly in EXPIRED or RECYCLE_BIN, not before its end, and recycled not before that; each recycle item tells the owner, end and time of its lease |
| `LeaseOutcomes.ActiveExactlyWhileCovered` | portal/apps/api/src/h100_portal_api/lease_service.py:56-103 | in every run, at any later time, an owner has an active lease if and only if one of the owner's leases covers the present, and it is that one |
| `LeaseOutcomes.ContextAllowedExactly` | portal/apps/api/src/h100_portal_api/self_resources.py:97-127 | in every run, at any later time, an owner may use the environment if and only if one of the owner's leases covers the present, the environment is active and the container is there |
| `LeaseOutcomes.ActivationRecords` | portal/apps/api/src/h100_portal_api/lease_service.py:80-101 | looking up the active lease writes nothing, or expires the lease that has run out and activates the one waiting behind it, and nothing else |
| `LeaseOutcomes.RequestAnswersExactly` | portal/apps/api/src/h100_portal_api/lease_service.py:257-316 | in every run, at any later time, the answer to a request told from the rows: made if and only if a lease of the owner covers the present, its entitlement ends in 1 to 86400 whole seconds and no request of the owner is pending; and when each error comes |
| `LeaseOutcomes.DecisionAnswers` | portal/apps/api/src/h100_portal_api/lease_service.py:319-382 | which answer a decision gets, told from the request and its lease |
| `LeaseOutcomes.ScanFindsExactly` | portal/apps/api/src/h100_portal_api/expiry_service.py:666-701 | which of its six outcomes a scan has, told from the rows and the reply |
| `LeaseOutcomes.ScanWrites` | portal/apps/api/src/h100_portal_api/expiry_service.py:270-321 | what a scan writes to the leases, the bin and its operation row, whose delays are 60 s and 300 s; nothing for any outcome but an activation or an attempt |
| `LeaseOutcomes.RecoveryAnswersExactly` | portal/apps/api/src/h100_portal_api/routes/self_service.py:3138-3214 | which answer an operator's recovery gets, told from the rows and the reply |
| `LeaseLiveness.ScanActivates` | portal/apps/api/src/h100_portal_api/expiry_service.py:224-240 | a scan of the lease before an approved one, within its window, always activates it |
| `LeaseLiveness.UseActivates` | portal/apps/api/src/h100_portal_api/lease_service.py:68-101 | so does any use in that window by the owner |
| `LeaseLiveness.ApplyKeepsPreceded` | portal/apps/api/src/h100_portal_api/lease_service.py:319-382 | every transaction keeps that the lease before an approved one is in an active state |
| `LeaseLiveness.ReachableIsPreceded` | portal/apps/api/src/h100_portal_api/lease_service.py:319-382 | so in every run it is: a late decision closes a lease only where nothing approved follows it |
| `LeaseLiveness.WokenIsActivated` | portal/apps/api/src/h100_portal_api/expiry_service.py:743-767 | over any run, a successor whose window sees a scan of the lease before it, or any use by its owner, never waits approved again |
| `LeaseLiveness.DueUntilCleaned` | portal/apps/api/src/h100_portal_api/expiry_service.py:84-103 | in every run a chain's end that has run out is due if and only if it was activated and no cleanup of it has succeeded |
| `LeaseLiveness.WokenIsDueUntilCleaned` | portal/apps/api/src/h100_portal_api/expiry_service.py:743-767 | so where a successor's window sees either, it is due, once lapsed at the end of its chain, until a cleanup of it succeeds |
| `LeaseBatches.DueQueueIsQueue` | portal/apps/api/src/h100_portal_api/expiry_service.py:748-753 | the query returns every due lease once, in the order of their expiry |
| `LeaseBatches.BatchReachesExactly` | portal/apps/api/src/h100_portal_api/expiry_service.py:743-767 | for any order of equal expiries: a due lease is scanned by a batch if and only if fewer than `limit` due leases come before it and none of their scans, made alone, raises; and its scan ends as it would alone |
| `LeaseBatches.BatchTellsOutcomes` | portal/apps/api/src/h100_portal_api/expiry_service.py:754-767 | a batch counts the scans begun that found their lease due and those that recycled it, and crashes if and only if the last one raised |
| `LeaseBatches.ScanSpares` | portal/apps/api/src/h100_portal_api/expiry_service.py:666-701 | the scan of one due lease leaves the rows, the operation and the identity that another's depends on as they were |
| `LeaseStarvation.BlockingForever` | portal/apps/api/src/h100_portal_api/expiry_service.py:545-558 | a due lease that was never attempted and cannot be, for want of a container or a key, stays so over every run |
| `LeaseStarvation.NothingAfterBlocking` | portal/apps/api/src/h100_portal_api/expiry_service.py:743-767 | over every run after that no batch, however long, scans a lease that expires later |
| `LeaseStarvation.InReviewForever` | portal/apps/api/src/h100_portal_api/expiry_service.py:185-221 | a due lease left to manual review stays so over every run without a recovery of it |
| `LeaseStarvation.NothingAfterReviews` | portal/apps/api/src/h100_portal_api/expiry_service.py:743-767 | where `limit` such leases are not recovered, no batch scans a lease that expires after them |
| `LeaseStarvation.KeylessOwnerBlocks` | portal/apps/api/src/h100_portal_api/expiry_service.py:553-558 | a run from empty tables in which a lease without a key blocks one that could be cleaned up |
| `LeaseStarvation.ReviewsStarve` | portal/apps/api/src/h100_portal_api/expiry_service.py:748-753 | for every n a run from empty tables after which n leases in review keep the next from every batch of n or fewer |
| `LeaseExamples.StrandedIsReachable` | portal/apps/api/src/h100_portal_api/expiry_service.py:84-103 | a run that reaches such a lease |
| `LeaseExamples.SecondApprovalShortens` | portal/apps/api/src/h100_portal_api/lease_service.py:363-382 | a run in which the entitlement is two hours before an approval and one hour after it |
| `LeaseExamples.RejectionShortens` | portal/apps/api/src/h100_portal_api/lease_service.py:361-364 | in the same reachable state a rejection shortens the entitlement from two hours to one |
| `LeaseExamples.ThreeHoursIsReachable` | portal/apps/api/src/h100_portal_api/lease_service.py:296-316 | a run from empty tables to the state in which the view misleads |
| `LeaseExamples.ViewOffersWhatFails` | portal/apps/api/src/h100_portal_api/lease_service.py:183-192 | a state in which the view offers a renewal that is refused |
| `LeaseExamples.RetryNeedsItsRoute` | portal/apps/api/src/h100_portal_api/expiry_service.py:704-740 | in a state reached from empty tables the recovery function alone recycles a lease whose successor covers the present, and the route refuses |
| `LeaseExamples.LostCallIsReachable` | portal/apps/api/src/h100_portal_api/worker_client.py:58-67 | a run from empty tables to a lease whose lost cleanup call is repeated n times, with no attempt recorded and nothing closed |
| `LeaseService.Session.EnsureActiveLease` | portal/apps/api/src/h100_portal_api/lease_service.py:56-103 | the updates of the lease rows follow the model |
| `LeaseService.Session.LeaseChainTerminal` | portal/apps/api/src/h100_portal_api/lease_service.py:106-126 | the loop over `current` and `seen` ends and finds the chain's end or the error |
| `LeaseService.Session.RequestRenewal` | portal/apps/api/src/h100_portal_api/lease_service.py:257-316 | the new request, every error, and the rollback on it |
| `LeaseService.Session.DecideRenewal` | portal/apps/api/src/h100_portal_api/lease_service.py:319-382 | the whole new state of each decision, the expired lease's included, which is committed; `DecisionRecords` tells it field by field |
| `LeaseService.Session.ReconcileExpiredRenewalRequests` | portal/apps/api/src/h100_portal_api/expiry_service.py:36-81 | the loop cancels exactly the first `limit` overdue requests |
| `LeaseService.Session.AutomaticOperation` | portal/apps/api/src/h100_portal_api/expiry_service.py:147-221 | the attempt that starts now is one of 1 to 3, the first where there is no operation, a later one only after a failed attempt that may be retried and not before its time; its operation is left running, and nothing changes where there is none |
| `LeaseService.Session.ExecuteCleanup` | portal/apps/api/src/h100_portal_api/expiry_service.py:527-663 | the updates of lease, identity and items follow the model, whose effect on the identity `AttemptSettlesIdentity` states |
| `LeaseService.Session.RecycleOne` | portal/apps/api/src/h100_portal_api/expiry_service.py:666-701 | the whole new state of a scan of one lease, told from the rows by `ScanFindsExactly` and `ScanWrites` |
| `LeaseService.Session.RetryFailedRecycle` | portal/apps/api/src/h100_portal_api/expiry_service.py:704-740 | the whole new state of a recovery without its route |
| `LeaseService.Session.ProcessDueLeases` | portal/apps/api/src/h100_portal_api/expiry_service.py:743-767 | overdue requests closed, the batch picked by expiry and limit, its scans as modelled, those processed and recycled counted; every invariant kept, also when it crashes half-way |
| `LeaseService.Session.RunScans` | portal/apps/api/src/h100_portal_api/expiry_service.py:754-767 | the loop over a batch follows the model and counts the scans that found their lease due and those that recycled it |
| `GpuUpgradeProofs.SagaIsAtomic` | portal/apps/api/src/h100_portal_api/cli.py:2934-3335 | code 0: all targets on the GPU profile with their power state kept, in the spec the two profile entries written and every other entry as before; code 2: everything not reported unresolved exactly as before; an exception escapes exactly when the last reply is malformed where it was read, and then the migrated keep the profile, except those the compensation had restored before it, never the first |
| `GpuUpgradeTraces.TracesExactly` | portal/apps/api/src/h100_portal_api/cli.py:2829-3335 | atomicity fails if and only if the Worker's replies, read in their order, pass the preflight and at least one upgrade and then hold a malformed one, or fail in a way that is caught and hold one that raises among those the compensation reads |
| `GpuUpgradeTraces.RaisesAfterExactly` | portal/apps/api/src/h100_portal_api/cli.py:2829-3335 | the exception escapes after m committed upgrades if and only if the replies say so position by position, in the main part or in the compensation |
| `GpuUpgradeTraces.WellFormedRepliesLeaveNoTraces` | portal/apps/api/src/h100_portal_api/cli.py:3028-3335 | a Worker that sends no malformed reply, whatever else it answers or fails to answer, never leaves traces |
| `GpuUpgradeTraces.MalformedReplyLeavesTraces` | portal/apps/api/src/h100_portal_api/cli.py:3073-3239 | the whole saga over two containers with a missing digest, a list as preflight status, or bytes that cannot be decoded: the first stays upgraded and unreported |
| `GpuUpgradeTraces.RollbackScript` | portal/apps/api/src/h100_portal_api/cli.py:2829-2931 | the compensation reads one reply for each container and escapes if and only if one of them raises, at the first that does |
| `GpuUpgradeTraces.EscapedCompensationLeaves` | portal/apps/api/src/h100_portal_api/cli.py:2829-2931 | an exception at its k-th reply leaves all migrated containers but the last k upgraded |
| `GpuUpgradeTraces.CompensationLeavesTraces` | portal/apps/api/src/h100_portal_api/cli.py:2829-2931 | the whole saga over two containers with an answer that cannot be decoded in the compensation: the first stays upgraded and unreported |
| `GpuUpgradeProofs.RollbackEachRestores` | portal/apps/api/src/h100_portal_api/cli.py:2829-2931 | compensation restores every migrated container, or reports it, or ends by an exception before it; it touches no other |
| `GpuUpgradeProofs.RestoredIsOriginal` | portal/apps/api/src/h100_portal_api/cli.py:3015-3024 | what the target remembers is the whole original container |
| `GpuUpgradeProofs.TargetsAreRows` | portal/apps/api/src/h100_portal_api/cli.py:2982-3024 | the targets are exactly the containers not yet on the GPU profile |
| `GpuUpgradeProofs.TargetsTaken` | portal/apps/api/src/h100_portal_api/cli.py:2982-3024 | each target is within the baseline and no user is taken twice |
| `GpuUpgradeProofs.UpgradeEachUpgrades` | portal/apps/api/src/h100_portal_api/cli.py:3091-3239 | when the upgrades stop, exactly the migrated prefix is upgraded |
| `GpuUpgradeProofs.UpgradeKeepsSpec` | portal/apps/api/src/h100_portal_api/cli.py:3185-3198 | an upgraded container's spec has the entries it had and `gpu` and `development_profile`; these two are NONE and the GPU profile, and every other is as before |
| `GpuUpgradeEvidence.TakenExactly` | portal/apps/api/src/h100_portal_api/cli.py:2982-3024 | a batch is taken if and only if every container not on the GPU profile is in the baseline, told field by field |
| `GpuUpgradeEvidence.TargetsRemember` | portal/apps/api/src/h100_portal_api/cli.py:2982-3024 | a target remembers the container's spec and power and the lease's end |
| `GpuUpgradeEvidence.SucceedsExactly` | portal/apps/api/src/h100_portal_api/cli.py:2934-3335 | the saga returns 0 if and only if the batch is permitted and taken, every operation is free, and every reply is good where it is read |
| `GpuUpgradeEvidence.SuccessIsRecorded` | portal/apps/api/src/h100_portal_api/cli.py:3199-3314 | after code 0 every upgrade is recorded as succeeded, and the start of every container that was running |
| `GpuUpgradeEvidence.PreflightOneRecords` | portal/apps/api/src/h100_portal_api/cli.py:3028-3089 | a preflight leaves its operation a draft, failed or as it was, told from the reply |
| `GpuUpgradeEvidence.UpgradeOneRecords` | portal/apps/api/src/h100_portal_api/cli.py:3091-3239 | an upgrade leaves its operation succeeded, failed, running or as it was, told from the two replies |
| `GpuUpgradeEvidence.StartOneRecords` | portal/apps/api/src/h100_portal_api/cli.py:3253-3314 | and so does a start |
| `GpuUpgradeEvidence.RestartsByExpiry` | portal/apps/api/src/h100_portal_api/cli.py:3241-3252 | the starts go by the expiry of the lease, equal ones in the order of the targets |
| `GpuUpgradeEvidence.CompensationReports` | portal/apps/api/src/h100_portal_api/cli.py:2829-2931 | a migrated container is reported as unresolved if and only if the reply to its restore is not good; the operation of any other is rolled back |
| `GpuUpgradeEvidence.RollbackReports` | portal/apps/api/src/h100_portal_api/cli.py:2829-2931 | the same for the compensation alone |
| `GpuUpgradeEvidence.RollbackOneCalls` | portal/apps/api/src/h100_portal_api/cli.py:2829-2931 | a container is restored only after its allocation, where one is held, was given up; one whose stop went wrong is reported as it is |
| `GpuUpgradeEvidence.RolledBackRefuses` | portal/apps/api/src/h100_portal_api/cli.py:3057-3060 | a batch with a container whose operation was rolled back before fails and changes no container |
| `GpuUpgradeEvidence.UnansweredIsLeftRunning` | portal/apps/api/src/h100_portal_api/cli.py:3146-3164 | an upgrade call without an answer leaves its operation running |
| `GpuUpgradeEvidence.UnansweredBlocks` | portal/apps/api/src/h100_portal_api/cli.py:2934-3335 | so after the compensation a batch is refused while that operation is as it was left |
| `GpuUpgradeProofs.StartEachKeeps` | portal/apps/api/src/h100_portal_api/cli.py:3241-3314 | starts change only the containers on their list, only by starting them |
| `GpuUpgradeSession.Session.RollbackCompleted` | portal/apps/api/src/h100_portal_api/cli.py:2829-2931 | the loop, latest first, with its exit by exception, follows the model and returns the unresolved |
| `GpuUpgradeSession.Session.UpgradeAllContainersToGpu` | portal/apps/api/src/h100_portal_api/cli.py:2934-3335 | the running saga follows the model and is atomic |
| `ProvisionReconciliation.AllOrNone` | portal/apps/api/src/h100_portal_api/provision_reconciliation.py:316-417 | either all five reservations are released, on a clean verification, or none changes |
| `ProvisionReconciliation.SuccessIsIdempotent` | portal/apps/api/src/h100_portal_api/provision_reconciliation.py:261-313 | success is recognized: a second run verifies at once, unchanged, whatever the Worker would say |
| `ProvisionReconciliation.ManualReviewStaysEligible` | portal/apps/api/src/h100_portal_api/provision_reconciliation.py:216-258 | manual review keeps plan and stage eligible and the reservations held |
| `ProvisionReconciliation.ReviewThenSuccess` | portal/apps/api/src/h100_portal_api/provision_reconciliation.py:316-417 | a clean verification after a manual review succeeds |
| `ProvisionReconciliation.AllAbsentExactly` | portal/apps/api/src/h100_portal_api/provision_reconciliation.py:117-184 | the verification is positive exactly on a fully positive reply and an empty portal |
| `ProvisionReconciliation.OneOfEachType` | portal/apps/api/src/h100_portal_api/provision_reconciliation.py:216-258 | the rows of a bound plan are one of each resource type |
| `ProvisionBindings.ReleasesExactly` | portal/apps/api/src/h100_portal_api/provision_reconciliation.py:216-417 | reservations are released if and only if plan, request and latest stage say that the attempt failed, its five reservations are listed and still held, the Worker confirms in every field that nothing is left, and the portal has no identity |
| `ProvisionBindings.RowsBoundExactly` | portal/apps/api/src/h100_portal_api/provision_reconciliation.py:216-258 | the rows are bound to the plan if and only if the payload lists exactly the plan's rows, one of each type, with the planned values, request and account |
| `ProvisionBindings.StageIsLatest` | portal/apps/api/src/h100_portal_api/provision_reconciliation.py:187-213 | the stage is the latest failed provisioning operation of the request that was made for the plan, if there is one |
| `ProvisionBindings.PortalResidueExactly` | portal/apps/api/src/h100_portal_api/provision_reconciliation.py:74-95 | the portal names exactly what it still holds under the account's identity, each thing once |
| `ProvisionBindings.ReleaseRecords` | portal/apps/api/src/h100_portal_api/provision_reconciliation.py:385-417 | a release frees each row of the plan as of now and changes no other row |
| `ProvisionBindings.VerificationIsRecorded` | portal/apps/api/src/h100_portal_api/provision_reconciliation.py:340-417 | each verification is recorded on the stage with its outcome; a stage without side effects keeps that classification, any other becomes partial once it is rolled back |
| `ProvisionBindings.VerificationTells` | portal/apps/api/src/h100_portal_api/provision_reconciliation.py:117-184 | what is recorded are the reply's lists, entries cut to 128 characters, with a mark where a list is missing |
| `ProvisionBindings.SilenceTells` | portal/apps/api/src/h100_portal_api/provision_reconciliation.py:117-184 | without an answer nothing is verified, and the client's error stands for what is not known |
| `ProvisionReconciliation.ReconcileKeepsConstraints` | portal/apps/api/src/h100_portal_api/models.py:632-643 | the reservation lifecycle and the unique active keys are kept |
| `ProvisionQueue.QueueFollowsOutcome` | portal/apps/api/src/h100_portal_api/provision_reconciliation.py:420-447 | success takes the plan off the queue, manual review keeps it there, and otherwise nothing changes |
| `ProvisionQueue.OtherPlansUntouched` | portal/apps/api/src/h100_portal_api/provision_reconciliation.py:420-447 | another plan stays on or off the queue |
| `ProvisionQueue.RunKeepsConstraints` | portal/apps/api/src/h100_portal_api/provision_reconciliation.py:450-464 | over any batch the constraints hold and other plans stay on or off the queue |
| `ProvisionQueue.BatchReachesExactly` | portal/apps/api/src/h100_portal_api/provision_reconciliation.py:420-464 | a pending plan is attempted by a batch if and only if fewer than `limit` pending plans come before it by age and identifier and no attempt on them, made alone, raises |
| `ProvisionQueue.TallyTellsOutcomes` | portal/apps/api/src/h100_portal_api/provision_reconciliation.py:450-464 | a batch counts the attempts that verified and those left to manual review, and is cut short if and only if the last one raised |
| `ProvisionQueue.AttemptSpares` | portal/apps/api/src/h100_portal_api/provision_reconciliation.py:316-417 | attempting one plan leaves stage and reservations of every other as they were |
| `ProvisionStarvation.NeverVerifiesExactly` | portal/apps/api/src/h100_portal_api/provision_reconciliation.py:316-360 | a pending plan never succeeds, whatever the Worker answers, if and only if it is not eligible or the portal itself still holds something |
| `ProvisionStarvation.StuckStays` | portal/apps/api/src/h100_portal_api/provision_reconciliation.py:316-417 | such a plan stays pending and never succeeds, whatever is attempted |
| `ProvisionStarvation.StuckStarve` | portal/apps/api/src/h100_portal_api/provision_reconciliation.py:420-464 | behind `limit` such plans or more no series of batches ever attempts a plan |
| `ProvisionStarvation.FamilyStarves` | portal/apps/api/src/h100_portal_api/provision_reconciliation.py:420-464 | for every n a store within the constraints in which n eligible plans with a portal residue keep a plan that a clean answer would settle from every batch of n or fewer |
| `ProvisionSession.Session.Reconcile` | portal/apps/api/src/h100_portal_api/provision_reconciliation.py:316-417 | the updates of stage and reservations follow the model |
| `ProvisionSession.Session.ProcessPending` | portal/apps/api/src/h100_portal_api/provision_reconciliation.py:450-464 | the batch is picked by age, identifier and limit, and the loop follows the model with its counters and keeps the constraints |
| `ArchiveAudit.EscapedExactly` | portal/deploy/scripts/web_artifact.py:122-137 | `escaped` if and only if some prefix of the target climbs above the archive root |
| `ArchiveAudit.NormalFormReached` | portal/deploy/scripts/web_artifact.py:122-137 | otherwise the result is a dot-free form reached by cancelling names with the `..` after them |
| `ArchiveAudit.NormalFormUnique` | portal/deploy/scripts/web_artifact.py:122-137 | and the only one |
| `ArchiveAudit.JoinRoundTrip` | portal/deploy/scripts/web_artifact.py:114-119 | joined path components read back as themselves |
| `ArchiveAudit.NormalizedReadsBack` | portal/deploy/scripts/web_artifact.py:114-119 | the recorded name of a clean member has the components of its name |
| `ArchiveAudit.NoDuplicatesExactly` | portal/deploy/scripts/web_artifact.py:172-173 | no duplicate is reported if and only if the names are unique |
| `ArchiveAudit.AuditArchive` | portal/deploy/scripts/web_artifact.py:140-223 | the audit passes if and only if names are unique, kinds supported, paths relative, traversal-free and inside the release, and every link is relative and resolves to a member |
| `ArchiveAudit.FindingsExactly` | portal/deploy/scripts/web_artifact.py:158-202 | a finding of any kind is reported if and only if some member meets its condition, stated without the audit's passes |
| `ArchiveAudit.NothingFoundExactly` | portal/deploy/scripts/web_artifact.py:221-223 | nothing is reported if and only if the archive is clean |
| `ArchiveAudit.OutsideRootExactly` | portal/deploy/scripts/web_artifact.py:166-167 | a member is reported as outside the root if and only if the first component of its name is not `.next` |
| `ArchiveAudit.InsideExactly` | portal/deploy/scripts/web_artifact.py:166-167 | the test on the normalized text is that test on the name's first component |
| `ArchiveAudit.ComponentsAroundSlash` | portal/deploy/scripts/web_artifact.py:114-119 | the components of two texts joined by a slash are those of both |
| `ArchiveAudit.ComponentAlone` | portal/deploy/scripts/web_artifact.py:114-119 | and a text without a slash is one component, or none if it is empty or a dot |
| `ArchivePaths.PassesExactly` | portal/deploy/scripts/web_artifact.py:140-223 | the audit passes if and only if every member and every link is good, told in components alone: under `.next`, free of `..`, unique, and each link's walk ending at a member |
| `ArchivePaths.NameOfMemberLiesInside` | portal/deploy/scripts/web_artifact.py:158-170 | in a passing archive the first component of every member is `.next` |
| `ArchivePaths.LinksLeadInside` | portal/deploy/scripts/web_artifact.py:174-202 | and of everything that links lead to |
| `ArchivePaths.EscapingExactly` | portal/deploy/scripts/web_artifact.py:122-137 | what the counters call absolute and escaping, told from target and base |
| `ArchivePaths.CountersExactly` | portal/deploy/scripts/web_artifact.py:176-202 | the four counters are the numbers of such links of each kind |
| `ArchiveAudit.DuplicateExactly` | portal/deploy/scripts/web_artifact.py:172-173 | a name is reported as a duplicate if and only if two members have it |
| `ArchiveAudit.ResolveArchiveLink` | portal/deploy/scripts/web_artifact.py:122-137 | the loop that pushes and pops `base` computes the resolved path and the escape |
| `ArchiveAudit.AuditMembers` | portal/deploy/scripts/web_artifact.py:158-170 | the first pass records every normalized name and the findings of each member, in order |
| `ArchiveAudit.AuditLinks` | portal/deploy/scripts/web_artifact.py:176-202 | the second pass reports the finding of each link, in order, and its four counters |
| `ArchiveAudit.LinksStayInside` | portal/deploy/scripts/web_artifact.py:174-202 | in a passing archive, following links lexically, as the audit resolves them, any number of times stays within the members |
| `ArchiveAudit.CleanLinkTarget` | portal/deploy/scripts/web_artifact.py:122-137 | a clean link's target is the name of a member inside the release |
| `ArchiveOnDisk.PhysicalIsLexical` | portal/deploy/scripts/web_artifact.py:122-137 | walking on disk, symlinks on the way followed, ends where the audit's resolution ends and escapes where it escapes, if no name on the way but the last is a symlink member |
| `ArchiveOnDisk.CleanLinkLands` | portal/deploy/scripts/web_artifact.py:174-202 | such a link of a passing archive leads on disk to the member that the audit resolved |
| `ArchiveOnDisk.LinksStayInsideOnDisk` | portal/deploy/scripts/web_artifact.py:174-202 | if no link's way meets a symlink, following links on disk any number of times stays within the members of a passing archive |
| `ArchiveOnDisk.LinksLeadInsideOnDisk` | portal/deploy/scripts/web_artifact.py:174-202 | and the first component of every place that they lead to is `.next` |
| `ArchiveOnDisk.PassingArchiveLeadsOutside` | portal/deploy/scripts/web_artifact.py:174-202 | for any names: an archive that passes with a link that leads above the place of unpacking on disk |
| `SshKeys.ReadExactly` | portal/apps/web/lib/ssh-key.ts:75-90 | reading a field succeeds exactly where an encoded field lies, and returns it and its end |
| `SshKeys.BrowserAcceptsExactly` | portal/apps/web/lib/ssh-key.ts:105-133 | the browser accepts exactly the encodings of legal fields with nothing trailing |
| `SshKeys.ValidatorsAgree` | portal/apps/api/src/h100_portal_api/ssh_keys.py:58-97 | browser and server accept the same blobs of the known key types |
| `SshKeys.ValidatorsAgreeExactly` | portal/apps/api/src/h100_portal_api/ssh_keys.py:58-97 | and for which type names they differ at all |
| `SshKeyLayouts.Ed25519Layout` | portal/apps/web/lib/ssh-key.ts:105-113 | an Ed25519 blob is accepted if and only if it has 51 bytes and begins with 19 fixed ones |
| `SshKeyLayouts.EcdsaLayout` | portal/apps/web/lib/ssh-key.ts:114-124 | a P-256 blob if and only if it has 104 bytes and begins with 40 fixed ones |
| `SshKeyLayouts.SkLayout` | portal/apps/web/lib/ssh-key.ts:125-133 | a security-key blob if and only if it begins with 34 fixed bytes and 32 of the key, and an application of 1 to 16384 bytes fills the rest |
| `SshKeyLayouts.ServerVerdictExactly` | portal/apps/api/src/h100_portal_api/ssh_keys.py:58-97 | the code of the server's verdict, told from the name with which the blob begins |
| `SshKeys.Uint32RoundTrip` | portal/apps/web/lib/ssh-key.ts:41-45 | four bytes written big-endian read back as the number |
| `SshKeys.ReadAllExactly` | portal/apps/api/src/h100_portal_api/ssh_keys.py:43-55 | a blob reads as a list of fields if and only if it is their concatenated encoding |
| `SshKeys.PublicBlobRoundTrip` | portal/apps/web/lib/ssh-key.ts:135-137 | the blob of any 32-byte key is accepted and decodes back |
| `SshKeys.PublicBlobBuffer` | portal/apps/web/lib/ssh-key.ts:30-50 | the buffers filled in place hold exactly that blob |
| `SshKeys.ConcatBytes` | portal/apps/web/lib/ssh-key.ts:30-39 | the two loops fill a buffer with the concatenation |
| `SshKeys.ValidateBlob` | portal/apps/web/lib/ssh-key.ts:105-133 | the walk over `offset` decides acceptance |
| `RateLimiter.LimiterRefinesHistory` | portal/apps/api/src/h100_portal_api/auth.py:70-88 | for a nondecreasing clock and cuts that never move back per key, whatever the windows, every answer is that of a full-history count, eviction included |
| `RateLimiter.WindowsThatDoNotGrow` | portal/apps/api/src/h100_portal_api/auth.py:70-88 | so it is for constant or shrinking windows |
| `RateLimiter.PoppedCountsExactly` | portal/apps/api/src/h100_portal_api/auth.py:78-80 | a queue that has forgotten n events counts like the history if and only if the latest of them is not after the cut |
| `RateLimiter.AnswerWrongExactly` | portal/apps/api/src/h100_portal_api/auth.py:76-83 | a call is answered wrongly if and only if its cut lies before a forgotten event and the limit lies between the two counts, and then it is admitted |
| `RateLimiter.AnswerRefines` | portal/apps/api/src/h100_portal_api/auth.py:76-88 | one call answers and records as the history does |
| `RateLimiter.NoWindowExceedsLimit` | portal/apps/api/src/h100_portal_api/auth.py:70-88 | with one limit and window for a key, and any for the others, no window of that length ever holds more than `limit` of the calls that the table itself admits |
| `RateLimiter.AdmitsExactly` | portal/apps/api/src/h100_portal_api/auth.py:75-83 | with one limit and window for a key, a call is admitted if and only if fewer than `limit` of the key's own admissions lie in the window up to it |
| `RateLimiter.SweepExactly` | portal/apps/api/src/h100_portal_api/auth.py:84-87 | a key is deleted if and only if there are more than 4096, it is among the first 512 and its queue is empty |
| `RateLimiter.SweepKeeps` | portal/apps/api/src/h100_portal_api/auth.py:84-87 | deleting empty keys forgets no event of any key |
| `RateLimiter.PositiveLimitsNeverEvict` | portal/apps/api/src/h100_portal_api/auth.py:84-87 | over any run of calls with positive limits the table ends with every key called, in order of first use |
| `RateLimiter.EmptyQueueExactly` | portal/apps/api/src/h100_portal_api/auth.py:76-83 | a call leaves an empty queue if and only if its limit is not positive and nothing lies in its window |
| `RateLimiter.GrowingWindowForgets` | portal/apps/api/src/h100_portal_api/auth.py:78-82 | three calls with a growing window whose last answer differs from the history's |
| `RateLimiter.SlidingRateLimiter.Allowed` | portal/apps/api/src/h100_portal_api/auth.py:75-88 | the loops over queue and keys compute the answer and the new table |
| `InputChunks.Chunks` | portal/apps/web/components/WebTerminal.tsx:60-77 | the loop computes the greedy split: concatenating to the input, no chunk empty, the UTF-8 bytes of each within the bound unless it is a single character |
| `InputChunks.GreedyIsLegal` | portal/apps/web/components/WebTerminal.tsx:60-77 | the chunks concatenate to the input, none is empty, and none but a single too-long character exceeds the bound |
| `InputChunks.WithinBound` | portal/apps/web/components/WebTerminal.tsx:60-77 | with a bound of at least 4 every chunk is within it |
| `InputChunks.Utf8ReadsBack` | portal/apps/web/components/WebTerminal.tsx:60-77 | a character's size is the number of its UTF-8 bytes (section 3 of RFC 3629), which read back as the character |
| `InputChunks.SizeIsBytes` | portal/apps/web/components/WebTerminal.tsx:60-77 | a text's size is the number of its UTF-8 bytes |
| `InputChunks.Utf8TextDetermines` | portal/apps/web/components/WebTerminal.tsx:60-77 | and the bytes determine the text |
| `InputChunks.GreedyIsOptimal` | portal/apps/web/components/WebTerminal.tsx:60-77 | no legal split of the input has fewer chunks |
| `InputChunks.SuffixNeedsNoMore` | portal/apps/web/components/WebTerminal.tsx:60-77 | a suffix never needs more chunks than the whole |
| `InputChunks.RunIsGreedy` | portal/apps/web/components/WebTerminal.tsx:60-77 | the loop's running chunk and size compute the greedy split |

## Left out

- TerminalScreen.TerminalScreen.Feed: inputs with a negative `H` or `f` parameter are excluded from the first such step on, because the code then indexes a row that does not exist; which steps these are is proved exactly.
- TerminalScreen.TerminalScreen.Consume: excludes the final character of a negative `H` or `f`, for the same reason.
- TerminalScreen.TerminalScreen.Csi: excludes a negative `H` or `f`, for the same reason.
- TerminalScreen.TerminalScreen.Resize: a resize that leaves the grid (a saved cursor outside, or a main screen set aside at the old size) is modelled on values only; exactly when that happens is proved.
- Number.parseInt beyond 2^53 is modelled without rounding; the result is clamped to the screen in every use but a negative one.
- Lone surrogates, wide and combining glyphs: a character is one code point and one cell, as in the code.
- The saga's database session, object versions and audit events; a commit is the update of the modelled rows.
- Worker replies are modelled by the fields the code reads; malformed evidence in stored JSON, and values of unexpected types inside it, are not part of this model, beyond the malformed replies that the saga's theorems name.
- Lease jobs, storage quotas and the host side of SSH access; only the fields that decide leases, environment, container and keys are kept.
- Each transaction sees one instant; only a cleanup has a separate time of recording. Two scans of one batch may take different times.
- Restore and activation after recycling, and job approval, are not part of this model.
- The order in which equal rows come out of a query is the order of insertion; what a lease batch reaches is proved for every order of equal expiries.
- Database errors other than the refused second successor and the refused duplicate key are not part of this model.
- The sorting of residue lists and the wording of archive findings: a finding is its kind and its member.
- Lock acquisition in the limiter: calls are serial.
- Unpacking: `ArchiveOnDisk` follows symlinks over an archive whose directories exist; overwriting, hard links to symlinks and what lies outside are not part of this model.
- A reply too deeply nested to be read is modelled for the GPU upgrade, where batch and compensation treat it differently; elsewhere it counts as one that cannot be decoded.
- Hashing, base64, key generation, tar and file access are foreign code; the models start from bytes, names and link targets.
- React pages, API plumbing, permissions, migrations and message texts have no effect on the properties.
