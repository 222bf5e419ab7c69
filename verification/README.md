# KDBG: a verified model of its evidence formats, checks and protocols

KDBG is a Windows memory workbench together with a Python tool that decides whether a release and its
live evidence are acceptable. This project models the parts of both that carry the hard logic and
proves what they guarantee, for every input, every call history and every interleaving of threads.

| module | models |
|---|---|
| `GifLzw`, `GifStream` | the GIF LZW decoder with its growing dictionary, its dictionary-free meaning, exactly which streams it accepts, and the greedy encoder of Appendix F of the GIF89a specification |
| `GifGrammar`, `GifFile` | the GIF container as bytes, and the validator that walks it |
| `Msf`, `MsfLayout`, `MsfFile` | the MSF 7.0 reader that rebuilds streams from scattered blocks, the bytes of every layout it accepts, and a writer for every placement |
| `PageWalk` | the checker of a recorded 4- or 5-level page walk, against the walk of section 4.5 of the Intel SDM, volume 3A |
| `Crc32`, `EvidencePattern`, `EvidenceBundle` | the page checksum, the fixed 8-byte edit and its three checks, the dirty runs, and the export and validation of the six pages |
| `EditHistory`, `PageSession` | the physical page transaction: local edits with undo and redo, one-shot apply, independent reload, rollback, and the evidence they leave |
| `PeHeader` | "equal except for the loader-written ImageBase", in the exporter and in the validator |
| `PointerScan` | the pointer-scan panel and its workers |
| `WatchBatch`, `WatchRows`, `WatchCycle`, `WatchRuns` | the watch and freeze batches of the process scanner, what its rows show, a cycle of batches, and three concrete runs |
| `Lifecycle` | deferred driver-lifecycle transitions and write gates of the main window |
| `Telemetry`, `CasMax` | one telemetry session, and the compare-and-swap maximum |
| `Disassembly` | the decode loop of the disassembler |
| `Bytes`, `Wrappers` | bytes, bit strings read low bit first, `Option` |

Loops and updating methods of the source are loops and methods here, each tied by its `ensures` to a
function or a predicate; the properties are then proved of that function or predicate. The classes carry
a `Valid()` that holds the invariant of all their histories, and every method keeps it. Concurrent code
is a state machine: an event is one atomic step of one thread, a blocking call is enabled only when it
can return, and a theorem about every sequence of enabled events is one about every interleaving.

## What was found

- The page-walk checker never compares two recorded entries with the same address. It therefore accepts
  records that no memory can hold (`PageWalk.UnholdableRecordAccepted`); some memory holds an accepted
  record exactly when repeated addresses carry equal values (`PageWalk.HeldIffConsistent`).
- After a batch worker failed closed and before the poll that consumes its outcome, another entry, still
  shown unfrozen, can be frozen; the poll revokes authorization but leaves that entry frozen
  (`WatchRuns.RefrozenSurvivesPoll`; in one frame, the worker finishes after the frame's own poll and
  before its freeze boxes are drawn). `WatchBatch.ConsumedUnsafeOutcomeFailsClosed` gives the exact
  condition.
- An entry removed between the end of a batch and its poll comes back: rows are copied by position, so the
  removed entry is shown and the listed one is not (`WatchRuns.RemovedEntryReappears`).
  `WatchRows.PollShowsTheList` gives the exact condition.
- A batch started before the previous outcome is polled covers the same entries again, and the older
  outcome is never consumed (`WatchRuns.FinishedBatchRepeats`, `WatchCycle.UnpolledBatchRepeats`).
- Complete page evidence does not say that the rollback succeeded: a rollback refused because somebody
  else had restored the page completes it as well (`PageSession.RestoredByOthers`). It succeeded if and only
  if the session then has nothing left to roll back (`PageSession.PhysicalPageSession.CompleteEvidence`).
- A rollback after an apply whose reply was lost may overwrite a page that the apply never wrote: if the
  kernel had refused it because others had changed the page, the recovery observes their page and puts the
  old baseline over it, and nothing the session holds can tell (`PageSession.LostReply`). A successful
  rollback restores memory if and only if memory held the baseline before the apply, and a caller who holds
  a read-back of the apply knows that it did (`PageSession.PhysicalPageSession.RestoredMemory`).
- The page session forgets an uncertain transaction when another apply is attempted before the page was
  observed (`PageSession.RecoveryForgotten`); what prevents it is that the panel then offers no unlock.
  `PageSession.PhysicalPageSession.Perform` says exactly which calls end a pending recovery. A rollback is
  never issued in that state (`PageSession.PhysicalPageSession.RollbackBaseline`).
- A service change requested while another transition is queued is dropped
  (`Lifecycle.RequestBehindAnotherLost`; `Lifecycle.RequestLostIff` gives the exact condition). Once accepted
  it is never silently lost (`Lifecycle.AcceptedChangeNeverLost`).
- A PE header whose ImageBase bytes overlap the offset field at 0x3C is rejected after the loader's own
  patch (`PeHeader.OverlapRejected`); `PeHeader.PatchedAccepted` is the exact condition.
- Guards proved unreachable: the room check for ImageBase (`PeHeader.RoomForImageBase`), the truncated
  block map and truncated stream checks of the MSF reader (`Msf.ParseMsfStreams`).

## Model

| member | source | states |
|---|---|---|
| `GifLzw.ValidateGifLzw` | src/tools/validate_release.py:1524-1583 | the dictionary decoder accepts exactly the payloads whose dictionary-free meaning (each code explained only by the codes since the last clear) has the wanted number of pixels, and fails with the same fault otherwise |
| `GifLzw.ReadCode` | src/tools/validate_release.py:1538-1547 | reads the number spelled by the next `codeSize` payload bits, low bit first, and moves the offset by that width; nothing is read, and the offset stays, when too few bits are left |
| `GifLzw.LookUp` | src/tools/validate_release.py:1565-1570 | the dictionary, with the rule for the code about to be entered, yields the dictionary-free string of every valid code and rejects every other code |
| `GifLzw.Grow` | src/tools/validate_release.py:1574-1579 | after a code the dictionary holds exactly the roots and the codes below the first free one with their meanings, and the width is the one the number of codes calls for |
| `GifLzw.TakeCode` | src/tools/validate_release.py:1565-1579 | one data code: its string is emitted and the state advanced, or the fault is the one the meaning prescribes |
| `GifLzw.LookupMeaning` | src/tools/validate_release.py:1565-1570 | a code is valid exactly when it is a key or is the next code after some code; both cases give the string the history assigns |
| `GifLzw.DictionaryGrows` | src/tools/validate_release.py:1574-1576 | adding "previous string plus first pixel" under the next code keeps the key set and every meaning exact |
| `GifLzw.DictionaryStays` | src/tools/validate_release.py:1574-1576 | after the first code of a segment, or with a full table, the unchanged dictionary is still exact |
| `GifLzw.WidthBounds` | src/tools/validate_release.py:1574-1578 | the next code never exceeds 4096 nor 2 to the width, the width stays between minimum + 1 and 12, and the end code always fits |
| `GifLzw.WidthStep` | src/tools/validate_release.py:1576-1578 | the width grows by one exactly when the next code reaches 2 to the width, and never past 12 |
| `GifLzw.ExpandPrefix` | src/tools/validate_release.py:1565-1576 | later codes never change what earlier codes stand for |
| `GifStream.PackedDecodes` | src/tools/validate_release.py:1549-1583 | every valid code stream, packed with its width changes and followed by anything, decodes to its meaning |
| `GifStream.AcceptedIsPacked` | src/tools/validate_release.py:1549-1583 | conversely, every accepted bit string begins with a packed valid stream whose meaning was the output |
| `GifStream.AcceptanceExact` | src/tools/validate_release.py:1524-1583 | a payload is accepted with a picture if and only if it begins with a packed, clear-led valid stream that stands for exactly that picture of the wanted size |
| `GifStream.GreedyMeaning` | src/tools/validate_release.py:1524-1583 | the greedy encoder's string table agrees with the decoder's dictionary at every step, so its codes are valid and stand for its input, whatever its clear policy |
| `GifStream.EmitIsPacked` | src/tools/validate_release.py:1574-1578 | the encoder's own running code width, counted from the codes its table hands out, is at every code the width the decoder reads |
| `GifStream.RoundTrip` | src/tools/validate_release.py:1524-1583 | for every minimum code size, every picture over that alphabet and every clear policy, the packed greedy encoding is accepted with exactly its pixel count and decodes to the picture |
| `GifGrammar.TakeChunksSound` | src/tools/validate_release.py:1610-1622 | sub-blocks that are read stand in the file as length-prefixed chunks closed by an empty one, and reading stops right behind them |
| `GifGrammar.TakeChunksComplete` | src/tools/validate_release.py:1610-1622 | every such run of sub-blocks is read back as its own chunks |
| `GifGrammar.TakeBlockExact` | src/tools/validate_release.py:1624-1664 | a control, extension or image block is found exactly where its bytes are |
| `GifGrammar.TakeBlocksExact` | src/tools/validate_release.py:1624-1685 | a file spells at most one block list up to its trailer, and the reader finds it if and only if there is one with nothing behind it |
| `GifFile.ConsumeSubBlocks` | src/tools/validate_release.py:1610-1622 | end offset and total payload of the sub-blocks, or failure exactly when they do not close inside the file |
| `GifFile.JoinSubBlocks` | src/tools/validate_release.py:1667-1673 | the concatenated chunks, in order |
| `GifFile.ReadExtension` | src/tools/validate_release.py:1632-1644 | a graphic control sets the pending delay, any other extension is skipped; failure exactly when no extension stands there |
| `GifFile.ReadImage` | src/tools/validate_release.py:1647-1675 | succeeds, ending right behind the block, exactly when an image stands there that is not empty, lies on the screen and decodes to its number of pixels |
| `GifFile.ReadBlocks` | src/tools/validate_release.py:1624-1690 | the tally of the block list, exactly when the list is well formed, every frame is good and the frame and duration limits hold; stopping early loses nothing |
| `GifFile.ParseGif` | src/tools/validate_release.py:1586-1697 | the summary of the animation the file spells, or failure |
| `GifFile.AcceptedIffAnimation` | src/tools/validate_release.py:1586-1697 | a file is accepted with a summary if and only if it is the bytes of a well-formed animation with that size, frame count and total delay |
| `GifFile.FileDeterminesAnimation` | src/tools/validate_release.py:1586-1697 | no two animations have the same file |
| `GifFile.EncodedFrameGood` | src/tools/validate_release.py:1647-1675 | a painted frame on the screen is good however its greedy encoding is cut into sub-blocks |
| `GifFile.PaintedAnimationAccepted` | src/tools/validate_release.py:1586-1697 | every animation of greedily encoded pictures within the limits is accepted with its own summary |
| `Msf.ReadSuper` | src/tools/validate_release.py:845-868 | accepts the superblock exactly under the format's signature, block-size, count, directory and map conditions |
| `Msf.ReadBlocks` | src/tools/validate_release.py:869-875 | gathers the blocks exactly when every number is below the block count; every read is in bounds |
| `Msf.HasDuplicates` | src/tools/validate_release.py:897-898 | true exactly when a block number repeats |
| `Msf.ReadEntries` | src/tools/validate_release.py:885-901 | the sizes and block lists, exactly when the cursor ends at the directory size and no list repeats a block |
| `Msf.ReadStreams` | src/tools/validate_release.py:903-917 | the streams of the entries, exactly when every listed block is below the block count |
| `Msf.ParseMsfStreams` | src/tools/validate_release.py:843-918 | succeeds exactly on the accepted files, and returns the stream of every directory entry |
| `Msf.StreamByte` | src/tools/validate_release.py:908-917 | byte j of a stream is byte j % bs of its block j / bs, and that read is inside the file |
| `MsfLayout.LaidOutReads` | src/tools/validate_release.py:843-918 | a file whose directory words describe two or more streams that begin their gathered blocks reads as exactly those streams |
| `MsfLayout.AcceptedIsLaidOut` | src/tools/validate_release.py:843-918 | conversely, the directory of every accepted file is the encoding of its own streams and block lists |
| `MsfFile.WrittenReads` | src/tools/validate_release.py:843-918 | every file in which signature, superblock words, block map, directory chunks and stream chunks stand at the offsets a layout gives reads as exactly those streams |
| `MsfFile.ReadsIffWritten` | src/tools/validate_release.py:843-918 | the reader returns given streams if and only if they stand in the file like that, in some layout |
| `MsfFile.BuildReads` | src/tools/validate_release.py:843-918 | for every placement of two or more streams and their directory in distinct blocks, the file built piece by piece holds them and reads as them |
| `MsfFile.StorableStreamsHaveFile` | src/tools/validate_release.py:856-864 | all streams whose directory fits a block map of one block have such a placement |
| `PageWalk.CheckPlace` | src/tools/validate_release.py:2058-2117 | no error exactly when the index is the address field of its level and the entry lies, aligned and in range, in its slot of the table before it |
| `PageWalk.CheckEntry` | src/tools/validate_release.py:2066-2108 | no error exactly when the recorded frame and flags are those of the entry value, which is present and not a large page |
| `PageWalk.CheckOwnership` | src/tools/validate_release.py:1971-2018 | no error exactly when the owner is the fixture's process and address, user-writable, unshared and 4 KiB, from a high-confidence page-table scan, with the physical address its frame and the frame not the probe's |
| `PageWalk.CheckHeader` | src/tools/validate_release.py:2024-2049 | no error exactly when the walk names the owner's process, address and frame, its base is an aligned table address and its effective permissions allow the fixture |
| `PageWalk.CheckLeaf` | src/tools/validate_release.py:2118-2137 | no error exactly when the last step is the owner's page-table entry and both permission triples are the and, and, or over all steps |
| `PageWalk.CheckPageTable` | src/tools/validate_release.py:1967-2137 | no error exactly when ownership, walk header, every step, the leaf and the effective permissions are consistent |
| `PageWalk.AcceptedRecordIsTheWalk` | src/tools/validate_release.py:1967-2137 | in every memory that holds the entries of an accepted record, the processor's walk from the recorded base maps the recorded address to the recorded frame through the recorded leaf, writable and user the conjunction and no-execute the disjunction over all 4 or 5 levels |
| `PageWalk.RecordedIndicesSpellAddress` | src/tools/validate_release.py:2056-2062 | the address of an accepted record is the recombination of its indices, and a fifth-level index is 0 |
| `PageWalk.HeldIffConsistent` | src/tools/validate_release.py:1967-2137 | some memory holds an accepted record if and only if steps with equal entry addresses carry equal values |
| `PageWalk.UnholdableRecordAccepted` | src/tools/validate_release.py:1967-2137 | a concrete accepted record that no memory holds |
| `PageWalk.RecordedWalkAccepted` | src/tools/validate_release.py:1967-2137 | the faithful record of every user-writable 4 KiB mapping through plain entries is accepted |
| `Crc32.ByteLoop` | src/app/ui/MainWindow.cpp:233-241 | the masked inner loop is eight bit steps |
| `Crc32.PageCrc32` | src/app/ui/MainWindow.cpp:230-243 | the checksum of the bytes, started and finished with all ones |
| `Crc32.ByteStepInjective` | src/app/ui/MainWindow.cpp:233-241 | a byte step never maps two registers to one |
| `Crc32.RunInjective` | src/app/ui/MainWindow.cpp:230-243 | nor do any number of them |
| `Crc32.BurstDetected` | src/app/ui/MainWindow.cpp:230-255 | two strings of equal length that differ, and only within four consecutive bytes, have different checksums |
| `Crc32.TableDriven` | src/app/ui/MainWindow.cpp:230-243 | the bitwise register equals the table-driven one of section 8 of RFC 1952 on every string |
| `Crc32.CrcAffine` | src/app/ui/MainWindow.cpp:230-243 | the checksum is affine over exclusive or |
| `Crc32.FixedDifference` | src/app/ui/MainWindow.cpp:230-243 | a fixed difference changes every checksum by one constant |
| `Crc32.CheckValue` | src/app/ui/MainWindow.cpp:245-247 | the standard check value |
| `EvidencePattern.ExporterAccepts` | src/app/ui/MainWindow.cpp:4302-4320 | true exactly when the pages differ by the mask at 0x100 and by nothing else |
| `EvidencePattern.ValidatorAccepts` | src/tools/validate_release.py:2611-2623 | the same relation, hence the same page pairs |
| `EvidencePattern.BareMetalAccepts` | src/tools/validate_release.py:3515-3523 | the same relation again |
| `EvidencePattern.DirtyRuns` | src/app/ui/MainWindow.cpp:4413-4431 | the maximal runs of differing bytes, in order, covering exactly the differing offsets |
| `EvidencePattern.RunsUnique` | src/app/ui/MainWindow.cpp:4413-4431 | two strings have only one such list |
| `EvidencePattern.SingleRun` | src/tools/validate_release.py:2857-2862 | the list is the single run (0x100, 8) exactly when the differing bytes are exactly the edited ones |
| `EvidencePattern.ExactEditHasSingleRun` | src/tools/validate_release.py:2857-2862 | an exact edit yields the run list the validator demands |
| `EvidencePattern.EditChangesCrc` | src/core/memory/ProbeEvidencePattern.h:9-11 | the edit changes the checksum of every page by one fixed nonzero constant |
| `EvidenceBundle.PageMatchesProbeCrc` | src/app/ui/MainWindow.cpp:249-255 | true exactly when page and probe are present and the checksum matches |
| `EvidenceBundle.MatchRulesOutBurst` | src/app/ui/MainWindow.cpp:249-255 | a page that matches the probe excludes every corruption of it within four consecutive bytes |
| `EvidenceBundle.ExportPhysicalEvidence` | src/app/ui/MainWindow.cpp:4248-4320 | exports exactly when the page is the fixture, all six pages and four probe records are there, writes are locked, a directory was found, all pages and checksums agree and the edit is exact; the run list is the maximal runs |
| `EvidenceBundle.ValidateRawPages` | src/tools/validate_release.py:2605-2634 | no error exactly when the pages and the pattern agree and every well-formed checksum field fits its page |
| `EvidenceBundle.PassIffExportable` | src/tools/validate_release.py:2605-2634 | with its checksum fields present a bundle passes exactly when the exporter would have written it |
| `EvidenceBundle.ExportedBundlePasses` | src/tools/validate_release.py:2605-2634 | every exported bundle passes the validator's page checks, lists the one demanded run, and its checksums differ by the edit's constant |
| `EditHistory.Undone` | src/core/memory/PhysicalPageSession.cpp:303-331 | an undo moves the last edit to the redo stack so that the page it came from is the one the rest of the stack made, and redoing leads where it did |
| `EditHistory.Redone` | src/core/memory/PhysicalPageSession.cpp:333-361 | a redo takes that back |
| `EditHistory.Forgotten` | src/core/memory/PhysicalPageSession.cpp:259-277 | dropping the oldest of too many edits keeps the stack true of a later start |
| `EditHistory.UndoingAll` | src/core/memory/PhysicalPageSession.cpp:303-331 | undoing every edit gives the page the history starts from |
| `EditHistory.RedoingAll` | src/core/memory/PhysicalPageSession.cpp:333-361 | redoing every undone edit gives the page before the first undo |
| `PageSession.Mismatches` | src/core/memory/PhysicalPageSession.cpp:198-202 | the differing offsets in order, none exactly when the pages are equal |
| `PageSession.PhysicalPageSession.Load` | src/core/memory/PhysicalPageSession.cpp:79-121 | a loaded page is one read just now, with nothing unlocked, pending or left to roll back |
| `PageSession.PhysicalPageSession.EditByte` | src/core/memory/PhysicalPageSession.cpp:230-291 | changes one byte, keeps the dirty map the difference and the undo stack true and bounded, and takes any unlock away; an offset out of range or a failed allocation changes nothing |
| `PageSession.PhysicalPageSession.Undo` | src/core/memory/PhysicalPageSession.cpp:303-331 | takes the last edit back onto the redo stack without moving either end of the history; its early exits never fire |
| `PageSession.PhysicalPageSession.Redo` | src/core/memory/PhysicalPageSession.cpp:333-361 | the inverse, within the same bound although it does not check it |
| `PageSession.PhysicalPageSession.UnlockForOneApply` | src/core/memory/PhysicalPageSession.cpp:378-401 | grants one unlock exactly for the loaded frame with something edited |
| `PageSession.PhysicalPageSession.ApplyAndVerify` | src/core/memory/PhysicalPageSession.cpp:423-566 | at most one write per unlock, of the working page over a baseline that was observed whole; success exactly when the whole page is reported written and read back as wanted and the gate closed; otherwise exactly what is left to roll back |
| `PageSession.PhysicalPageSession.ReloadPreservingRollback` | src/core/memory/PhysicalPageSession.cpp:123-221 | succeeds exactly on the verified page or, while recovery is pending, on any page, which it adopts as the one a rollback must expect |
| `PageSession.PhysicalPageSession.RollbackBaseline` | src/core/memory/PhysicalPageSession.cpp:568-699 | at most one write per unlock, of the page before the apply over the page last observed whole; while an uncertain transaction is unobserved the call changes nothing; success exactly when that page is reported back and the gate closed |
| `PageSession.PhysicalPageSession.RestoredMemory` | src/core/memory/PhysicalPageSession.cpp:423-699 | for every session under a kernel that writes only over the expected page, whatever others wrote at any time: no write replaced a page that had not been observed whole; every confirmed rollback, also after a lost reply, replaced the page it expected by the baseline of its apply, so memory is what it was before that apply if and only if it held the baseline then; a read-back of the apply in the evidence tells a caller that it did |
| `PageSession.PhysicalPageSession.Perform` | src/core/memory/PhysicalPageSession.cpp:73-699 | after any call on any session, recovery is pending if and only if the call left a transaction unknown, or it was pending and the call is not a load, a lost connection, a successful observation or an unlocked apply of an edited page that itself ends known; each call issues at most one write, and only by using up an unlock |
| `PageSession.LostReply` | src/core/memory/PhysicalPageSession.cpp:181-196 | a session in which the reply of the apply is lost and a later rollback succeeds; memory is restored exactly when the kernel had not refused the apply, on which nothing in the session depends |
| `PageSession.PhysicalPageSession.CompleteEvidence` | src/core/memory/PhysicalPageSession.h:42-48 | for every session with complete evidence: its apply was issued and reported, a rollback of it was issued, and that rollback succeeded if and only if nothing is left to roll back; then memory under an honest kernel is again the baseline, as before the apply |
| `PageSession.RecoveryForgotten` | src/core/memory/PhysicalPageSession.cpp:423-449 | a session that forgets a pending recovery because a second apply was attempted, with nothing observed in between |
| `PageSession.RestoredByOthers` | src/core/memory/PhysicalPageSession.h:42-48 | a session whose evidence is complete although its rollback was refused |
| `PeHeader.SpanExact` | src/app/ui/KernelExplorerPanel.h:21-63 | a span is computed exactly for the headers that meet one conjunction over their fields |
| `PeHeader.Read64` | src/app/ui/KernelExplorerPanel.h:96-108 | the little-endian 64-bit value, when eight bytes are there |
| `PeHeader.CompareLoadedPeHeaders` | src/app/ui/KernelExplorerPanel.h:75-141 | accepts exactly when both spans and offset fields agree, the live ImageBase is the module base and every other byte of the span is equal; returns offset and both base values |
| `PeHeader.AcceptedIsPatched` | src/app/ui/KernelExplorerPanel.h:75-141 | an accepted live header is the local one with its ImageBase bytes replaced by the little-endian module base |
| `PeHeader.PatchedAccepted` | src/app/ui/KernelExplorerPanel.h:75-141 | every live header, whatever follows its span, is accepted if and only if its span is the patched local one and the patch leaves the field at 0x3C unchanged |
| `PeHeader.PatchedApartAccepted` | src/app/ui/KernelExplorerPanel.h:75-141 | where ImageBase does not overlap that field, accepted means patched, both ways |
| `PeHeader.OverlapRejected` | src/app/ui/KernelExplorerPanel.h:75-141 | a concrete header that, patched to a kernel base, is rejected because the two overlap |
| `PeHeader.RoomForImageBase` | src/app/ui/KernelExplorerPanel.h:116-120 | the room check never fires |
| `PeHeader.TruncationStable` | src/app/ui/MainWindow.cpp:3063-3088 | a header cut to its span has the same span |
| `PeHeader.ExporterImpliesValidator` | src/tools/validate_release.py:2277-2336 | for trimmed MZ headers with an optional header of at least 68 bytes, exporter acceptance implies validator acceptance, with the same offset and base values |
| `PeHeader.ValidatorImpliesExporter` | src/tools/validate_release.py:2277-2336 | conversely, for headers of 256 to 4096 bytes with at least one section |
| `PointerScan.RunKeepsInv` | src/app/ui/PointerScanPanel.cpp:53-148 | every interleaving keeps the protocol invariant |
| `PointerScan.OneWorker` | src/app/ui/PointerScanPanel.cpp:83-148 | at most one worker is alive at any time |
| `PointerScan.PublishedIsCurrent` | src/app/ui/PointerScanPanel.cpp:77-148 | between UI operations a published result has the current generation and the process, target and options of the last Start; reading `running` false after a Start implies the result is published; without a standing Start nothing is |
| `PointerScan.NothingAfterReset` | src/app/ui/PointerScanPanel.cpp:45-61 | after a Reset nothing is published until another Start has spawned a worker |
| `PointerScan.QuietUntilSpawn` | src/app/ui/PointerScanPanel.cpp:53-148 | a quiet panel stays quiet in every run without a spawn |
| `PointerScan.JoinCanReturn` | src/app/ui/PointerScanPanel.cpp:53-75 | no deadlock: from every state of the invariant, steps of the worker alone let the UI's join return |
| `WatchBatch.RunKeepsInv` | src/app/ui/ProcessScannerPanel.cpp:355-620 | every interleaving of the batch worker with ticks, polls, cancels, stops and list edits keeps the batch invariant |
| `WatchBatch.ConsumedUnsafeOutcomeFailsClosed` | src/app/ui/ProcessScannerPanel.cpp:542-605 | a consumed outcome that met a failed frozen operation, or began frozen and was cancelled, leaves authorization revoked and the shown rows equal to the list, whatever edits came in between, with a frozen entry exactly when the worker had failed closed and the list holds one again; no entry was operated on after the first failed frozen one |
| `WatchBatch.LateCancelDisarms` | src/app/ui/ProcessScannerPanel.cpp:556-567 | a cancel the worker missed makes the poll itself disarm every entry |
| `WatchRows.RowsShowTheList` | src/app/ui/ProcessScannerPanel.cpp:568-573 | in every run each shown row is the list's entry at its place, unless an outcome was merged after a removal or load and nothing was republished since |
| `WatchRows.PollShowsTheList` | src/app/ui/ProcessScannerPanel.cpp:542-621 | a poll keeps that if and only if the outcome fails closed or its rows land on their own entries; without a removal or load since the batch began they do |
| `WatchRuns.RefrozenSurvivesPoll` | src/app/ui/ProcessScannerPanel.cpp:1073-1150 | a concrete run from a loaded table in which a second entry, frozen after the fail-close, is still frozen after the poll |
| `WatchRuns.RemovedEntryReappears` | src/app/ui/ProcessScannerPanel.cpp:1113-1120 | a concrete run in which a removed entry is shown again in place of the listed one |
| `WatchRuns.FinishedBatchRepeats` | src/app/ui/ProcessScannerPanel.cpp:899-906 | a concrete run to a finished, unpolled batch whose entries the next due tick covers again |
| `WatchCycle.CleanCycle` | src/app/ui/ProcessScannerPanel.cpp:392-420 | in every clean run, timed batches and manual refresh passes alike, the refreshed entries are exactly those below the cursor, once each and in order; the cursor is back at 0 after ceil(n / 64) batches with rows equal to the list |
| `WatchCycle.UnpolledBatchRepeats` | src/app/ui/ProcessScannerPanel.cpp:899-906 | a batch started over an unpolled outcome covers the same entries, and that outcome can no longer be consumed |
| `Lifecycle.TryLock` | src/app/ui/MainWindow.cpp:4469-4492 | authorization is revoked, each open gate is asked to close, and success means every call succeeded and every gate reports closed |
| `Lifecycle.MainWindow.FinishLockAllWrites` | src/app/ui/MainWindow.cpp:4469-4492 | keeps the window valid; success means every gate is closed and authorization revoked |
| `Lifecycle.MainWindow.FinishDisconnectProcess` | src/app/ui/MainWindow.cpp:3969-3995 | detaches unless the process gate cannot be closed |
| `Lifecycle.MainWindow.PollDeferredAction` | src/app/ui/MainWindow.cpp:3461-3531 | keeps the window valid; a lock request is cleared only by running the lock with no worker busy, and only the queued action is launched |
| `Lifecycle.EveryLaunchGuarded` | src/app/ui/MainWindow.cpp:3386-3546 | in every run at most one task is in flight, no task was launched with recovery pending, and every service change was launched with no backend worker busy, every gate closed and authorization revoked |
| `Lifecycle.QueuedChangeNeverLost` | src/app/ui/MainWindow.cpp:3386-3531 | in every run from a window with a queued service change, it stays queued with nothing launched up to the first cancel or poll on an idle backend; there it is cancelled, dropped because a lock failed, or launched |
| `Lifecycle.AcceptedChangeNeverLost` | src/app/ui/MainWindow.cpp:3386-3531 | so a service change accepted in any run is launched, cancelled, dropped by a failed lock, or still queued |
| `Lifecycle.RequestLostIff` | src/app/ui/MainWindow.cpp:3386-3427 | a requested service change leaves no trace in any later course of events if and only if a lifecycle was busy, recovery was pending or another transition was queued |
| `Lifecycle.RequestBehindAnotherLost` | src/app/ui/MainWindow.cpp:3423-3427 | a concrete run: a change requested behind a queued detach is launched by no poll |
| `Lifecycle.MainWindow.TakeLifecycle` | src/app/ui/MainWindow.cpp:3511-3531 | the queued change leaves the queue and is launched exactly when every lock call succeeds and every gate reports closed, on the devices so left |
| `Lifecycle.AcceptedChangeLaunches` | src/app/ui/MainWindow.cpp:3386-3531 | an accepted service change is in flight after one poll whose locks succeed, with gates closed and authorization revoked |
| `Lifecycle.QueuedLifecycleOutcome` | src/app/ui/MainWindow.cpp:3461-3531 | in every run a queued service change stays queued while workers are busy, is launched when the lock succeeds and is dropped only when it fails |
| `Lifecycle.ServiceChangeOnlyByPoll` | src/app/ui/MainWindow.cpp:3386-3546 | a service change is launched by no other step than a poll that takes it off the queue |
| `Lifecycle.LockRequestClearedOnlyByLock` | src/app/ui/MainWindow.cpp:3461-3465 | a lock request disappears only in a poll that runs the lock with no backend worker busy |
| `Lifecycle.NoRecoveryWhileQueued` | src/app/ui/MainWindow.cpp:2429-2443 | recovery is never pending while a service change is queued |
| `Telemetry.PerformanceTelemetry.RecordFrame` | src/app/PerformanceTelemetry.cpp:344-355 | keeps frame, interval, maximum and stall counters those of all intervals reported, the doubly counted frame included |
| `Telemetry.PerformanceTelemetry.RecordFrameInterval` | src/app/PerformanceTelemetry.cpp:357-368 | keeps maximum and stall counters those of all intervals reported |
| `Telemetry.PerformanceTelemetry.BeginProcessScanAt` | src/app/PerformanceTelemetry.cpp:376-391 | returns an id no scan had, the number of scans begun, and makes it the active one |
| `Telemetry.PerformanceTelemetry.FinishProcessScanAt` | src/app/PerformanceTelemetry.cpp:452-538 | keeps outcome counters, totals, latency maximum and record window those of all scans finished; a stale id changes nothing |
| `Telemetry.PerformanceTelemetry.Tally` | src/app/PerformanceTelemetry.cpp:485-526 | the tallies of any list of scans become those of the list with one more |
| `Telemetry.PerformanceTelemetry.Retain` | src/app/PerformanceTelemetry.cpp:528-536 | the window over any list of scans, its newest ones up to the limit, becomes that of the list with one more |
| `Telemetry.PerformanceTelemetry.SessionConserves` | src/app/PerformanceTelemetry.cpp:344-538 | for every object after every history of calls: started = succeeded + partial + failed + cancelled + superseded + active; retained ids strictly increase, lie above every evicted id and below the active and the next one; the window is full once anything was evicted; stalls <= intervals <= frames |
| `Telemetry.ReplayKeeps` | src/app/PerformanceTelemetry.cpp:376-538 | every history of calls leaves each begun scan finished, overtaken or active, with ids that number the begun ones |
| `CasMax.NeverDecreases` | src/app/PerformanceTelemetry.cpp:31-42 | with any number of threads and spurious failures the destination never decreases and always holds the initial value or a candidate |
| `CasMax.EndsAtMaximum` | src/app/PerformanceTelemetry.cpp:31-42 | once all threads have finished it is the maximum of the initial value and all candidates |
| `CasMax.RunsToCompletion` | src/app/PerformanceTelemetry.cpp:31-42 | a thread left alone finishes in three accesses |
| `Disassembly.DecodeBytesDetailed` | src/app/disasm/ZydisDisassembler.cpp:91-212 | for every decoder: the instructions tile the consumed bytes in order with contiguous addresses, each as long as the decoder says or a one-byte fallback exactly where it fails; fallback bytes are counted exactly, the cap holds, and truncated means bytes remain with the cap reached; failure exactly on empty input, address 0, cap 0 or a failed initialization |
| `Disassembly.EvidenceCoversRange` | src/app/ui/KernelExplorerPanel.cpp:85-128 | an evidence snapshot covers its whole requested range |
| `Disassembly.CapDecidesEvidence` | src/app/ui/KernelExplorerPanel.cpp:85-128 | a decode is refused as evidence exactly when the cap cut it short |

## Reading notes

- Integers are unbounded. Where the source's width matters it is written out: 32-bit sums in `PeHeader`,
  64-bit addresses in `Disassembly`, totals modulo 2^64 in `Telemetry`, bit vectors in `Crc32`. Counters
  of scans and frames, and generation numbers, are not wrapped: they would need 2^64 calls.
- `|=` of a shifted bit or byte into a value whose higher bits are clear is written as an addition.
- The power-of-two test of the MSF block size between 512 and 65536 is membership in that set of eight.
- The Python checks `zlib.crc32`; the model uses the same checksum as the C++ side.
- In `Telemetry` each call is one atomic step; `CasMax` opens up the one loop that is not.
- In `PageSession` the backend's answers are parameters; `HonestWrite` is what the kernel
  promises of a compare-and-write, and what a write did to memory is a ghost that no session field depends on.
- A blocked gate, a failing entry operation, a spurious exchange failure, the Zydis decoder and the stop
  token are parameters or event arguments, so theorems hold for all their answers.

## Left out

- Error messages, status texts, progress callbacks, logging and drawing: they carry no guarantee modelled here.
- JSON parsing and field-presence checks of the validator, document and layout checks, the commercial validator: independent tests without a common property.
- SHA-256, file access, certificates, crash dumps, log rotation and JSON output of telemetry: foreign calls.
- Error kinds of the MSF reader, the PE comparison and the GIF container: one failure value each; the LZW decoder keeps its five faults.
- `parse_pdb_identity`: three fixed fields of stream 1, an easy addition to `Msf.ParseMsfStreams`.
- The memory scanner, the pointer search, watch-table files, the process memory session and both drivers: only what their callers rely on is stated.
- The steps inside a lifecycle task, "Bring Lab Online" included, and the exception paths inside `FailCloseFreeze`: they rest on services outside the model.
- Lifecycle.EveryLaunchGuarded: makes no promise about `ConnectBackend` while recovery is pending, because the busy test covers only queued lifecycle actions.
- Lifecycle.AcceptedChangeNeverLost: the cancellation requests sent to the panels are not modelled; workers may become idle or busy at any time instead.
- WatchBatch.ConsumedUnsafeOutcomeFailsClosed: covers consumed outcomes only, because an unpolled outcome can be overwritten by the next batch.
- WatchBatch.RunKeepsInv: failure counters and error texts of entries are not modelled, and frames are not enforced, so its runs include all real ones and more.
- WatchCycle.CleanCycle: the list keeps its length and nothing fails or is cancelled during the cycle, and a finished batch is polled before the next.
- EvidenceBundle.ExportPhysicalEvidence: the tests behind "the page is the fixture", the hashes and the file writing are parameters or not modelled.
- Telemetry.PerformanceTelemetry.FinishProcessScanAt: a call is one step; the rejected configurations of a start, the writer thread and its files are not modelled.
- Telemetry.PerformanceTelemetry.SessionConserves: latency percentiles and wall-clock times are not modelled.
- PageSession.PhysicalPageSession.EditByte: the revision counter, which is only displayed, is not modelled.
- PeHeader.CompareLoadedPeHeaders: one failure value for all rejections.
- Disassembly.DecodeBytesDetailed: instruction text and mnemonics are not modelled, only addresses, bytes and the fallback mark.
