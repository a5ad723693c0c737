# Verified model of Kefir Hub's state and file logic

This project models the parts of Kefir Hub (the `sphaira` tree) and of its `hbl` loader that decide what is
written to a file, to a chip or to a map of memory, and proves what they promise. One module stands for one source
file or one side of it.

- `HashTree`, `NacpPatch`: the IVFC hash tree of a Control NCA, its repair in place after an edit, and the edit of
  the game restrictions. The section is an array, the hash a parameter with 32-byte results.
- `HeapRange`, `LoadNro`: the scan of the kernel's memory map for the longest usable run, and the size checks before
  it, with u64 additions that wrap. `svcQueryMemory` is a parameter; a theorem about the run asks for a map whose
  answers are blocks that hold the address asked for. `HEADER_SIZE` and the memory types and permissions are those
  of libnx.
- `TextPage`: the paged text reader, for lines of any length. The reads are a parameter that may return any non-empty
  short piece, or fail.
- `VFolders`, `VFolderView`, `VFolderText`: the folders a homebrew app is in, the view of a folder, and the file.
- `Ledger`, `LedgerRun`: the calibration ledger, its file, and the protocol of the systems that share one card and one
  gauge, any of which can die between its writes. A calibration is learned in one system, reported to the card, and
  copied from the gauge into the others.
- `Crc16`, `Cal0`: the CRC and the patch of the CAL0 image.
- `CalibLog`, `CalibState`, `CalibText`, `CalibRun`, `CalibOutcome`, `CalibHub`: the battery calibration wizard: what its log says,
  its marker and the marker's file, and the whole as a run over ticks, cut-offs, sleeps, restarts of the Hub and of
  the console, failed writes and lost log lines. `CalibRun` is the run on values,
  `CalibOutcome` says which page follows and what is saved, and that a cycle goes through, `CalibHub` the Hub's callbacks on
  fields, with the marker and the log as texts, each tied to a step of the run. The clock never goes back, and the
  wizard's own state file survives.
- `DrainScreen`: the brightness of a drain page and the file that gives the user's own back, one write at a time.
- `WizardTotals`: the cycles counted by the console's own total, in 32-bit numbers.
- `HopEntry`, `ZipTree`, `PathNorm`, `TitleName`, `TitleParts`: scanners proved against a definition by sections, by ancestors, by
  components and by characters (UTF-8 as in section 4 of RFC 3629).
- `Common`, `Text`: machine integers, lines, fields and decimal numbers.

Code that changes an object or a buffer is a class or a method on an array; a method's contract ties its result to a
function, and the theorems are about that function.

## Where the code does less than it says

Each of these is kept as the code has it, with the exact condition under which the promise holds.

- A line longer than the limit is cut into rows. Inside a page the byte that did not fit begins the next row
  (`TextPage.PageGoesOn`); it is lost exactly where the cut row is the last that belongs to its page. Chained pages of
  any sizes are the lines of the file exactly when every line fits, but for a `\r` that ends the file and is cut off at
  a page's end (`TextPage.ChainIsLinesExactly`).
- A folder id of ten digits is printed but not read back, and so is a `\r` at the end of a path
  (`VFolderText.RoundTrip`). A new folder gets such an id exactly where 999999999 is taken, and is gone after the next
  load with the records of its apps (`VFolderText.TenDigitsLost`, from the store of `VFolderText.LastIdTaken`); a run of
  operations can be saved and loaded at every point exactly without such a creation (`VFolderText.RunSurvivesExactly`).
- A new folder's id is new exactly when the two highest u32 ids are not both taken (`VFolders.NextIdIsNew`).
- The checks of `loadNro` alone do not put the start of the scan for the homebrew's heap behind the whole mapped file
  (`LoadNro.HeapClearsMapping`, `LoadNro.HeapInsideMapping`).
- A CAL0 image stays verified exactly when its certificate ends before the battery block or the version does not
  change (`Cal0.StaysVerifiedExactly`). An image outside that condition has a certificate that contains its own hash
  (`Cal0.UnclearCertHoldsItsHash`); no such image is known for SHA-256.
- A negative count in the marker reads back as 0 (`CalibText.RoundTrip`), and a ledger number above an int64 reads
  back at the limit (`Ledger.RoundTrip`).
- A report opened in a system that does not hold the calibration marks that system up to date, and no boot ever brings
  the calibration there (`LedgerRun.ReportElsewhere`, the run of `LedgerRun.LearnedHereReportedThere`). A boot while a
  calibration waits for its report copies the gauge on the word of the older one, so that one that did not pass can
  spread (`LedgerRun.BadOneCopied`). A step keeps the ledger's promises exactly when it is neither
  (`LedgerRun.StepExactly`), and a run all the way exactly when none of its steps is (`LedgerRun.EveryRun`).
- The Hub counts the cut-off of one boot a second time exactly where it starts again in that boot with the charger in
  and the log has a cut-off of the drain it began (`CalibRun.SameBootCountsOnce`).
- The screen can be given back from its file exactly as long as no drain page is opened over one that still
  changes the screen (`DrainScreen.SafeExactlyOverHarmless`).
- A directory name for MTP fits its limit exactly when that is at least 19, or 18 where there is no usable name
  (`TitleName.DirNameFits`); of malformed UTF-8 a refused character is kept exactly
  where a lead byte takes it along (`TitleName.SanitizedIsCleanExactly`).
- A second cycle redone at a total below the first one's 0.90, before the first has counted, lets one discharge count
  for both. The two counts stand on 1.80 discharged cycles in every run of the others, and a redo is among these
  exactly when every run after it keeps the promise (`WizardTotals.RedoSafeExactly`).

## Model

| member | source | states |
|---|---|---|
| `HashTree.HashBlock` | sphaira/include/nacp_patch.hpp:131-141 | the hash of the block's bytes of the section with zeros past the level's end; none exactly when the level has no such block or is out of bounds |
| `HashTree.RehashBlock` | sphaira/include/nacp_patch.hpp:149-161 | one block, for any levels: it succeeds exactly when block and parent slot exist (and agree, when verifying), and stores just the block's digest; in levels that are apart the slot is right afterwards and the others stay right |
| `HashTree.RehashLevel` | sphaira/include/nacp_patch.hpp:143-164 | one level, for any levels: the digests of the dirty blocks are stored in order up to the first that does not exist, only slots above dirty blocks change, verifying writes nothing; in levels that are apart every dirty block's slot is right afterwards |
| `HashTree.RehashMaster` | sphaira/include/nacp_patch.hpp:166-176 | the master digest is checked against both paddings, the whole top level and its first block with zeros, or stored with the one found before |
| `HashTree.Rehash` | sphaira/include/nacp_patch.hpp:121-177 | for any levels: verifying writes nothing and accepts exactly the sections whose dirty path agrees and whose master is the hash of the top level or of its zero-padded block; repairing stores level by level as far as the blocks exist, succeeds exactly when every dirty block can be climbed from, changes only slots above dirty blocks, stores the master over the padding found before, and in levels that are apart leaves all of them right |
| `HashTree.LayoutIsClimbable` | sphaira/include/nacp_patch.hpp:143-164 | in a sound layout no range inside the data level makes Rehash give up or leave the section |
| `HashTree.RepairRestoresTree` | sphaira/include/nacp_patch.hpp:121-177 | a whole valid tree, edited inside the dirty range only, is a whole valid tree again after the repair |
| `HashTree.TreeUnique` | sphaira/include/nacp_patch.hpp:121-177 | two valid trees with the same bytes outside the slots are the same bytes, masters included |
| `HashTree.PartialEqualsFull` | sphaira/include/nacp_patch.hpp:121-177 | repairing only the dirty range ends in exactly the bytes and the master of rehashing any wider range, the whole data level included |
| `HashTree.ValidTreeVerifies` | sphaira/include/nacp_patch.hpp:121-177 | a valid tree passes a later verify pass over any range of the data level |
| `HashTree.FullRehashBuildsTree` | sphaira/include/nacp_patch.hpp:121-177 | from any bytes at all, rehashing the whole data level of a tight layout builds a valid tree |
| `HashTree.WholeIsDirty` | sphaira/include/nacp_patch.hpp:143-164 | the whole data level makes exactly the whole of every level above dirty |
| `NacpPatch.Apply` | sphaira/include/nacp_patch.hpp:46-70 | each restriction byte is what was asked (video brings screenshots along, the other bits of the license stay, a picked user is never dropped), it reads back so, no other byte changes, and what is so already changes nothing |
| `NacpPatch.PatchSection` | sphaira/source/control_patch.cpp:117-127 | for any levels: a section that does not verify is not touched, and otherwise a changed one is the repair of the edited bytes; in a sound layout a valid tree stays valid around the edit, and the file is the edited one |
| `NacpPatch.RepairEdit` | sphaira/source/control_patch.cpp:125-127 | the repair after the edit keeps every byte of the edited file and makes the tree valid again |
| `HeapRange.BlockIsUniform` | hbl/source/env.c:209-229 | every page of a queried block is usable, inside the range, or none is |
| `HeapRange.ScanBlock` | hbl/source/env.c:208-253 | one block keeps the best closed run and the open run the longest and earliest seen so far |
| `HeapRange.AddBlock` | hbl/source/env.c:220-247 | a usable block extends or opens the run, clipped at both ends; any other closes it, and the longer, on a tie the earlier, is kept |
| `HeapRange.FindUsableHeapRange` | hbl/source/env.c:195-266 | for any consistent map: the result is the longest contiguous run of usable pages in the range, the earliest on ties, and there is none exactly when no page is usable; page-aligned and inside the range for any map |
| `HeapRange.FoundIsHeap` | hbl/source/env.c:208-253 | such a run is read-write heap memory without attributes, in whole pages, throughout, and the longest of it |
| `LoadNro.CheckSegment` | hbl/source/main.c:250-258 | a segment is accepted exactly when it lies inside the file, without the wrap of the u64 sum |
| `LoadNro.CheckSizes` | hbl/source/main.c:243-288 | the checks accept exactly the headers whose segments, data plus bss and whole image fit, and no accepted sum wraps |
| `LoadNro.OverrideHeap` | hbl/source/main.c:338-344 | the heap handed over lies inside the loader's heap, behind .data + .bss, and is the longest run there |
| `LoadNro.HeapClearsMapping` | hbl/source/main.c:283-344 | the start handed to the scan lies behind the whole mapped image exactly when the pages of data and bss, from the page data begins in, reach the image's last page |
| `LoadNro.HeapInsideMapping` | hbl/source/main.c:243-288 | an accepted header for which that start lies inside the mapped file |
| `TextPage.TakeByte` | sphaira/include/text_helper.hpp:326-368 | each byte read closes a line, grows the current row or cuts it and begins the next with the byte, and the logical end is caught at its row |
| `TextPage.FinishPage` | sphaira/include/text_helper.hpp:372-397 | the page shows exactly the next rows, with both end offsets, at the end of the file too |
| `TextPage.ReadPage` | sphaira/include/text_helper.hpp:288-398 | whatever the reads return and however long the lines are: the page shows exactly the next rows with the right numbers and end offsets, its logical end behind the logical rows where they are given, which are the next lines where all fit; the first rows of them on a failed read, and the clamped empty page past the end |
| `TextPage.ReadAll` | sphaira/include/text_helper.hpp:276-398 | chaining pages of any sizes at their logical ends gives the rows of the chain, numbered in order; where every line fits, the file's lines, each once |
| `TextPage.LinesSplit` | sphaira/include/text_helper.hpp:326-346 | the lines from the k-th line start are the lines behind the first k |
| `TextPage.RowsAreFittingLines` | sphaira/include/text_helper.hpp:326-368 | where every line fits, the rows are the lines and end where the next line begins |
| `TextPage.PageGoesOn` | sphaira/include/text_helper.hpp:348-366 | inside a page no byte is lost: behind any row it goes on with the byte that did not fit; a page that begins at a row's end loses one byte exactly when that row was cut |
| `TextPage.ChainIsLinesExactly` | sphaira/include/text_helper.hpp:348-366 | pages of any sizes, chained at their logical ends, show the file's lines exactly when every line fits, or only the file's final `\r` does not, at a page's end |
| `VFolders.Store.SetFolders` | sphaira/include/homebrew_vfolders.hpp:91-100 | an app's records are the given folders and no others; on the top level alone it has none |
| `VFolders.Store.Add` | sphaira/include/homebrew_vfolders.hpp:102-109 | the store after Add is the one the map of folders asks for |
| `VFolders.Store.Remove` | sphaira/include/homebrew_vfolders.hpp:111-116 | the same for Remove |
| `VFolders.Store.Move` | sphaira/include/homebrew_vfolders.hpp:118-126 | the same for Move |
| `VFolders.Store.CreateFolder` | sphaira/include/homebrew_vfolders.hpp:128-141 | a blank name and one with a tab or a line end give the root and change nothing; any other gives the id of the folder with that name, which is there already or comes last with an id above the others |
| `VFolders.Store.RenameFolder` | sphaira/include/homebrew_vfolders.hpp:143-158 | of distinct folders it succeeds exactly when the name is valid, the folder is there and no other has the name; then that folder has the name, and nothing else changes |
| `VFolders.Store.DeleteFolder` | sphaira/include/homebrew_vfolders.hpp:160-163 | exactly the folder and the records of it go |
| `VFolders.DoPlaces` | sphaira/include/homebrew_vfolders.hpp:102-163 | every operation does to the map from apps to non-empty sets of folders what its name says, an app left nowhere is on the top level, and no other app moves |
| `VFolders.NextIdIsNew` | sphaira/include/homebrew_vfolders.hpp:128-141 | the id of a new folder is taken exactly when the two highest u32 ids both are |
| `VFolders.DoKeepsWellFormed` | sphaira/include/homebrew_vfolders.hpp:72-163 | every operation keeps ids and names unique, records single and none dangling |
| `VFolders.RunRefinesMap` | sphaira/include/homebrew_vfolders.hpp:72-163 | every sequence of operations on any store refines the map for every app |
| `VFolders.RunKeepsWellFormed` | sphaira/include/homebrew_vfolders.hpp:72-163 | every sequence of operations with known targets keeps a sound store sound |
| `VFolderView.CountHit` | sphaira/include/homebrew_vfolders.hpp:172-188 | one folder of one app: into the list, and into the count and the preview of its column |
| `VFolderView.BuildView` | sphaira/include/homebrew_vfolders.hpp:165-190 | the apps are the paths in the folder in order, and each shown folder has its exact count and its first at most 9 apps in order |
| `VFolderView.HitsAreApps` | sphaira/include/homebrew_vfolders.hpp:165-190 | without duplicate records each app is listed and counted once |
| `VFolderView.AppsInOrder` | sphaira/include/homebrew_vfolders.hpp:165-190 | the listed apps are in the order of the paths, each once |
| `VFolderView.AppsAreMembers` | sphaira/include/homebrew_vfolders.hpp:165-190 | an app is listed in a folder exactly when the map puts it there |
| `VFolderView.TopLevelShowsAll` | sphaira/include/homebrew_vfolders.hpp:165-190 | every app is on the top level or in a folder shown there |
| `VFolderText.Format` | sphaira/include/homebrew_vfolders.hpp:192-202 | the folders' lines and then the members' |
| `VFolderText.OneFolderFile` | sphaira/include/homebrew_vfolders.hpp:192-202 | the file of one folder and one app in it, character by character |
| `VFolderText.Parse` | sphaira/include/homebrew_vfolders.hpp:204-240 | the store of the accepted lines: bad lines, taken ids and names and dangling members are dropped |
| `VFolderText.ParsedIsSound` | sphaira/include/homebrew_vfolders.hpp:204-240 | any text gives unique ids and names, absolute paths and no dangling member |
| `VFolderText.ReadsBackAs` | sphaira/include/homebrew_vfolders.hpp:192-240 | what any store with unique ids and valid names reads back as, order included: without the folders of ten-digit ids and their members, and without a `\r` at the end of a path |
| `VFolderText.RoundTrip` | sphaira/include/homebrew_vfolders.hpp:192-240 | printing then parsing is the identity exactly for the sound stores without a final `\r` in a path |
| `VFolderText.NextIdPrints` | sphaira/include/homebrew_vfolders.hpp:128-141 | where all ids are read back, a new folder's is exactly when 999999999 is not taken |
| `VFolderText.DoSurvivesExactly` | sphaira/include/homebrew_vfolders.hpp:102-240 | an operation leaves a store that saving and loading gives back exactly if it makes no folder where 999999999 is taken |
| `VFolderText.RunSurvivesExactly` | sphaira/include/homebrew_vfolders.hpp:102-240 | so does every run, at every point, exactly if none of its operations does |
| `VFolderText.FewCreationsPrint` | sphaira/include/homebrew_vfolders.hpp:128-141 | no run does with fewer creations than there are ids left above the highest |
| `VFolderText.TenDigitsLost` | sphaira/include/homebrew_vfolders.hpp:128-240 | the folder made where 999999999 is taken is gone after the next load with the records of its apps, and everything else is read back |
| `VFolderText.LastIdTaken` | sphaira/include/homebrew_vfolders.hpp:204-240 | a store with that id which the file gives back |
| `Ledger.Ledger.RecordCalibration` | sphaira/include/battery_cutoff.hpp:152-160 | the next number with its time, origin, model and verdict, and the origin's record alone |
| `Ledger.Ledger.RecordWritten` | sphaira/include/battery_cutoff.hpp:171-180 | the first record of the system gets the newest number and the time, or one is added; nothing else changes |
| `Ledger.Format` | sphaira/include/battery_cutoff.hpp:96-105 | the calibration's line, when there is one, and a line per record |
| `Ledger.FieldsAre` | sphaira/include/battery_cutoff.hpp:96-105 | the fields of both kinds of lines, in order |
| `Ledger.Parse` | sphaira/include/battery_cutoff.hpp:128-150 | the ledger of the lines that are whole |
| `Ledger.FileReads` | sphaira/include/battery_cutoff.hpp:96-150 | what a ledger with printable names reads back as |
| `Ledger.RoundTrip` | sphaira/include/battery_cutoff.hpp:96-150 | loading what was saved is the identity exactly when the names fit the format and the numbers an int64 |
| `LedgerRun.Console.Report` | sphaira/source/battery_calib_report.cpp:163-176 | the report's action writes the ledger and then the marker, or dies between the two; no system's copy changes |
| `LedgerRun.Console.ApplyLedger` | sphaira/source/battery_calib_report.cpp:216-236 | a boot copies the gauge exactly for a good calibration of this model that the system does not have, and then saves its record, or dies between the two; otherwise it does nothing |
| `LedgerRun.StepExactly` | sphaira/source/battery_calib_report.cpp:163-236 | a step keeps the promises (one record per system, none above the number, the number only where its calibration is, its facts true, nothing bad or of another model spread) exactly when a report is seen where the calibration is held, with its model, and a boot copies only what may be there |
| `LedgerRun.CarefulAtHome` | sphaira/source/battery_calib_report.cpp:163-236 | such is every report in the system where the calibration was learned, and every boot but while a calibration waits for its report |
| `LedgerRun.ReportElsewhere` | sphaira/source/battery_calib_report.cpp:163-173 | after a report in a system that does not hold the calibration, that system is called up to date and no boot ever brings it there |
| `LedgerRun.LearnedHereReportedThere` | sphaira/source/battery_calib_report.cpp:163-173 | the run: learned in one system, reported in another |
| `LedgerRun.BootBeforeReport` | sphaira/source/battery_calib_report.cpp:216-236 | a boot that copies what may not be there does so while a calibration waits for its report, and the system holds it |
| `LedgerRun.BadOneCopied` | sphaira/source/battery_calib_report.cpp:216-236 | the run: a calibration that did not pass is copied into another system before its report |
| `LedgerRun.EveryRun` | sphaira/source/battery_calib_report.cpp:163-236 | an interleaving of calibrations, reports, boots, failures and deaths from an empty card keeps the promises all the way exactly when each step is of that kind |
| `LedgerRun.NeverOlder` | sphaira/include/battery_cutoff.hpp:171-204 | in any run, careful or not, no system goes back to an older calibration |
| `LedgerRun.UpToDateHolds` | sphaira/include/battery_cutoff.hpp:190-204 | a system the ledger calls up to date holds its calibration, or a later one |
| `LedgerRun.CleanBoot` | sphaira/source/battery_calib_report.cpp:216-236 | one clean boot brings its system up to date exactly when the calibration is good and for its battery model |
| `LedgerRun.ReachesEverySystem` | sphaira/source/battery_calib_report.cpp:216-236 | after one clean boot of each system exactly the fitting ones, and those that were, are up to date, and where none waits for its report they hold the calibration |
| `Crc16.Compute` | sphaira/include/cal0_battery.hpp:34-44 | the nibble table computes the bit-serial reflected CRC-16, polynomial 0xA001, initial value 0x55AA, of every byte string |
| `Crc16.NibblesAreByte` | sphaira/include/cal0_battery.hpp:34-44 | two table steps are eight bit steps |
| `Crc16.BitStepUndone` | sphaira/include/cal0_battery.hpp:34-44 | a bit step is a bijection on the register |
| `Crc16.ByteStepInjective` | sphaira/include/cal0_battery.hpp:34-44 | so is a byte step |
| `Crc16.OneByteChangesCrc` | sphaira/include/cal0_battery.hpp:34-44 | two blocks of one length that differ in exactly one byte never share a CRC |
| `Crc16.Constants` | sphaira/include/cal0_battery.hpp:34-44 | the CRC of nothing is 0x55AA, and a one that is shifted out leaves 0xA001 |
| `Cal0.CompareHash` | sphaira/include/cal0_battery.hpp:71-92 | the compare loop agrees with equality of the stored hash |
| `Cal0.Verify` | sphaira/include/cal0_battery.hpp:94-99 | usable, both hashes and the block's CRC right |
| `Cal0.U32Bytes` | sphaira/include/cal0_battery.hpp:34-60 | the sizes are read with the low byte first |
| `Cal0.PatchBatteryVersion` | sphaira/include/cal0_battery.hpp:94-111 | an image that fails a check is not touched; otherwise it has the version, the block's CRC low byte first, and the body's hash, and every other byte it had |
| `Cal0.PatchTouchesOnly` | sphaira/include/cal0_battery.hpp:101-111 | only the version, the block's CRC and the body hash change |
| `Cal0.PatchStaysVerified` | sphaira/include/cal0_battery.hpp:94-111 | with the certificate clear of the block, a verified image stays verified |
| `Cal0.PatchUndone` | sphaira/include/cal0_battery.hpp:101-111 | patching back restores the image byte for byte |
| `Cal0.StaysVerifiedExactly` | sphaira/include/cal0_battery.hpp:94-111 | it stays verified exactly when the certificate is clear of the block or the version is the same |
| `Cal0.UnclearCertHoldsItsHash` | sphaira/include/cal0_battery.hpp:82-97 | a verified image whose certificate is not clear of the block has the certificate's hash inside the certificate |
| `CalibLog.Cutoffs` | sphaira/include/battery_calib_log.hpp:96-119 | the one-pass scan is the samples at 0 < mV <= 3500 on a drain that end the log, precede a charge or a gap of over 30 s, broken lines transparent |
| `CalibLog.CutsExactly` | sphaira/include/battery_calib_log.hpp:83-119 | a cut-off is a sample of a drain above 0 and at most at 3500 mV that ends the log, or comes before a charge or over 30 s before the next |
| `CalibLog.ZeroCutoff` | sphaira/include/battery_calib_log.hpp:154-162 | the last cut-off of the step at or after a time |
| `CalibLog.CycleDoneByLog` | sphaira/include/battery_calib_log.hpp:131-151 | the text's answer is the one its samples mean |
| `CalibLog.DoneExactly` | sphaira/include/battery_calib_log.hpp:121-151 | a cycle is done exactly when a charge line of the step saw 100 % after the last cut-off of its drain; what is returned is that cut-off and the first such line |
| `CalibLog.DoneHasEvidence` | sphaira/include/battery_calib_log.hpp:131-151 | a done cycle has its low drain line and its later full charge line in the log |
| `CalibLog.DoneStays` | sphaira/include/battery_calib_log.hpp:96-151 | while only charge lines follow, the cut-offs and a done cycle stay, with the same times |
| `CalibLog.AppendedSamples` | sphaira/include/battery_calib_log.hpp:108-116 | lines appended to a whole file are its further samples |
| `CalibLog.LastSample` | sphaira/include/battery_calib_log.hpp:66-82 | the scan from the end of the text finds the last of its samples |
| `CalibState.Sync` | sphaira/include/battery_calib_state.hpp:106-115 | the step moves to the one that is due, and a moved step begins without a drain |
| `CalibState.Check` | sphaira/include/battery_calib_state.hpp:173-190 | what the Hub finds at its start, and the one cut-off it notes |
| `CalibState.CheckedTwice` | sphaira/include/battery_calib_state.hpp:157-190 | a boot that is noted is a cut-off only where the charger is in and the log has the cut-off of the running drain; otherwise checking changes nothing |
| `CalibState.SyncSettles` | sphaira/include/battery_calib_state.hpp:92-115 | Sync ends where the step agrees with what is done, is idempotent, and changes exactly the markers that disagree |
| `CalibText.Format` | sphaira/include/battery_calib_state.hpp:202-221 | the fifteen `key=value` lines in order |
| `CalibText.LineAt` | sphaira/include/battery_calib_state.hpp:202-221 | line j is that of key j |
| `CalibText.Parse` | sphaira/include/battery_calib_state.hpp:223-256 | each known key with a number is stored through its clamp; all else is ignored |
| `CalibText.LineMeans` | sphaira/include/battery_calib_state.hpp:223-256 | what each of the fifteen keys does with every 64-bit number: the range of the step, the clamps, the low 32 bits of int fields |
| `CalibText.ReadsBackAs` | sphaira/include/battery_calib_state.hpp:202-256 | what any marker reads back as |
| `CalibText.RoundTrip` | sphaira/include/battery_calib_state.hpp:202-256 | saving and loading is the identity exactly when the counts are not negative and the QH counter is in range |
| `CalibRun.SettledIsSound` | sphaira/source/battery_calib.cpp:114-147 | counting by the log and settling the step keeps a marker sound and only moves it on |
| `CalibRun.CountsExactly` | sphaira/source/battery_calib.cpp:114-147 | LoadCurrent moves a cycle on exactly when the log says it is done |
| `CalibRun.LoadedSettles` | sphaira/source/battery_calib.cpp:137-147 | after LoadCurrent the step agrees with what is done, and loading again moves nothing exactly if the log does not have the end of the next cycle, too |
| `CalibRun.LoggedIsSound` | sphaira/source/battery_drain.cpp:397-411 | a logged line keeps "charge lines of cycle 1 exist only behind the written zero" |
| `CalibRun.DrainTickMovesOn` | sphaira/source/battery_drain.cpp:370-450 | a tick of the drain, whatever it sees, keeps the run sound and loses nothing reached |
| `CalibRun.ChargeTickMovesOn` | sphaira/source/battery_drain.cpp:370-450 | so does a tick of the charge |
| `CalibRun.ResumedMovesOn` | sphaira/source/battery_calib.cpp:408-461 | so does the Hub's start |
| `CalibRun.SameBootCountsOnce` | sphaira/source/battery_calib.cpp:408-461 | a Hub that counted a cut-off, died and started again in the same boot counts a second one in the same cycle exactly where the charger is in and the log has the cut-off |
| `CalibRun.ZeroWrittenMovesOn` | sphaira/source/battery_calib.cpp:218-258 | so does the end of the zero's write, with the marker's copy |
| `CalibRun.CycleStartedMovesOn` | sphaira/source/battery_calib.cpp:342-403 | so does the button of the cycle page |
| `CalibRun.NextKeepsInv` | sphaira/source/battery_calib.cpp:114-461 | every step of the wizard keeps the invariant, and every step but a new beginning loses nothing reached |
| `CalibRun.EveryRunIsEarned` | sphaira/source/battery_calib.cpp:114-461 | in every run: cycle 1 counts only after the zero was written, cycle 2 only after cycle 1 and later, each from the drain and the charge of its own in the log, and the step says no more |
| `CalibRun.RunNeverGoesBack` | sphaira/source/battery_calib.cpp:114-461 | until a new calibration begins no run takes the step back, rewrites the zero or recounts a cycle |
| `CalibRun.ChargeIsBehindZero` | sphaira/source/battery_calib.cpp:167-258 | in every run a live drain or charge page is the marker's own cycle, and a charge runs, and logs a line of cycle 1, only behind the written zero |
| `CalibRun.FullChargeCounts` | sphaira/source/battery_drain.cpp:426-449 | a charge whose cycle has its cut-off in the log: whatever any number of ticks see, once one of them logged 100 % and the charger comes out, the cycle ends and the next step begins |
| `CalibOutcome.ResumedExactly` | sphaira/source/battery_calib.cpp:408-461 | which page a start of the Hub opens and what it saves: the running drain after a restart in the same boot on battery; after a cut-off the zero where it is due, else the charge on the charger and the drain on battery; otherwise none |
| `CalibOutcome.ZeroComesFromLog` | sphaira/source/battery_calib.cpp:218-231 | the voltage of the zero is that of the log's last cut-off of cycle 1 since the reset, the marker's note only without one, and no write begins at 0 |
| `CalibOutcome.ZeroIsWritten` | sphaira/source/battery_calib.cpp:238-258 | the written voltage and its time go to the card, a failed write changes nothing |
| `CalibOutcome.DrainedExactly` | sphaira/source/battery_calib.cpp:174-187 | a drain that is over is not running any more, and the zero follows where it is due, else the charge of its cycle |
| `CalibOutcome.ChargeDoneExactly` | sphaira/source/battery_calib.cpp:198-205 | a charge that is over is followed by the drain of the cycle the log leaves, running since now, or by none |
| `CalibOutcome.CyclePageExactly` | sphaira/source/battery_calib.cpp:342-398 | the cycle page shows the charge of cycle 1 behind its zero and that of cycle 2 behind its cut-off, else the drain |
| `CalibOutcome.CycleButtonExactly` | sphaira/source/battery_calib.cpp:364-398 | its button opens what it shows |
| `CalibOutcome.StoppedExactly` | sphaira/source/battery_calib.cpp:188-193 | a stopped drain is not running, any other page is just left |
| `CalibOutcome.WizardEnds` | sphaira/include/battery_calib_state.hpp:117-118 | the report and the transfer, each seen once, end the wizard and nothing else |
| `CalibOutcome.DrainNotesExactly` | sphaira/source/battery_drain.cpp:370-413 | a tick of a drain adds its line to the log where it logs, notes a sleep of over 30 s at a low voltage as a cut-off with its voltage, and keeps the counter |
| `CalibOutcome.DrainTickExactly` | sphaira/source/battery_drain.cpp:426-450 | it ends on the charger after a cut-off or enough, or on battery when the cycle has counted, and else goes on with what it saw |
| `CalibOutcome.ChargeTickExactly` | sphaira/source/battery_drain.cpp:397-449 | a tick of a charge adds its line, and ends exactly when 100 % was seen on the charger before and it is out |
| `CalibOutcome.RunKeepsRunning` | sphaira/source/battery_calib.cpp:114-461 | in every run a drain on the screen is the one the marker says is running, since a time that is past |
| `CalibOutcome.DrainIsLogged` | sphaira/source/battery_drain.cpp:370-413 | over any ticks of a drain the log grows by one line a logged tick, with its time, voltage and percents, and by nothing else |
| `CalibOutcome.DrainReachesCut` | sphaira/source/battery_drain.cpp:397-413 | a drain whose last logged tick is at most at 3500 mV has it as the last cut-off of its cycle |
| `CalibOutcome.CycleGoesThrough` | sphaira/source/battery_calib.cpp:114-461 | a whole cycle by itself: the drain logs a low voltage, the console dies, the Hub starts on the charger, the charge logs 100 % and the charger comes out; the next step begins |
| `CalibOutcome.FirstCycleGoesThrough` | sphaira/source/battery_calib.cpp:114-461 | the same for cycle 1 with its zero between, which is the voltage of the drain's last line |
| `CalibHub.Hub.WriteLine` | sphaira/source/battery_drain.cpp:397-414 | the text of the log grows by a line, its samples by the sample |
| `CalibHub.Hub.CountCycle` | sphaira/source/battery_calib.cpp:114-134 | the marker with what the log's text counts |
| `CalibHub.Hub.LoadCurrent` | sphaira/source/battery_calib.cpp:137-147 | the settled marker, saved when something moved |
| `CalibHub.Hub.TickDrain` | sphaira/source/battery_drain.cpp:370-450 | CalibTick of a drain is the run's tick: the sleep, the counter and the line, and then where it goes |
| `CalibHub.Hub.TickCharge` | sphaira/source/battery_drain.cpp:370-450 | CalibTick of a charge is the run's tick |
| `CalibHub.Hub.SeeCutInLog` | sphaira/source/battery_calib.cpp:418-425 | the loop finds exactly whether the log's text has a cut-off of the running drain |
| `CalibHub.Hub.Resume` | sphaira/source/battery_calib.cpp:408-461 | the Hub's start is the run's step |
| `DrainScreen.Device.OpenPage` | sphaira/source/battery_drain.cpp:107-130 | the constructor is the two writes, the file before the screen |
| `DrainScreen.Device.ApplyScreen` | sphaira/source/battery_drain.cpp:348-368 | the user's values with the charger in, the drain's without |
| `DrainScreen.Device.ClosePage` | sphaira/source/battery_drain.cpp:178-188 | the destructor is the two writes, the screen before the file |
| `DrainScreen.Device.RestoreAtStart` | sphaira/source/battery_drain.cpp:532-547 | the Hub's start gives the file's values back and then drops the file |
| `DrainScreen.NextKeepsInv` | sphaira/source/battery_drain.cpp:105-188 | every single write keeps the file or the screen the user's |
| `DrainScreen.AlwaysRecoverable` | sphaira/source/battery_drain.cpp:105-188 | in every run of pages opened over harmless ones, closed or killed between any two writes, a screen that is not the user's has the user's values in the file |
| `DrainScreen.DrainShowsItsOwn` | sphaira/source/battery_drain.cpp:348-368 | in every such run the page of a calibration's drain shows the user's own screen with the charger in, and its own brightness without the automatic one on battery |
| `DrainScreen.StartGivesBack` | sphaira/source/battery_drain.cpp:524-547 | the next start of the Hub gives them back, however the last one ended |
| `DrainScreen.CloseGivesBack` | sphaira/source/battery_drain.cpp:164-188 | so does a clean close of all pages |
| `DrainScreen.SafeExactlyOverHarmless` | sphaira/source/battery_drain.cpp:105-188 | a page can be opened without a run that loses the values exactly when every page under it leaves the screen alone |
| `WizardTotals.Wizard.Advance` | sphaira/include/battery_wizard.hpp:145-164 | a cycle counts exactly at 100 % with 0.90 discharged since its start, the second behind the first, and where the second is measured from |
| `WizardTotals.Wizard.Redo` | sphaira/include/battery_wizard.hpp:127-142 | a redone cycle and the ones after it begin again |
| `WizardTotals.TwoCyclesDischarged` | sphaira/include/battery_wizard.hpp:107-164 | in every run of looks and safe redos a counted second cycle stands on a first, a reset and at least 1.80 discharged cycles |
| `WizardTotals.RedoSafeExactly` | sphaira/include/battery_wizard.hpp:122-164 | from any state of such a run: every run after a redo of cycle 2 keeps that promise exactly when the redo is safe (cycle 1 has counted, or its 0.90 is discharged already, or nothing can count) |
| `HopEntry.FindEntry` | sphaira/include/battery_hop.hpp:29-88 | the streaming scan finds the first fitting entry by the definition of sections: payload entries never fit, the forced one goes first, 0 when there is none |
| `HopEntry.First` | sphaira/include/battery_hop.hpp:36-49 | the number of the first entry with a property, 0 exactly without one |
| `HopEntry.EntryForIs` | sphaira/include/battery_hop.hpp:29-88 | that is the first entry that forces the wanted MMC, and for the emuMMC, where none does, the first that follows the file |
| `HopEntry.EntriesMean` | sphaira/include/battery_hop.hpp:36-80 | which settings make an entry count: it boots Atmosphere, has no payload, and forces the sysMMC, or the emuMMC, or not the sysMMC |
| `HopEntry.LineSays` | sphaira/include/battery_hop.hpp:50-80 | what a line says without the blanks around it: a comment or caption nothing, brackets a header, and a setting is split at its first `=` |
| `HopEntry.PatchBootCfg` | sphaira/include/battery_hop.hpp:96-107 | the payload asks for the entry and is otherwise the same; a bad number or a small payload changes nothing |
| `ZipTree.NormalizeZipEntry` | sphaira/include/zip_extract_plan.hpp:33-48 | slashes for backslashes, without leading slashes and one `./` |
| `ZipTree.NormalizedIs` | sphaira/include/zip_extract_plan.hpp:33-48 | what is behind all leading slashes of either kind, and behind one `./` there |
| `ZipTree.NamesAre` | sphaira/include/zip_extract_plan.hpp:141-155 | the parts that count are those that are not empty, `.` or `..`, in order |
| `ZipTree.BuildZipTree` | sphaira/include/zip_extract_plan.hpp:116-186 | the nodes are those of the entries' folders and the entries, each where it is seen first |
| `ZipTree.ChainIsLineage` | sphaira/include/zip_extract_plan.hpp:141-183 | what the loop makes of an entry's parts is its cleaned path with all folders above it |
| `ZipTree.TreeIsClosure` | sphaira/include/zip_extract_plan.hpp:116-186 | the prefixes are distinct and exactly the ancestor closure of the cleaned entries |
| `ZipTree.TreeIsClosed` | sphaira/include/zip_extract_plan.hpp:116-186 | with every node all folders above it are nodes |
| `ZipTree.FolderComesFirst` | sphaira/include/zip_extract_plan.hpp:116-186 | every node comes behind the folder it is in, and its depth is the number of its folders |
| `ZipTree.NodesAreNamed` | sphaira/include/zip_extract_plan.hpp:156-180 | a node is a folder exactly when its prefix ends with a slash, and its title is the rest behind its folder |
| `PathNorm.NormalizeAbsoluteSdPath` | sphaira/include/path_util.hpp:204-251 | the normal form of an accepted path, none for a relative path, a refused character or a dot component |
| `PathNorm.RefusedExactly` | sphaira/include/path_util.hpp:204-235 | which paths are refused: relative ones, control codes, backslash, colon, a dot component |
| `PathNorm.NormalFormIs` | sphaira/include/path_util.hpp:204-251 | the normal form has the path's components, one slash before each and none at the end |
| `PathNorm.NormalizedIsIdempotent` | sphaira/include/path_util.hpp:204-251 | normalizing again changes nothing |
| `PathNorm.SameNormalForm` | sphaira/include/path_util.hpp:204-251 | two accepted paths normalize equally exactly when their components are equal |
| `PathNorm.IsSubpathOf` | sphaira/include/path_util.hpp:371-396 | the trims and compares decide the relation below, for any two strings |
| `PathNorm.SubpathIsPrefix` | sphaira/include/path_util.hpp:371-396 | on normal forms: exactly when the parent's components begin the path's, but for case |
| `PathNorm.SameTextMeans` | sphaira/include/path_util.hpp:371-396 | case is that of the ASCII letters, and nothing else is ignored |
| `PathNorm.SubpathIsPreorder` | sphaira/include/path_util.hpp:371-396 | hence it is reflexive and transitive on them |
| `TitleName.TruncateUtf8` | sphaira/include/title_export_name.hpp:43-72 | the bytes up to the last character that ends within the limit |
| `TitleName.TruncatedIsLongest` | sphaira/include/title_export_name.hpp:43-72 | on well-formed UTF-8 that is the longest well-formed prefix within the limit |
| `TitleName.SanitizeUtf8TitleName` | sphaira/include/title_export_name.hpp:76-115 | refused characters become one underscore a run |
| `TitleName.SanitizedIsIdempotent` | sphaira/include/title_export_name.hpp:76-115 | sanitizing again changes nothing, for any bytes |
| `TitleName.SanitizedIsClean` | sphaira/include/title_export_name.hpp:76-115 | well-formed UTF-8 stays well-formed and keeps nothing refused |
| `TitleName.SanitizedIsCleanExactly` | sphaira/include/title_export_name.hpp:76-115 | of any bytes nothing refused is left exactly where no lead byte takes a refused byte along |
| `TitleParts.PartsAreName` | sphaira/include/title_export_name.hpp:84-110 | the parts of a name (ASCII bytes, the bytes a lead byte takes along, a lone lead byte) are the name |
| `TitleParts.SanitizedIsShown` | sphaira/include/title_export_name.hpp:76-115 | sanitizing keeps every part that is not refused and makes one underscore of each run of refused ones |
| `TitleParts.CleanNameIsMiddle` | sphaira/include/title_export_name.hpp:179-186 | a clean candidate is the sanitized one without exactly the blanks around it |
| `TitleName.ResolveMtpDisplayTitleName` | sphaira/include/title_export_name.hpp:167-192 | the first candidate that is usable once clean, or the title id |
| `TitleParts.ResolvedIsFirst` | sphaira/include/title_export_name.hpp:167-192 | it is the first candidate whose clean form is more than spaces, dots and underscores, or the title id |
| `TitleParts.TitleIdReads` | sphaira/include/title_export_name.hpp:28-40 | the title id is the id's sixteen upper-case hexadecimal digits |
| `TitleName.FormatMtpGameDirName` | sphaira/include/title_export_name.hpp:194-215 | the name, cut to the room left, a space and the bracketed id |
| `TitleParts.DirNameIs` | sphaira/include/title_export_name.hpp:194-215 | the name whole where it fits, else its cut without the spaces at its end, in front of a space and the bracketed id |
| `TitleName.DirNameIsGood` | sphaira/include/title_export_name.hpp:162-215 | from well-formed names it is well-formed and has nothing refused |
| `TitleName.DirNameEnds` | sphaira/include/title_export_name.hpp:194-215 | it always ends with the bracketed id |
| `TitleName.DirNameFits` | sphaira/include/title_export_name.hpp:194-215 | it fits its limit exactly when that is at least 19, or 18 without a usable name |
| `Text.ReadsBack` | sphaira/include/battery_calib_state.hpp:202-238 | strtoll reads back what to_string printed for every 64-bit number |
| `Text.LinesOfUnlines` | sphaira/include/battery_calib_state.hpp:223-229 | the parsers' loop sees the lines that were printed |

## Left out

- HashTree.Rehash: asks that the slots it reads or writes are bytes of the section, because the code touches a parent's bytes before it checks its bounds; that u64 sums of offsets do not wrap. Where levels overlap it promises what is stored, not that the slots are right afterwards.
- HashTree.RehashLevel: the same.
- HashTree.RehashBlock: the same.
- NacpPatch.PatchSection: the same, and that the file lies inside the data level, as PatchNca checks.
- CalibRun.EveryRunIsEarned: one calibration page is live at a time, as each page is closed before it opens the next; a page that was closed but not yet destroyed does not act.
- CalibRun.LoggedIsSound: the temperature, the load and the brightness of a log line are not part of the model, and the clock of a line is the clock of its tick.
- CalibLog.Cutoffs: the line parser (sscanf with a floating-point field) is a parameter.
- CalibState.Check: boot times are subtracted without the wrap of an int64.
- DrainScreen.AlwaysRecoverable: brightness is an opaque value, so the rounding of its decimal print is not modelled; the screen saver and a user who changes the brightness meanwhile are not there.
- WizardTotals.TwoCyclesDischarged: CutoffReached, which moves a start back after a cut-off on a full battery, is not part of the runs.
- LedgerRun.EveryRun: a calibration is one event, when its last cycle ends; a boot in another system while the cycles still run copies the gauge as it is then, which is not modelled. What a report reads of the gauge is the verdict of the calibration in it. The card's files are not deleted.
- Ledger.RoundTrip: NextLoad, TailWorthIt and the names of systems are rules of one branch each.
- VFolders.RunKeepsWellFormed: the callers' targets exist, as the menus offer only folders that are there.
- CalibHub.Hub.WriteLine: the log ends with a whole line; a line half written when the power went off, and the next one behind it, are not modelled. The flag line of a sleep, which is no sample, is not written.
- PathNorm.IsSubpathOf: the compare is the one of the C locale, ASCII letters only.
- Drawing, menus, the widget stack's events, touch and the frame loop.
- libnx, i2c, file-system, network, USB and SMC calls beyond the values they give.
- SHA-256, which is a parameter with a fixed length, and the encryption around the Control NCA.
- FindRomfsFile, ReadHexPage and FormatHexLine, calculateMaxHeapSize, DecideBrightness and LoadFor: one table walk, two formatters and rules of one branch.
- FindSingleNro, FormatZipRoots and the destinations of an extraction, which are joins of names.
- Plans and tables such as nextendo_plan.hpp, forwarder_auto_plan.hpp and console_tables.hpp, settled by reading one branch.
