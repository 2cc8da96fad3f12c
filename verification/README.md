# NanoQL verification model

A Dafny model of the parts of NanoQL where several pieces of code must agree or where a protocol must
not lose data, with proofs about all inputs, all runs and all failures of the calls below them.

- **Microdrive images** (`Qlay*.dfy`). The desktop's builder and parser, and the firmware's builder that
  computes every sector on demand. `QlayAllocator`, `QlayFormat` and `QlayImage` specify the image;
  `QlayBuilder`, `QlayParse` and `QlayFirmware` are the programs in their own form, proved against it;
  `QlayRoundTrip`, `QlayCorruption` and `QlayTape` hold the theorems about images.
- **NanoQL Link** (`Link*.dfy`). `LinkServer` is the firmware as a state machine over a card whose every
  call may fail; `LinkFirmware` is the program, with the source's static variables and handlers, and
  carries the invariants from request to request. `LinkUpload`, `LinkReplace`, `LinkCompanion` and
  `LinkTransfer` say what every run keeps, `LinkRepeats` and `LinkLimits` where that ends,
  `LinkOutcomes` what a single command leaves behind, `LinkAnswers` which requests are acknowledged,
  `LinkHistory` what a host can tell of the board from what it asked and heard, and `LinkIsolation`
  which files no run touches.
  `LinkClient` is the desktop's upload over a link that loses, delays and repeats frames and resets;
  `LinkUploadSafety` is why its success can be trusted, `LinkCompletes` why it succeeds when nothing
  goes wrong. `LinkFrame` and `LinkReceiver` are the framing below: CRC-8, ring buffer and automaton.
- **Configuration Flash** (`Flash.dfy`, `FlashWriter.dfy`, `Spi.dfy`). The page-buffered writer over a
  chip that may fail silently but reads back truthfully, at any length of stream; and the bit-reversed,
  one-bit-late transfer. `LinkFirmware` drives the writer.
- **Screenshots** (`Png.dfy`, `Screen.dfy`, `Screenshot.dfy`). The streaming PNG encoder against an
  independent reader, and the one-pass firmware picture against the two-pass desktop picture.
- **CPU bus bridge** (`BusBridge.dfy`) and **Intel HEX reader** (`IntelHex.dfy`).
- `Bytes.dfy` and `Checksums.dfy` (bit-serial CRC-32) are shared.

`dafny verify dfyconfig.toml` checks everything.

## What turned out different

Each of these but the last is proved, with the exact condition and, where a promise fails, a concrete
input or run.

- A cartridge takes 252 blocks, not the 253 of docs/NANOQL_LINK.md:279: the look-ahead must still find a
  free sector after the last block (`QlayImage.CapacityIs252`).
- The parser skips file number 0x80, so the round trip holds for up to 127 files and fails for every
  longer list; the collectors stop at 126 (`QlayRoundTrip.RoundTrip`).
- The zero map checksum that validation tolerates does mask one single-byte change: clearing byte 27 of
  an image whose byte 26 is already 0 (`QlayCorruption.SingleByteCorruption`, `MaskedCorruptionExists`).
- The firmware counts blocks in 32 bits, which is right exactly when size + 575 < 2^32
  (`QlayFirmware.Blocks32Exact`). So it accepts some lists that the desktop refuses, exactly those with a
  count that wraps and wrapped counts of at most 252 (`QlayFirmware.FirmwareRefusal`, `HugeFileAccepted`).
  The parser refuses every image it makes of them (`QlayFirmware.FirmwareImageParses`).
- Replacing a file never loses it within its session. A session cancelled between phases 1 and 2
  leaves it only as the backup, and the next replacement of an existing file clears that
  (`LinkLimits.BackupFate`, `LinkLimits.CancelThenReplaceLoses`).
- A repeated DATA block is written but not counted again. The file is what the CRC verified exactly when
  the last block to reach each accepted byte carried that byte (`LinkRepeats.FileMatchesExactly`,
  `LinkLimits.DishonestRepeatEscapes`).
- `nanoql_flash_begin` accepts any length up to the chip's capacity, but its commands carry three address
  bytes, so past 2^24 bytes the stream is written over its own beginning and success is reported. It is
  then stored only by the coincidence of `FlashWriter.StoredExactly`, which is exact at every length
  (`FlashWriter.LongStreamLost` is an input). The callers' limit of 2 MiB (nanoql_usb.c:1185-1187) keeps
  clear of it, and an acknowledged FLASH_PROGRAM means a stored bitstream
  (`LinkFirmware.Firmware.RunTask`).
- The eight-bit sequence number of an exchange recurs after exactly every 256 exchanges
  (`LinkClient.NumbersRepeat`). Until 255 in a row have gone unanswered no late frame can pass for a
  current one (`LinkClient.Host.Exchange`); then one can (`LinkClient.LateFrameTaken`).
- The bridge's balance of requests and DTACKs is 0 or 1 since the last reset
  (`BusBridge.OneAcknowledgeEach`). Over resets it exceeds that by exactly the accepted transactions that
  resets dropped (`BusBridge.BalanceCountsDropped`, `BusBridge.ResetUnbalances`).
- The JTAG diagnostic case of `fs_command` (nanoql_usb.c:587) is unreachable: `process_frame` sends that
  command to the FPGA handler, which answers error 3.

## Model

| member | source | states |
|---|---|---|
| `QlayAllocator.Allocate` | tools/nanoql_drive.py:176-182 | the search finds a sector exactly when one is free, and then the free one nearest below the start, cyclically |
| `QlayAllocator.AllocatorCorrect` | tools/nanoql_drive.py:175-206 | for every list of blocks: allocation succeeds exactly when at most 252 are wanted, and then the map holds each where it was placed, the loop-head sector is free and sectors 0 and 254 are untouched |
| `QlayAllocator.OneSectorPerBlock` | tools/nanoql_drive.py:184-197 | whenever the streams fit, each block of each stream has exactly one sector, strictly between 0 and 254 |
| `QlayAllocator.BlocksInterleaved` | tools/nanoql_drive.py:163-197 | where every block lands: the first on sector 245, each later one on the first free sector going down and around from 13 below the one before |
| `QlayAllocator.FreeCount` | tools/nanoql_drive.py:163-206 | free sectors plus placed blocks are always 253 |
| `QlayAllocator.FirstFreeFinds` | firmware/bl616/nanoql_companion/nanoql_drive.c:319-328 | the search within any number of steps stops at the nearest free sector, whichever free sector it is compared with |
| `QlayAllocator.TakeSector` | tools/nanoql_drive.py:187-197 | one loop turn, look-ahead included, is one step of the placement, and fails exactly when that step is refused |
| `QlayFormat.RecordLayout` | tools/nanoql_drive.py:114-144 | where each field and each of the three additive checksums sits in the 686 bytes of a record |
| `QlayFormat.HeaderFields` | tools/nanoql_drive.py:61-70 | every one of a header's 64 bytes: length, type, data space, name, and zero elsewhere |
| `QlayFormat.PayloadIsSlice` | tools/nanoql_drive.py:187-190 | a block defined byte by byte is the padded slice of the materialised stream |
| `QlayFormat.DirectoryEntry` | tools/nanoql_drive.py:167-173 | every file's header sits in the directory stream at its own 64-byte slot |
| `QlayImage.ImageRecords` | tools/nanoql_drive.py:211-212 | cutting an image into records gives back each sector's record, in the physical order 0, 254, 253, ..., 1 |
| `QlayImage.CapacityIs252` | tools/nanoql_drive.py:147-206 | an image is built exactly when the name has 1 to 10 bytes and directory and files need at most 252 blocks |
| `QlayImage.FitsExactly` | tools/nanoql_drive.py:160-206 | the same in bytes: 64 for the directory and each file's entry, 64 and its contents for each file, rounded up to blocks of 512 |
| `QlayImage.MediumIdIsCrc` | tools/nanoql_drive.py:153-157 | the medium id is the low half of the CRC-32 of the name of the medium followed by every file's name and contents, in order |
| `QlayImage.EveryBlockPlaced` | tools/nanoql_drive.py:184-197 | in every image that is built, each block of the directory and of each file has exactly one sector |
| `QlayBuilder.BuildImage` | tools/nanoql_drive.py:147-214 | the program's loops over mapping, sectors and map data, and its final validation, give exactly the specified image or the refusal |
| `QlayBuilder.PlaceStreams` | tools/nanoql_drive.py:175-197 | the two nested loops leave the specified map and, in every taken sector, the right block of the right stream |
| `QlayBuilder.WriteMap` | tools/nanoql_drive.py:199-209 | the map payload: two bytes a sector, the format marker and the next free sector |
| `QlayBuilder.ComputeMediumId` | tools/nanoql_drive.py:153-157 | the chunk-by-chunk fingerprint is the one of `QlayImage.MediumIdIsCrc` |
| `QlayParse.Validate` | tools/nanoql_drive.py:217-264 | the validation loop accepts exactly the images whose records are all in order, with a map and 200 distinct usable sectors |
| `QlayParse.ValidWithTwoHundred` | tools/nanoql_drive.py:217-264 | of images whose records are each in order and in place, exactly those with a map and 200 sectors in use are valid |
| `QlayParse.RepeatedNumberInvalid` | tools/nanoql_drive.py:217-264 | two records in use with one number make any image invalid |
| `QlayParse.CheckRecord` | tools/nanoql_drive.py:221-260 | one record is accepted exactly when preambles and checksums are right, the zero map checksum excepted |
| `QlayParse.ParseImage` | tools/nanoql_drive.py:279-356 | the parser's loops return exactly the specified files or the refusal, on every input |
| `QlayParse.JoinStream` | tools/nanoql_drive.py:309-319 | a stream is joined exactly when its blocks are gapless from zero, otherwise refused |
| `QlayParse.ReadDirectory` | tools/nanoql_drive.py:321-356 | every directory entry becomes the file it describes, is skipped when empty, or refuses the image |
| `QlayParse.EntryExactly` | tools/nanoql_drive.py:321-356 | what becomes of a directory entry, from its bytes: skipped exactly if length and name length are zero, a file exactly if the name is 1 to 36 ASCII characters and the stream is there and long enough, with the fields the file gets |
| `QlayRoundTrip.RoundTrip` | tools/nanoql_drive.py:147-356 | building and parsing returns names, bytes and executable flags in order, data space for executables and 0 otherwise, for up to 127 files; with more files the parser refuses |
| `QlayRoundTrip.ParseCarried` | tools/nanoql_drive.py:279-356 | the same for every image that carries the files, whichever byte marks the damaged sector |
| `QlayRoundTrip.BuildCarries` | tools/nanoql_drive.py:184-214 | a built image carries the files: headers, map and payloads agree in every record |
| `QlayRoundTrip.JoinedStream` | tools/nanoql_drive.py:292-319 | whatever blocks of a stream were counted, joining what the map leads to gives the stream cut to so many blocks and padded; it is refused exactly for file 0x80 and for a stream without a block |
| `QlayRoundTrip.LaidParses` | tools/nanoql_drive.py:279-319 | every image laid out by a consistent map passes validation, and the blocks found on it are exactly those placed, whether or not they were counted right |
| `QlayTape.HeaderOnTape` | tools/nanoql_drive.py:114-144 | the header of every record of an image, byte by byte: mark, number, name of the medium, id |
| `QlayTape.MediumIdOnTape` | tools/nanoql_drive.py:153-157 | in every record of every image the desktop builds, bytes 24 and 25 are the low half of the CRC-32 of the padded name, all names and all contents |
| `QlayTape.FirmwareIdOnTape` | firmware/bl616/nanoql_companion/nanoql_drive.c:261-287 | the same of every image the firmware makes |
| `QlayTape.MapOnTape` | tools/nanoql_drive.py:199-209 | the map record, byte by byte |
| `QlayTape.SectorOnTape` | tools/nanoql_drive.py:114-144 | number, block header and 512 bytes of every other sector |
| `QlayTape.FreeOnTape` | tools/nanoql_drive.py:191-197 | a free sector is free in the map and in its own header and holds the calibration pattern |
| `QlayTape.DataByteOnTape` | tools/nanoql_drive.py:167-197 | byte q of file n is on the tape at (q + 64) mod 512 of a sector that both map and block header give to file n + 1, block (q + 64) / 512 |
| `QlayFirmware.FirmwareBuilder.AllocateStreams` | firmware/bl616/nanoql_companion/nanoql_drive.c:330-358 | map and current sector, filled in place, are those of the specified placement of the firmware's own 32-bit block counts; it fails exactly when these come to more than 252 |
| `QlayFirmware.FirmwareBuilder.AllocateSector` | firmware/bl616/nanoql_companion/nanoql_drive.c:319-328 | the firmware's search is the specified one |
| `QlayFirmware.CopyHeaderRange` | firmware/bl616/nanoql_companion/nanoql_drive.c:360-371 | exactly the overlap of a header with a block is copied, nothing else changes |
| `QlayFirmware.FirmwareBuilder.DirectoryPayload` | firmware/bl616/nanoql_companion/nanoql_drive.c:373-392 | a directory block computed on demand is the slice of the directory stream |
| `QlayFirmware.FirmwareBuilder.FilePayload` | firmware/bl616/nanoql_companion/nanoql_drive.c:394-427 | a file block computed on demand, header overlap and direct read, holds the stream's bytes, or none past the wrapped 32-bit end of the stream |
| `QlayFirmware.FirmwareBuilder.MakeSector` | firmware/bl616/nanoql_companion/nanoql_drive.c:444-496 | a sector buffer written in place is the record of that sector |
| `QlayFirmware.FirmwareBuilder.WriteImage` | firmware/bl616/nanoql_companion/nanoql_drive.c:498-531 | the records in the order they are written are the image |
| `QlayFirmware.FirmwareBuilder.ComputeMediumId` | firmware/bl616/nanoql_companion/nanoql_drive.c:261-287 | the medium id is the desktop's (`QlayImage.MediumIdIsCrc`), whatever chunks the CRC-32 is fed |
| `QlayFirmware.FirmwareBuilder.Generate` | firmware/bl616/nanoql_companion/nanoql_drive.c:533-636 | for every list the collector lets through, allocation, fingerprint and writing together give the firmware image of its 32-bit counts; when every file can be read it succeeds exactly when that image exists, that is when the counts come to at most 252 |
| `QlayFirmware.FirmwareRefinesDesktop` | firmware/bl616/nanoql_companion/nanoql_drive.c:330-531 | for every list of up to 126 files of 32-bit size that the desktop accepts, the firmware makes an image too, the two differ exactly in bytes 726 and 728 (header of the damaged sector and its checksum), and both parse to the files |
| `QlayFirmware.FirmwareRefusal` | firmware/bl616/nanoql_companion/nanoql_drive.c:330-358 | for every list the collector lets through: the firmware refuses what the desktop refuses if and only if no block count wraps or the wrapped counts exceed 252; it never refuses what the desktop accepts |
| `QlayFirmware.FirmwareImageParses` | firmware/bl616/nanoql_companion/nanoql_drive.c:289-358 | of the images the firmware makes, the desktop's parser accepts exactly those of the lists that the desktop's builder accepts |
| `QlayFirmware.HugeFileAccepted` | firmware/bl616/nanoql_companion/nanoql_drive.c:225-228 | one file of 2^32 - 1 bytes is let through, counted as one block and written out; the desktop refuses list and image |
| `QlayFirmware.Counts32Exact` | firmware/bl616/nanoql_companion/nanoql_drive.c:338-342 | the counts of a list are right exactly when every size + 575 stays below 2^32 |
| `QlayFirmware.Blocks32Exact` | firmware/bl616/nanoql_companion/nanoql_drive.c:338-342 | the 32-bit block count equals the true one exactly when size + 575 < 2^32 |
| `QlayCorruption.ChecksumSeesByte` | tools/nanoql_drive.py:40-43 | altering one byte always alters the additive checksum |
| `QlayCorruption.SingleByteCorruption` | tools/nanoql_drive.py:217-264 | one altered byte passes validation exactly when it lies at offset 566 or later in its record, or clears byte 27 of the image while byte 26 is 0; then the parse is unchanged |
| `QlayCorruption.MaskedCorruptionExists` | tools/nanoql_drive.py:235-240 | the exception is real: an empty cartridge named Z loses its map header checksum unnoticed |
| `Checksums.UpdateCrc32` | firmware/bl616/nanoql_companion/nanoql_usb.c:380-390 | the shift-and-mask loop computes the bit-serial CRC-32 register |
| `Checksums.ContinueCrc32` | firmware/bl616/nanoql_companion/nanoql_drive.c:248-259 | continuing a finished CRC-32 over more data is the CRC-32 continued by definition |
| `Checksums.ByteStep` | firmware/bl616/nanoql_companion/nanoql_usb.c:380-390 | exclusive-or with a byte and eight shifts divide by the byte's bits one by one |
| `Checksums.CrcContinueAppend` | firmware/bl616/nanoql_companion/nanoql_drive.c:248-259 | chunking does not matter to a continued CRC-32 |
| `LinkFirmware.Firmware.ServeRequest` | firmware/bl616/nanoql_companion/nanoql_usb.c:1420-1580 | a request from its frame to the next wait takes exactly the specified step, with the Flash writer's outcome where it was used, and the variables keep what the protocol promises: a suspended Companion has its reason, the open upload's file is what was accepted, a replacement has not lost its file, and the Flash writer has taken the blocks sent; an acknowledged FLASH_PROGRAM means the chip holds them |
| `LinkFirmware.Firmware.RunTask` | firmware/bl616/nanoql_companion/nanoql_usb.c:1179-1580 | the link task over any requests and resets, with the Flash writer and its chip behind it: the variables end where the specified run ends with those promises kept, and if the last request is an acknowledged FLASH_PROGRAM, the chip holds from zero on exactly the blocks acknowledged since the transfer was opened, of the announced size and CRC-32, with nothing changed past their last 64 KiB block |
| `LinkOutcomes.OpenOutcome` | firmware/bl616/nanoql_companion/nanoql_usb.c:682-730 | an update in place finds the target at the announced size with its contents untouched, or empties the Microdrive image; otherwise the temporary file is empty and every user file as it was; a failure spares all but the Microdrive image |
| `LinkOutcomes.OpenMode` | firmware/bl616/nanoql_companion/nanoql_usb.c:682-718 | on a card that works, and unless the name is a directory, the upload opens, and it is in place exactly for the Microdrive image or a target that has the announced size |
| `LinkOutcomes.BeginOpens` | firmware/bl616/nanoql_companion/nanoql_usb.c:669-751 | an acknowledged BEGIN met an idle board and leaves an open upload that has taken nothing, its file there, a running Companion suspended, and no other user file changed |
| `LinkOutcomes.BeginRefused` | firmware/bl616/nanoql_companion/nanoql_usb.c:669-751 | a refused BEGIN leaves the session as it was and the Companion no more suspended, and touches no user file but the Microdrive image |
| `LinkOutcomes.CheckPasses` | firmware/bl616/nanoql_companion/nanoql_usb.c:835-852 | phase 0 passes exactly when the upload is synced, complete and its bytes have the announced CRC-32 |
| `LinkOutcomes.BackupOutcome` | firmware/bl616/nanoql_companion/nanoql_usb.c:853-868 | after phase 1 the target is free and its contents are the backup; if it fails, one of the two still has them |
| `LinkOutcomes.InstallOutcome` | firmware/bl616/nanoql_companion/nanoql_usb.c:869-872 | phase 2 leaves the accepted bytes at the target, or has changed nothing |
| `LinkOutcomes.GiveUpOutcome` | firmware/bl616/nanoql_companion/nanoql_usb.c:883-891 | giving up ends the session, lets the Companion run, and puts the backup back exactly when the target is free and the card works |
| `LinkOutcomes.AbortOutcome` | firmware/bl616/nanoql_companion/nanoql_usb.c:555-573 | cancel and reset end the session, let the Companion run, remove a partial upload if the card works, and touch nothing else |
| `LinkIsolation.UserFilesKept` | firmware/bl616/nanoql_companion/nanoql_usb.c:555-913 | over every run of any number of sessions and failures: a user file changes only in its DELETE, a BEGIN for the Microdrive image, a block of an update in place, or phases 1 and 2 of its own upload |
| `LinkIsolation.OtherFilesUntouched` | firmware/bl616/nanoql_companion/nanoql_usb.c:555-913 | whatever a host requests about other names, and whatever fails, a user file stays as it is and a free name stays free |
| `LinkIsolation.StepSpares` | firmware/bl616/nanoql_companion/nanoql_usb.c:555-913 | the same of one step, rollback and abort included |
| `LinkTransfer.ProgramsExactlyVerified` | firmware/bl616/nanoql_companion/nanoql_usb.c:1179-1313 | over every run: programming is acknowledged exactly when a transfer of that kind is open, the blocks acknowledged since its opening have the announced length and CRC-32, and the device takes them |
| `LinkTransfer.RefusedTransfer` | firmware/bl616/nanoql_companion/nanoql_usb.c:1179-1232 | an FPGA transfer is open afterwards exactly when its opening was acknowledged, then with a running Companion suspended; refused, it leaves the Companion no more suspended than before |
| `LinkFirmware.Firmware.PutData` | firmware/bl616/nanoql_companion/nanoql_usb.c:753-823 | DATA: the accepted blocks, what is written and synced (a sync that fails still moves its position), inline certification, and the abort on failure |
| `LinkFirmware.UploadState.AdvanceSync` | firmware/bl616/nanoql_companion/nanoql_usb.c:780-782 | the loop moves the sync position past the data without leaving 32 bits |
| `LinkFirmware.Firmware.TransferBlock` | firmware/bl616/nanoql_companion/nanoql_usb.c:1234-1256 | an FPGA block goes to its device, the Flash writer or the SRAM loader, and extends count and CRC; or the transfer is given up |
| `LinkFirmware.Firmware.ProgramFpga` | firmware/bl616/nanoql_companion/nanoql_usb.c:1258-1313 | a programming request takes the specified step with the device's outcome; of the Flash writer, success means that the chip holds what was sent |
| `LinkFirmware.Firmware.NoticeUsbReset` | firmware/bl616/nanoql_companion/nanoql_usb.c:1492-1503 | a USB reset takes the specified step: afterwards the Companion runs, no session or transfer is open, and a replacement has not lost its file |
| `LinkUpload.UploadInvariant` | firmware/bl616/nanoql_companion/nanoql_usb.c:753-823 | over every run of requests, failures and resets with identical repeats: the file starts with exactly the accepted bytes, the running CRC is theirs, no hole, no growth past the declared size, all counters within 32 bits |
| `LinkUpload.FewUnsynced` | firmware/bl616/nanoql_companion/nanoql_usb.c:772-783 | in every state of every run with identical repeats, an open upload has fewer than 4096 accepted bytes unsynced |
| `LinkUpload.PutDataKeeps` | firmware/bl616/nanoql_companion/nanoql_usb.c:753-823 | one DATA block, new or repeated, with any failing call, keeps that invariant |
| `LinkUpload.PutDataOutcome` | firmware/bl616/nanoql_companion/nanoql_usb.c:753-823 | a DATA reply other than an error means the whole block was written and counted |
| `LinkUpload.RepeatMustMatch` | firmware/bl616/nanoql_companion/nanoql_usb.c:762-770 | after an accepted repeat the file matches the accepted bytes exactly when the repeat was identical |
| `LinkRepeats.FileMatchesExactly` | firmware/bl616/nanoql_companion/nanoql_usb.c:753-823 | over any acknowledged blocks, repeats with any bytes among them: the file starts with exactly the accepted bytes if and only if at every position the last block to reach it carried the accepted byte |
| `LinkRepeats.FileHoldsLast` | firmware/bl616/nanoql_companion/nanoql_usb.c:762-770 | every accepted position holds what the last block to reach it carried |
| `LinkRepeats.CrcCoversLog` | firmware/bl616/nanoql_companion/nanoql_usb.c:784-790 | whatever the repeats carry, the running CRC is that of the bytes accepted as new |
| `LinkUpload.CommitKeeps` | firmware/bl616/nanoql_companion/nanoql_usb.c:825-913 | every commit phase keeps the invariant; a session past phase 0 is complete with the announced CRC |
| `LinkCompanion.CompanionNeverStranded` | firmware/bl616/nanoql_companion/nanoql_usb.c:1474-1580 | over every run from boot: whenever the link task waits, a suspended Companion has an open upload, an open FPGA transfer or an active synchronisation as its reason; `LinkHistory` says what opens and ends these |
| `LinkHistory.FlagsAreHistory` | firmware/bl616/nanoql_companion/nanoql_usb.c:1001-1313 | over every run from boot, from requests, replies and resets alone: a synchronisation is active exactly when, since the last board reset, the last of the acknowledged 0, 1, 4 and 5 and of the 0 and 1 that failed to mount is an acknowledged 0; a transfer is open exactly when its opening was acknowledged and neither abandoned nor ended since; and the board is in recovery exactly until a core is loaded |
| `LinkHistory.SuspendedForAReason` | firmware/bl616/nanoql_companion/nanoql_usb.c:1474-1580 | the law above with that history in place of the flags: a suspended Companion has an open upload, or a transfer or synchronisation that was begun and not ended |
| `LinkHistory.MdvEffect` | firmware/bl616/nanoql_companion/nanoql_usb.c:1001-1067 | after an acknowledged 0 a running Companion is suspended, after an acknowledged 1, 4 or 5 and after a failed mount it runs |
| `LinkHistory.QlResetOnly` | firmware/bl616/nanoql_companion/nanoql_usb.c:1001-1067 | of all requests exactly an acknowledged MDV_CONTROL 1 resets the QL |
| `LinkAnswers.DeleteAcknowledged` | firmware/bl616/nanoql_companion/nanoql_usb.c:966-978 | DELETE is acknowledged exactly if no session is open, the path names a file there is and the call works; then it is gone; every other file is as before in any case |
| `LinkAnswers.DownloadAcknowledged` | firmware/bl616/nanoql_companion/nanoql_usb.c:915-940 | GET_BEGIN answers exactly for a file there is that opens and has fewer than 2^32 bytes, with its size, and then a download of it is open |
| `LinkAnswers.ChunkAcknowledged` | firmware/bl616/nanoql_companion/nanoql_usb.c:942-960 | GET_DATA answers with the file's own bytes from the offset, fewer than asked for only at its end |
| `LinkAnswers.BlockAcknowledged` | firmware/bl616/nanoql_companion/nanoql_usb.c:753-823 | DATA is acknowledged exactly for 1 to 240 bytes within the announced size that begin where the accepted ones end or repeat some of them, if seek, write and a sync that is due work |
| `LinkAnswers.RepeatAcknowledged` | firmware/bl616/nanoql_companion/nanoql_usb.c:762-823 | a block whose acknowledgement was lost, sent again, is acknowledged again and changes nothing |
| `LinkAnswers.CertifiedExactly` | firmware/bl616/nanoql_companion/nanoql_usb.c:784-823 | an acknowledgement carries a verification exactly if the block ends an update in place and all its bytes have the announced CRC-32 |
| `LinkAnswers.MdvAcknowledged` | firmware/bl616/nanoql_companion/nanoql_usb.c:1001-1067 | each Microdrive operation is acknowledged exactly under its conditions: 3, 4 and 5 only in a synchronisation, mounting only if it works |
| `LinkAnswers.TransferAcknowledged` | firmware/bl616/nanoql_companion/nanoql_usb.c:1179-1232 | an FPGA transfer is opened exactly for 256 KiB to 2 MiB, if the Companion can be suspended and the device answers |
| `LinkAnswers.FpgaBlockRefused` | firmware/bl616/nanoql_companion/nanoql_usb.c:1234-1256 | an FPGA block refused for its place leaves the transfer as it is; any other failure ends it and lets the Companion run |
| `LinkAnswers.ProgramEffect` | firmware/bl616/nanoql_companion/nanoql_usb.c:1258-1313 | after an acknowledged programming request the board restarts, but a core loaded in recovery runs on and the Companion starts |
| `LinkCompanion.ServeKeepsCompanion` | firmware/bl616/nanoql_companion/nanoql_usb.c:1420-1580 | one request, whatever fails in it, keeps that |
| `LinkCompanion.MdvHandled` | firmware/bl616/nanoql_companion/nanoql_usb.c:1001-1067 | after any Microdrive operation, in any outcome, a suspended Companion has a session, transfer, synchronisation or a resume after the reply as its reason; `LinkHistory.MdvEffect` says which operations end a synchronisation |
| `LinkCompanion.AfterReplySettles` | firmware/bl616/nanoql_companion/nanoql_usb.c:1543-1580 | the deferred board reset, QL reset, resume and start leave no Companion suspended without a reason and nothing outstanding |
| `LinkCompanion.ResetReleasesCompanion` | firmware/bl616/nanoql_companion/nanoql_usb.c:1492-1503 | after a USB reset the Companion runs and no session or transfer is open |
| `LinkReplace.ReplaceNeverLosesData` | firmware/bl616/nanoql_companion/nanoql_usb.c:825-913 | in every state of a non-direct replacement, whatever fails, whatever else is requested and whenever it is cancelled, until the user deletes the file or begins the next upload: the old contents are at the target or in the backup, or the target holds the complete verified new file |
| `LinkReplace.CommitReplacing` | firmware/bl616/nanoql_companion/nanoql_usb.c:853-891 | one commit step, rollback included, keeps that |
| `LinkReplace.NextReplacing` | firmware/bl616/nanoql_companion/nanoql_usb.c:555-913 | any event keeps that, a repeated BEGIN or a DELETE that meets the open session included |
| `LinkLimits.BackupFate` | firmware/bl616/nanoql_companion/nanoql_usb.c:853-882 | over every run and any number of sessions: contents in the backup stay there throughout exactly when no phase 1 clears it for another file, no rollback puts it back and no phase 3 of its own session drops it |
| `LinkLimits.StepBackupFate` | firmware/bl616/nanoql_companion/nanoql_usb.c:853-891 | the same for one step, whatever the request and whatever fails |
| `LinkLimits.RollbackRestores` | firmware/bl616/nanoql_companion/nanoql_usb.c:883-891 | of the three, the rollback loses nothing: the contents are at the target again |
| `LinkLimits.CancelThenReplaceLoses` | firmware/bl616/nanoql_companion/nanoql_usb.c:853-872 | a run in which a cancel between phases 1 and 2 and a second replacement lose a file |
| `LinkLimits.DishonestRepeatEscapes` | firmware/bl616/nanoql_companion/nanoql_usb.c:762-770 | a run in which a repeat with other bytes leaves an unverified file certified |
| `LinkUploadSafety.UploadSafety` | tools/nanoql_link.py:1318-1479 | after an acknowledged opening, requests of this upload may be lost, late, repeated and mixed with resets and failing calls: a verifying reply means the target is the source byte for byte, and carries its size and CRC-32 |
| `LinkUploadSafety.FairStep` | firmware/bl616/nanoql_companion/nanoql_usb.c:669-913 | one request of this upload keeps the session ours, and a verifying reply is true |
| `LinkUploadSafety.OpeningIsOurs` | tools/nanoql_link.py:1346-1346 | an acknowledged BEGIN makes the session ours, whatever the board did before |
| `LinkUploadSafety.StaysComplete` | tools/nanoql_link.py:1407-1430 | late repeats of the verified request and resets leave the finished file alone |
| `LinkCompletes.FaultlessUploadSucceeds` | tools/nanoql_link.py:1318-1479 | when no call fails and no frame is lost, every upload to a name that is not a directory succeeds: the target is the source, no other user file changes, the Companion runs again unless a synchronisation holds it |
| `LinkCompletes.AllSent` | firmware/bl616/nanoql_companion/nanoql_usb.c:753-823 | every block of a faultless upload is taken, and the last completes a direct update |
| `LinkCompletes.CommitTurn` | firmware/bl616/nanoql_companion/nanoql_usb.c:825-913 | each of the COMMITs of a faultless upload: the next phase, or completion answered with size and CRC-32 |
| `LinkCompletes.CommitsAll` | firmware/bl616/nanoql_companion/nanoql_usb.c:825-913 | at most four commits then finish it, and further ones change nothing |
| `LinkClient.Host.Exchange` | tools/nanoql_link.py:1029-1088 | an exchange over the lossy, resetting link, with eight-bit sequence numbers: the board has run some requests under way, and an answer is the board's reply to this exchange's own frame, unless 255 exchanges in a row have gone unanswered before it; on a link that does nothing wrong the board serves the request once, and the reply arrives |
| `LinkClient.NumbersRepeat` | tools/nanoql_link.py:1035-1063 | a frame of an earlier exchange carries the current sequence number exactly when a multiple of 256 exchanges lies between |
| `LinkClient.LateFrameTaken` | tools/nanoql_link.py:1029-1088 | the bound is needed: an INFO frame held up passes for the frame of a DELETE exactly after every 256 exchanges; its answer is taken, and the file is still there |
| `LinkClient.DataAnswered` | tools/nanoql_link.py:1493-1503 | a block read back is the file's own, though frames and replies get lost, repeated and delayed |
| `LinkClient.Host.SendBlocks` | tools/nanoql_link.py:1359-1391 | on every link, success means that each block of 240 bytes of the source, and the shorter last one, was asked for and answered, once and in order; an inline verification means the target is the source; and when nothing goes wrong it succeeds, with all of the source taken |
| `LinkClient.Host.Commit` | tools/nanoql_link.py:1398-1466 | COMMIT with its repetition, phases and read-back: success means equal size and CRC-32, and equality unless it came from the read-back; when nothing goes wrong it succeeds without one, and when only the replies to COMMIT are lost an update in place is found complete by one |
| `LinkClient.Host.ReadBack` | tools/nanoql_link.py:1481-1513 | the read-back returns size and CRC-32 of the file that is there; when nothing goes wrong it does return them, and leaves the board as it was |
| `LinkClient.Host.Put` | tools/nanoql_link.py:1318-1479 | an upload that returns normally had INFO, BEGIN and every block of the source answered in that order, and left the source's size and CRC-32 at the target, and the source itself unless the desktop had to read back; when nothing goes wrong, the upload of any source of less than 2^32 bytes to any name that is no directory, on an idle board, does succeed, leaves every other user file alone and lets the Companion run |
| `LinkClient.Host.Transfer` | tools/nanoql_link.py:1359-1479 | blocks and COMMIT of an upload; if they fail, the last thing asked for is CANCEL |
| `LinkFrame.OneByteDetected` | tools/nanoql_link.py:829-835 | messages of any equal length that differ in exactly one byte have different CRC-8 |
| `LinkFrame.CheckValue` | tools/nanoql_link.py:829-835 | the CRC-8 of the digits 1 to 9 is 0xF4, the check value of polynomial 7 without reflection |
| `LinkFrame.ByteStepInjective` | firmware/bl616/nanoql_companion/nanoql_usb.c:362-372 | the CRC step is injective in the byte |
| `LinkFrame.RegistersStayApart` | firmware/bl616/nanoql_companion/nanoql_usb.c:362-372 | registers that differ stay different over any common tail |
| `LinkFrame.LineDelivered` | firmware/bl616/nanoql_companion/nanoql_usb.c:1511-1545 | from idle, any noise without NQ and any encoded requests: exactly those are delivered, in order, and the receiver waits for the next magic |
| `LinkFrame.FrameJudged` | firmware/bl616/nanoql_companion/nanoql_usb.c:1420-1447 | any frame with a good length is judged as a whole and leaves the receiver idle |
| `LinkFrame.DeliveredWasSent` | firmware/bl616/nanoql_companion/nanoql_usb.c:1511-1545 | whatever the stream, a request is delivered only at the end of exactly its own encoding |
| `LinkFrame.DamagedFrameRefused` | firmware/bl616/nanoql_companion/nanoql_usb.c:1434-1437 | a frame damaged in one byte of sequence, payload or CRC is refused with error 2 |
| `LinkReceiver.Ring.Push` | firmware/bl616/nanoql_companion/nanoql_usb.c:337-348 | a byte is appended unless 2047 are waiting |
| `LinkReceiver.Ring.Pop` | firmware/bl616/nanoql_companion/nanoql_usb.c:350-360 | the oldest byte comes out; what went in is always what came out plus what waits |
| `LinkReceiver.Ring.Clear` | firmware/bl616/nanoql_companion/nanoql_usb.c:1498-1502 | a reset empties the ring |
| `LinkReceiver.FirmwareCrc8` | firmware/bl616/nanoql_companion/nanoql_usb.c:362-372 | the firmware's loop computes the specified CRC-8 |
| `LinkReceiver.DesktopCrc8` | tools/nanoql_link.py:829-835 | the desktop's loop on wider, masked integers computes the same |
| `LinkReceiver.Receiver.Step` | firmware/bl616/nanoql_companion/nanoql_usb.c:1511-1545 | one turn of the switch, with the payload stored in place, is one step of the automaton |
| `LinkReceiver.Receiver.ProcessFrame` | firmware/bl616/nanoql_companion/nanoql_usb.c:1420-1447 | version first, then CRC, then delivery |
| `LinkReceiver.Drain` | firmware/bl616/nanoql_companion/nanoql_usb.c:1505-1545 | emptying the ring feeds exactly its bytes, in order |
| `LinkReceiver.LinkInput.Arrive` | firmware/bl616/nanoql_companion/nanoql_usb.c:337-348 | the interrupt appends a byte unless the ring is full, and what the receiver has delivered stays what the bytes taken so far deliver |
| `LinkReceiver.LinkInput.Turn` | firmware/bl616/nanoql_companion/nanoql_usb.c:1505-1545 | a turn of the link task takes all that waits; what has been delivered is then what all stored bytes deliver |
| `LinkReceiver.LinkInput.Reset` | firmware/bl616/nanoql_companion/nanoql_usb.c:1492-1503 | a reset forgets waiting bytes and a frame half received |
| `LinkReceiver.AllDelivered` | firmware/bl616/nanoql_companion/nanoql_usb.c:1505-1545 | however bytes and turns interleave, once the ring is empty exactly the requests on the line have been delivered, in order |
| `Flash.PlanDisciplined` | firmware/bl616/nanoql_companion/nanoql_flash.c:394-406 | for every length: no program command crosses a page or leaves the stream, its block is erased before it and not after, no byte is programmed twice and every byte is |
| `Flash.FlushExtends` | firmware/bl616/nanoql_companion/nanoql_flash.c:394-406 | on a chip where erase sets and program ANDs, one flush extends the stream by one page whatever the cells held |
| `Flash.PlanFlush` | firmware/bl616/nanoql_companion/nanoql_flash.c:394-406 | the plan grows by exactly the commands of a flush |
| `FlashWriter.EraseChecked` | firmware/bl616/nanoql_companion/nanoql_flash.c:319-354 | an erase touches one block and is believed only if sixteen bytes read back erased |
| `FlashWriter.ProgramChecked` | firmware/bl616/nanoql_companion/nanoql_flash.c:356-392 | a program command touches its bytes only and succeeds only if they read back as sent |
| `FlashWriter.SoundAfter` | firmware/bl616/nanoql_companion/nanoql_flash.c:394-406 | after a flush, successful or not, everything of this round over the 2^24 addresses is still stored and nothing past its last block has changed; a full round is what the next begins with |
| `FlashWriter.FlashWriter.Begin` | firmware/bl616/nanoql_companion/nanoql_flash.c:455-480 | a session opens only for a length that fits an unlocked chip, of any size, with nothing written; on a working chip it does open |
| `FlashWriter.FlashWriter.FlushPage` | firmware/bl616/nanoql_companion/nanoql_flash.c:394-406 | the page buffer goes out whole or stays, and the stream stays stored |
| `FlashWriter.FlashWriter.Write` | firmware/bl616/nanoql_companion/nanoql_flash.c:482-499 | any chunk is appended to the stream, or refused when it would pass the announced length |
| `FlashWriter.FlashWriter.Finish` | firmware/bl616/nanoql_companion/nanoql_flash.c:501-509 | finish succeeds only for a complete stream and then all of it is stored |
| `FlashWriter.ProgramStream` | firmware/bl616/nanoql_companion/nanoql_flash.c:455-518 | for every length and chunking: if all calls succeed, the chip holds what the three address bytes make of the stream and the commands were the plan with its addresses cut to them; up to 2^24 bytes that is the bitstream from zero with nothing outside its blocks changed; on a working chip that it fits all calls do succeed |
| `FlashWriter.StoredExactly` | firmware/bl616/nanoql_companion/nanoql_flash.c:297-406 | on a working chip, at every length: after success the stream is stored if and only if it has at most 2^24 bytes, or its first 2^24 bytes equal what the last rounds leave and the cells past 2^24 held their part before |
| `FlashWriter.TailTooFar` | firmware/bl616/nanoql_companion/nanoql_flash.c:297-406 | the same of a stream of less than 2^25 bytes: exactly when its first blocks are the tail and erased cells and the cells past 2^24 held the tail |
| `FlashWriter.StoredNeeds` | firmware/bl616/nanoql_companion/nanoql_flash.c:297-406 | on any chip, failing silently or not, a stream of more than 2^24 bytes that was reported written is stored only if its last round repeats its beginning, the round before the rest, and the cells past 2^24 held their part |
| `FlashWriter.LongStreamLost` | firmware/bl616/nanoql_companion/nanoql_flash.c:455-499 | 2^24 zeros and a one are accepted, reported written and not stored |
| `Spi.ReverseTwice` | firmware/bl616/nanoql_companion/nanoql_flash.c:84-89 | reversing a byte twice gives it back |
| `Spi.ReverseBit` | firmware/bl616/nanoql_companion/nanoql_flash.c:84-89 | bit k of the result is bit 7 - k |
| `Spi.RebuildByte` | firmware/bl616/nanoql_companion/nanoql_flash.c:217-223 | a byte is rebuilt exactly when the next sample holds its lowest bit, and to all but that bit in any case |
| `Spi.SpiPort.ShiftLine` | firmware/bl616/nanoql_companion/nanoql_flash.c:91-124 | the bit loop sends and samples least significant bit first, byte by byte |
| `Spi.SpiPort.RebuildInPlace` | firmware/bl616/nanoql_companion/nanoql_flash.c:217-223 | the aliased forward loop gives what the untouched samples would |
| `Spi.SpiPort.Transfer` | firmware/bl616/nanoql_companion/nanoql_flash.c:202-225 | the chip sees the bytes most significant bit first; a reply one bit late is recovered for every length, and all but the last byte even if the last bit is lost |
| `Spi.SpiPort.Command` | firmware/bl616/nanoql_companion/nanoql_flash.c:227-243 | the same with the command byte in front, sent and received in the same buffers |
| `Spi.SpiPort.ReadFlash` | firmware/bl616/nanoql_companion/nanoql_flash.c:297-317 | command, address and one disposable byte make every requested byte exact, even if the last bit of all is lost |
| `Png.UpdateAdler32` | firmware/bl616/nanoql_companion/nanoql_screenshot.c:123-132 | the running sums, below 65521 throughout, are the whole-message Adler-32 |
| `Png.StreamRoundTrip` | firmware/bl616/nanoql_companion/nanoql_screenshot.c:240-258 | for every number of rows and any contents an independent inflater returns exactly the rows, with the Adler-32 checked |
| `Png.InflateBlock` | firmware/bl616/nanoql_companion/nanoql_screenshot.c:240-253 | one stored block as the inflater reads it, last or not |
| `Png.StreamLength` | firmware/bl616/nanoql_companion/nanoql_screenshot.c:215-215 | the length announced before the first row is the length of the stream |
| `Png.ReadChunk` | firmware/bl616/nanoql_companion/nanoql_screenshot.c:150-163 | a written chunk reads back with its type, data and CRC-32 |
| `Png.FileRoundTrip` | firmware/bl616/nanoql_companion/nanoql_screenshot.c:207-262 | every file is well formed and reads back as size and rows |
| `Screen.LatchIsParity` | firmware/bl616/nanoql_companion/nanoql_screenshot.c:184-195 | the flash latch is on exactly after an odd number of flash bits in its line |
| `Screen.LatchHoldsLast` | firmware/bl616/nanoql_companion/nanoql_screenshot.c:184-195 | the flash colour is that of the last flash bit before the pixel |
| `Screen.Mode4Seen` | firmware/bl616/nanoql_companion/nanoql_screenshot.c:196-205 | pixel x of a mode 4 line in both pictures, from the bits of its two bytes: black, red, green or white |
| `Screen.Mode8Seen` | firmware/bl616/nanoql_companion/nanoql_screenshot.c:178-195 | pixel x of a mode 8 line in both pictures, from the green, red and blue bits of its cell, or of the last cell with a flash bit while the flash is on and shown |
| `Screen.BlankSeen` | firmware/bl616/nanoql_companion/nanoql_screenshot.c:172-177 | a blanked line is black |
| `Screen.FusedIsTwoPass` | firmware/bl616/nanoql_companion/nanoql_screenshot.c:172-205 | for every line and flag value, decoding with fused doubling equals decoding to 512 pixels and then doubling the finished row |
| `Screen.EverySourceLineShown` | firmware/bl616/nanoql_companion/nanoql_screenshot.c:231-232 | no source line is skipped by the aspect correction |
| `Screen.LinesInOrder` | firmware/bl616/nanoql_companion/nanoql_screenshot.c:231-232 | source lines come in order, one after the other |
| `Screen.RowsOfLine` | firmware/bl616/nanoql_companion/nanoql_screenshot.c:231-232 | row y of 698 shows line s of 256 exactly when y / 698 lies in [s / 256, (s + 1) / 256) |
| `Screenshot.Camera.ReadSource` | firmware/bl616/nanoql_companion/nanoql_screenshot.c:80-111 | a line read in requests of at most eight bytes is the frame's line |
| `Screenshot.Camera.DecodeRow` | firmware/bl616/nanoql_companion/nanoql_screenshot.c:172-205 | the row buffer, filled in place, is the specified wide row |
| `Screenshot.WriteChunk` | firmware/bl616/nanoql_companion/nanoql_screenshot.c:150-163 | three writes append exactly one chunk |
| `Screenshot.WriteRow` | firmware/bl616/nanoql_companion/nanoql_screenshot.c:240-253 | one row advances file, CRC-32 and Adler-32 together |
| `Screenshot.SavePicture` | firmware/bl616/nanoql_companion/nanoql_screenshot.c:207-262 | with the cached row and running checksums, a save that succeeds appended exactly the PNG file of the 698 wide rows, and it succeeds when every read and write does |
| `Screenshot.DecodeFrame` | tools/nanoql_link.py:54-77 | the desktop's first pass gives the native rows |
| `Screenshot.ScaleFrame` | tools/nanoql_link.py:80-90 | its second pass gives exactly the rows the firmware writes |
| `Screenshot.DesktopRows` | tools/nanoql_link.py:45-90 | native or scaled, the desktop's rows are the specified ones |
| `Screenshot.PictureReadsBack` | firmware/bl616/nanoql_companion/nanoql_screenshot.c:207-262 | for every frame and flag value the firmware's file reads back as those rows |
| `BusBridge.Bridge.Clock` | src/ql_cpu_bus_bridge.sv:38-119 | the clocked block updates the registers as one specified step |
| `BusBridge.OneAcknowledgeEach` | src/ql_cpu_bus_bridge.sv:38-119 | in every run, accepted requests minus DTACK assertions since the last reset are 1 while memory works and 0 otherwise |
| `BusBridge.BalanceCountsDropped` | src/ql_cpu_bus_bridge.sv:38-119 | over resets too, the difference is the transaction under way plus exactly the accepted ones that resets dropped |
| `BusBridge.ResetUnbalances` | src/ql_cpu_bus_bridge.sv:38-51 | a run with a reset in a transaction that leaves two requests accepted and no DTACK |
| `BusBridge.AcknowledgeIsEarned` | src/ql_cpu_bus_bridge.sv:76-103 | DTACK falls only after begin, acceptance, completion and a sampled bus phase of this very cycle, with no timing delay, and a read delivers the memory's last data |
| `BusBridge.AcknowledgedExactly` | src/ql_cpu_bus_bridge.sv:53-103 | the converse too, from the inputs alone: of a cycle begun and accepted without a reset, DTACK falls at an edge if and only if that is the first without timing delay at which the memory has completed this direction, now or since acceptance, and an earlier edge of the cycle had a bus phase; a read then delivers the data of the last valid edge |
| `BusBridge.AlwaysAcknowledged` | src/ql_cpu_bus_bridge.sv:76-103 | so every accepted cycle is acknowledged: by any such edge without timing delay, DTACK has fallen once |
| `BusBridge.AcceptedWhenReady` | src/ql_cpu_bus_bridge.sv:76-84 | a request stays up until the first ready edge, and is accepted there |
| `BusBridge.ReleasedAfterCycle` | src/ql_cpu_bus_bridge.sv:105-116 | after DTACK, the first edge with AS or both strobes high releases it and makes the bridge idle |
| `BusBridge.RequestIsProcessors` | src/ql_cpu_bus_bridge.sv:62-71 | the request offered has the processor's direction, lanes and write data, and its address bits 22 to 1 |
| `BusBridge.RequestStaysFixed` | src/ql_cpu_bus_bridge.sv:53-103 | address, lanes, direction and write data stay as presented until the cycle ends |
| `BusBridge.BeginsWhenAddressed` | src/ql_cpu_bus_bridge.sv:53-74 | a request begins exactly when an idle bridge sees AS and a strobe and no interrupt acknowledge |
| `BusBridge.SecondHalfBegins` | src/ql_cpu_bus_bridge.sv:105-116 | after both strobes are released under AS, the next strobe begins a second transaction with its own address and data, however late |
| `BusBridge.HeldCycleWaits` | src/ql_cpu_bus_bridge.sv:105-116 | while a strobe is held after DTACK nothing new begins |
| `IntelHex.ParseIntelHex` | tools/prepare_ql_ipc_rom.py:10-50 | the reader's loops over rom, written and upper address return exactly what the text stands for |
| `IntelHex.StoreData` | tools/prepare_ql_ipc_rom.py:31-38 | a data record is stored whole, or refused when it leaves the ROM |
| `IntelHex.AcceptedExactly` | tools/prepare_ql_ipc_rom.py:10-50 | a text is accepted exactly when every line may stand, an end record occurs and every byte is reached; each byte is what the last record to reach it says |
| `IntelHex.FaultyRecordRefused` | tools/prepare_ql_ipc_rom.py:22-43 | a text is refused if any of its lines is a record with a wrong sum, a length that does not match, or an extended address of other than two bytes |
| `IntelHex.AlteredByteRefused` | tools/prepare_ql_ipc_rom.py:23-24 | in a text that may hold any lines, altering one byte of one sound record makes it refused |
| `IntelHex.NoColonRefused` | tools/prepare_ql_ipc_rom.py:17-21 | so does a line that is not blank and begins with anything but a colon |
| `IntelHex.BadDigitRefused` | tools/prepare_ql_ipc_rom.py:22-22 | so does a record with a character that is no hexadecimal digit |
| `IntelHex.DataOutsideRefused` | tools/prepare_ql_ipc_rom.py:31-36 | so does data that leaves the ROM |
| `IntelHex.ExtendedAddressRefused` | tools/prepare_ql_ipc_rom.py:31-44 | so does data after an extended address other than zero, up to the next such record |
| `IntelHex.OtherTypesIgnored` | tools/prepare_ql_ipc_rom.py:30-44 | a sound record of any other type changes nothing, wherever it stands |
| `IntelHex.ReadsBack` | tools/prepare_ql_ipc_rom.py:10-50 | checksummed records that agree with an image, in any order and split, read back as the image if they cover it and an end record is there; otherwise the file is refused |
| `IntelHex.HexRoundTrip` | tools/prepare_ql_ipc_rom.py:22-22 | hexadecimal text decodes to the bytes it was made from |

## Left out

- Serial ports, USB descriptors and callbacks, task priorities, sleeps and wall-clock timeouts; their effects appear as lost or late frames, resets and bounded waiting with an arbitrary bound.
- FatFs and the SD driver: a card is a map from names to contents, and every call on it may fail before or after its effect, or write short. Directories are not nested; NO_PATH is NO_FILE, and `FR_EXIST` on a rename is its only other code of its own.
- MKDIR and the parent directories of an upload make no directory entries in the model; they are steps that may fail.
- Gowin JTAG recovery sequences, identification, status polling and register addresses: a Flash command with its write-enable and waiting is one step that may fail.
- Disk traversal, name mangling, executable detection and sorting before a cartridge is built; the file list and its order are inputs.
- The text of error messages: a Python exception is `Rejected`, a firmware error its number.
- The bytes of each command inside a NanoQL Link payload and the path rules of `fs_make_path`: requests arrive decoded, with a path that is a name or refused. Listing entries, version strings and keyboard commands carry no content.
- Commands of a wrong length are one request with one error; LIST_NEXT of a wrong length answers 22 and FPGA data or programming of a wrong length 6, none of which changes state. The read-only diagnostic commands are not requests of the model.
- Of the two devices an FPGA transfer can be for, `LinkFirmware` has the Flash writer behind it; the SRAM loader, and a Flash probe, are outcomes.
- `filesystem_get`: the same loop as the modelled read-back, with a local file instead of a checksum.
- LinkClient.Host.Put: requires fewer than 255 unanswered exchanges in a row before it, as the methods it is built on do, because beyond that a late frame can pass for a current one and no answer shows anything; `LinkClient.Host.Exchange` itself has no such precondition.
- Messages that collide under CRC-8 or CRC-32: a frame damaged in several bytes counts as lost or refused, and equal size and CRC-32 is all a read-back proves.
- The zlib compressor of the desktop's own PNG; its rows are compared before compression.
- `Png.FileRoundTrip` reads truecolour files with one IDAT chunk and stored blocks, the only kind the firmware writes.
- A Flash chip is a whole number of 64 KiB blocks.
- `log` and `synced` of `LinkServer.Upload` are what the counters stand for; the firmware keeps neither, and in `LinkFirmware.UploadState` they are ghost.
- Raw and hexadecimal-pair forms of the 8049 firmware beside Intel HEX; extracting a parsed image to desktop files.
- RTL beyond the bus bridge: its Microdrive, video, SDRAM, timing and host-link modules are not part of this model.
