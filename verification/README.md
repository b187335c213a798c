# STM32 A/B update, its links and its flash logs, and the staged rollout above it

This project models and proves four parts of the smart-home system.

1. **The A/B boot loader and the application's self-confirmation.** Flash is one 1 MB byte sequence holding the
   metadata sector and both slots; RAM holds the update session and a copy of the metadata. One state machine
   (`Machine`) covers power-up, every downlink frame, the boot decision, the confirmation, resets, and a power cut or
   a refused flash operation between any two byte programs or sector erases. `Safety`, `Runs` and `Theorems` carry an
   inductive invariant over all its runs; `Ledger` numbers the commits of a run without bound, `Floors` follows the
   version floor and `FloorLaw` says which versions it lets in, `Overrun` and `LowVersion` say what a PREPARE refused
   during a session can do. `Verdicts` reads the boot decision off the bytes of the slots, `Contract` is the answer to
   every request as the gateway sees it, `NoSession` what is left of an update after an ABORT. `EndToEnd` follows one
   image from PREPARE to the boot that runs it, `InOrder` shows that a host that sends it in order is acknowledged
   throughout; `Trials` counts how often an image that never confirms is booted.
2. **The AA 55 frame protocol.** `Framing` is the gateway's printer and resynchronising parser, `LinkReader` the boot
   loader's own reader, `Crc` the two checksums.
3. **The external flash log and the replay of cached reports.** `StorageLog` says what the storage task does,
   `StorageTask` does it in place over the flash driver, `StorageHistory` proves that a rescan finds what RAM holds,
   `StorageGuards` which damage it detects and what starting a region over costs, `Replay` and `Gateway` model the
   pending table and the acknowledgement-driven replay, `Uplink` runs both tasks side by side.
4. **The staged rollout.** `Batch` says what each request does to a run, `BatchService` does it item by item,
   `BatchRuns` proves what every sequence of requests keeps, `BatchEffects` what each request does to every item.

## How to read it

`Session`, `Boot`, `MetaLog`, `StorageLog`, `Replay` and `Batch` hold specification functions; the classes and methods
in `Flash`, `MetaStore`, `Device`, `Framing`, `LinkReader`, `StorageTask`, `Gateway` and `BatchService` have the
loops and in-place updates of the firmware and of the service and are proved equal to those functions. The lemmas are
about the functions.

Power and hardware failures are one number. In a method the ghost result `ops` (or `n`, or `done`) says how many flash
operations succeeded; in a run every event carries such a number, and `cut` says that power is lost at that point. A
theorem for every `ops` is therefore a theorem for every place at which power can be lost.

Three conditions on runs appear in the theorems; the last two can be evaluated from the payload of the PREPARE.

- `CleanTear`: no torn metadata record passes for a whole one. `MetaLog.TornValidIff` says exactly which cuts do,
  namely those whose blank tail has the checksum of all ones; and a commit that fails without a power cut fails before
  its first flash operation, or while appending and before its last clear bit. `Collides` can be evaluated from the
  record and the cut alone.
- `PrepareContained`: a PREPARE, accepted or refused, does not announce more than a slot's 0x60000 bytes to a session
  on slot A, unless its chunk size is 0. A refused one has already replaced size, checksum, chunk size and version
  (bootloader_ota.c lines 358 to 369), and `Overrun.RefusedReachesHomeIff` says exactly when DATA frames then change
  a byte of the home slot.
- `AboveFloor`, for `Theorems.VersionsNeverFall` alone: a PREPARE in a session announces no version below the floor.
  `LowVersion.RelabelledFallsIff` says exactly when confirmed versions fall after a refused one.

## Where the code differs from what one would expect

- The boot path commits `boot_attempts` under the serial number already stored, and the scan keeps the first record on
  a tie. Such a commit is invisible until the sector is erased and rewritten. `Trials.TrialsCounted` gives the exact
  number of trial boots that follow, `Trials.IntendedBoundIff` says when the intended limit of three holds,
  `Trials.FreshImageExceeds` that a freshly committed image exceeds it, and `Trials.BumpedBounded` that three would
  be the limit if every boot commit took the next serial number.
- The rewrite of a full metadata sector is not atomic: `MetaHistory.CommitAtomicIffSlotFree`.
- VERIFY accepts stack pointers up to 0x2002FFFF, the boot check only those below 0x20020000:
  `EndToEnd.VerifiedBoots` and `EndToEnd.SentImageBoots` state the boundary as an equivalence.
- A PREPARE that is refused during a session has already overwritten size, checksum, chunk size and version.
  `Overrun.RefusedPrepareReachesHome` is the input at which the next DATA frame clears a byte of the home slot, and
  `LowVersion.RelabelsFall` the one at which a COMMIT installs a version below the floor.
- After a rollback the boot falls back to the active slot first and to the confirmed one only if that fails, where
  section 7 of `stm32_ota_contract.md` names the confirmed slot alone: `Verdicts.DecisionExact`.
- COMMIT does not require VERIFY. The no-brick theorem does not need it; the boot check decides.
- The boot loader's frame reader looks at bytes in pairs after an AA and misses a frame directly behind an odd run of
  AA bytes, which the gateway's parser does not: `LinkReader.NoiseOutcome`.
- In the external log a write to a place that is not erased first erases whole sectors, and with them earlier records:
  `StorageHistory.PutExact` and `StorageHistory.TornWriteCosts`. A failed read counts as "not erased" and so can cost
  a clean sector its contents; `StorageTask.PutDone` names the two outcomes a reported success can have. A scan that a
  failed read stops has already reset its counters: `StorageTask.Task.ScanEvents` and `StorageTask.Task.ScanCache`.
- The stored checksum of a log record is the payload's mixed with the header's shifted out by one bit. Every change of
  a payload byte is found, a change of the header only if it shows in the low 31 bits of its checksum:
  `StorageGuards.HeaderChangeFoundIff`. When the event region starts over, a restart finds one event while the counter
  in RAM goes on: `StorageGuards.EventWrapForgets`.
- `_derive_batch_run_status` never returns "approved" for a run whose items have mapped statuses:
  `Batch.DerivedMeaning`. A retry with a device listed twice can leave the approval's list of failed devices wrong:
  `BatchRuns.RetryAlwaysExactIff` says for which lists, `BatchRuns.RetryExactIff` at which answers. A retry also acts
  on a terminated run.

## Model

| member | source | states |
|---|---|---|
| Crc.FeedInjective | SmartHome/bootloader/bootloader_metadata.c:106-121 | For both polynomials and data of any length, two different registers fed the same bytes stay different. |
| Crc.Crc32DetectsByte | SmartHome/bootloader/bootloader_metadata.c:106-121 | Two byte strings that differ in exactly one byte have different CRC-32 values, whatever their length. |
| Crc.Crc16DetectsByte | SmartHome/1_App/app_gateway.c:508-530 | The same for the MODBUS CRC-16 of the frames. |
| Crc.KnownAnswers | SmartHome/bootloader/bootloader_metadata.c:106-121 | Which CRCs they are: the reflected CRC-32 of polynomial EDB88320, started from ones and complemented, and the CRC-16 of A001, fixed by their answers to two inputs each. |
| Crc.ComputeCrc32 | SmartHome/bootloader/bootloader_metadata.c:106-121 | The bit loop returns the CRC-32 of the buffer. |
| Crc.ComputeCrc16 | SmartHome/bootloader/bootloader_ota.c:92-107 | The bit loop returns the CRC-16 of the buffer. |
| MetaRecord.DecodeEncode | SmartHome/bootloader/bootloader_metadata.h:20-45 | Reading back the 60 bytes of a metadata record gives every field as it was. |
| MetaRecord.EncodeDecode | SmartHome/bootloader/bootloader_metadata.h:20-45 | Any 60 bytes are the layout of the record read from them. |
| MetaRecord.FieldOffsets | SmartHome/bootloader/bootloader_metadata.h:20-45 | Where each field lies in the sixty bytes. |
| MetaRecord.SealedIsValid | SmartHome/bootloader/bootloader_metadata.c:123-172 | A record whose checksum has been updated passes the validator and reads back unchanged. |
| MetaRecord.OneByteChangeRejected | SmartHome/bootloader/bootloader_metadata.c:123-148 | Any change confined to one byte of a valid record is rejected. |
| MetaRecord.Validate | SmartHome/bootloader/bootloader_metadata.c:123-148 | The validator accepts exactly the records with the right magic, schema and checksum over the record with its checksum field zeroed. |
| MetaRecord.UpdateCrc | SmartHome/bootloader/bootloader_metadata.c:166-172 | Only the checksum field changes, to the record's checksum. |
| Flash.CopyIsSplice | SmartHome/bootloader/bootloader_flash.c:39-97 | Programming, which only clears bits, equals a plain copy exactly when no cell lacks a bit the data needs. |
| Flash.RewriteCompletes | SmartHome/bootloader/bootloader_flash.c:39-97 | Writing the same data over a partly finished write completes it. |
| Flash.WriteIsCopy | SmartHome/bootloader/bootloader_flash.c:39-97 | When a write reports success the range equals the data and nothing outside it changed. |
| Flash.Chip.Write | SmartHome/bootloader/bootloader_flash.c:39-97 | For every alignment and length the byte head, word body and byte tail program the first n bytes in place; success is reported exactly when all were programmed and read back equal. |
| Flash.Chip.EraseSlot | SmartHome/bootloader/bootloader_flash.c:17-37 | Erases the three sectors of a slot in order, stopping at a refusal; any other address is refused untouched. |
| Flash.Chip.ReadBack | SmartHome/bootloader/bootloader_flash.c:83-97 | The comparison succeeds exactly when the range holds the data. |
| Flash.PackedWord | SmartHome/bootloader/bootloader_flash.c:6-11 | Packing four bytes into a word and programming the word programs those bytes in order. |
| MetaLog.CommitRefines | SmartHome/bootloader/bootloader_metadata.c:184-233 | Committing bytes to the sector and then scanning gives the same log as scanning and then committing to the log, at every cut. |
| MetaLog.TornValidIff | SmartHome/bootloader/bootloader_metadata.c:78-94 | A record cut after n byte programs validates exactly when nothing was missing or its blank tail collides with an erased checksum. |
| MetaHistory.AppendEntry | SmartHome/bootloader/bootloader_metadata.c:30-76 | A record appended at the first free slot leaves no hole, and the scan takes it exactly when it is valid and newer. |
| MetaHistory.AppendAtomic | SmartHome/bootloader/bootloader_metadata.c:78-94 | Wherever power is lost during an append, loading yields the old metadata or that of a finished commit, and used slots stay a hole-free prefix. |
| MetaHistory.CommitDone | SmartHome/bootloader/bootloader_metadata.c:196-233 | A finished commit uses one more slot, or the first of a rewritten sector, and is loaded if newer or rewritten. |
| MetaHistory.CompactionTears | SmartHome/bootloader/bootloader_metadata.c:221-226 | Cut between erase and rewrite of a full sector, no metadata is left. |
| MetaHistory.CommitAtomicIffSlotFree | SmartHome/bootloader/bootloader_metadata.c:196-233 | A commit is atomic at every cut if and only if the sector still has a free slot. |
| MetaHistory.NewerIsGreater | SmartHome/bootloader/bootloader_metadata.c:14-17 | Within half the number space the 16-bit comparison decides which unbounded commit number is greater. |
| MetaHistory.BestIsFirstGreatest | SmartHome/bootloader/bootloader_metadata.c:30-61 | After any number of slots the scan holds the earliest valid record with the greatest commit number so far. |
| MetaHistory.ScanFindsGreatest | SmartHome/bootloader/bootloader_metadata.c:30-61 | The scan yields slot j if and only if j is the earliest valid record with the greatest unbounded commit number, across 16-bit wrap-around. |
| MetaHistory.PacedWindow | SmartHome/bootloader/bootloader_metadata.c:14-61 | Commit numbers that gain at most two per slot stay within half the number space over the 1092 slots of a sector. |
| MetaHistory.CommitKeepsPace | SmartHome/bootloader/bootloader_metadata.c:196-233 | Every commit, whole or torn, appended or rewritten, that is numbered at most two above the held one and in agreement with its serial number, extends the numbering given: it stays paced and the log has no hole. |
| MetaHistory.AppendKeepsPace | SmartHome/bootloader/bootloader_metadata.c:78-94 | The same for a record appended at the first free slot: the other records keep their numbers. |
| MetaHistory.NextSteps | SmartHome/bootloader/bootloader_metadata.c:14-17 | The number of a commit, the least from the held one on that ends in its serial number, is at most two above the held one. |
| Ledger.EventLog | SmartHome/bootloader/bootloader_metadata.c:196-233 | Every event of the device changes the log by exactly the one commit it makes, and that commit is valid and its serial number follows the held one. |
| Ledger.LatestEntered | SmartHome/bootloader/bootloader_metadata.c:30-61 | Whatever a commit leaves, the record the scan then finds carries the greatest number of a commit that landed, also across a rewrite. |
| Ledger.EnteredBooked | SmartHome/bootloader/bootloader_metadata.c:196-233 | A commit, whole or torn, appended or rewritten, keeps the run's own numbers in agreement with the log. |
| Ledger.BookExists | SmartHome/bootloader/bootloader_metadata.c:30-61 | Every log the invariant allows has such numbers to start from. |
| MetaStore.FindLatest | SmartHome/bootloader/bootloader_metadata.c:30-61 | The loop over the sector returns the newest record of the log, or none. |
| MetaStore.FindAppendSlot | SmartHome/bootloader/bootloader_metadata.c:63-76 | Returns the first free slot, which is the number of slots in use, or none. |
| MetaStore.OtaMetaLoad | SmartHome/1_App/app_gateway.c:292-334 | The application's scan returns the same record as the boot loader's on every sector content. |
| MetaStore.ProgramRecord | SmartHome/bootloader/bootloader_metadata.c:78-94 | Sixty byte programs into a blank slot; success exactly when all were done, and then the record reads back and validates. |
| MetaStore.EraseMeta | SmartHome/bootloader/bootloader_metadata.c:96-104 | The sector is blank, or untouched if the erase is refused. |
| MetaStore.CommitMeta | SmartHome/bootloader/bootloader_metadata.c:196-233 | The loader's commit leaves the sector the specified commit leaves after the flash operations that succeeded, and reports success exactly when they were enough. |
| MetaStore.OtaMetaCommit | SmartHome/1_App/app_gateway.c:336-399 | The same for the application's commit. |
| Device.LoadOrHeal | SmartHome/bootloader/bootloader_main.c:266-280 | Power-up yields the newest metadata, or the factory default written back. |
| Device.BootLoader.HandlePrepare | SmartHome/bootloader/bootloader_ota.c:343-448 | Flash, session and reply are those of the specified PREPARE, including the fields overwritten before a refusal. |
| Device.BootLoader.HandleData | SmartHome/bootloader/bootloader_ota.c:450-526 | Flash, session and reply are those of the specified DATA step, duplicates and failed writes included. |
| Device.BootLoader.HandleVerify | SmartHome/bootloader/bootloader_ota.c:528-564 | Session and reply are those of the specified VERIFY; flash is untouched. |
| Device.BootLoader.HandleCommit | SmartHome/bootloader/bootloader_ota.c:566-611 | Flash, RAM metadata, reply and restart are those of the specified COMMIT, which does not ask for a VERIFY. |
| Device.BootLoader.HandleFrame | SmartHome/bootloader/bootloader_ota.c:651-677 | Dispatch by frame kind; unknown kinds change nothing. |
| Device.BootLoader.OtaLoop | SmartHome/bootloader/bootloader_ota.c:613-680 | The loop's end, flash, session and metadata are those of serving the inputs one after another. |
| Device.ServeRuns | SmartHome/bootloader/bootloader_ota.c:613-680 | Serving inputs without a timeout is a run of the state machine over the frames among them. |
| Device.KnownIsAnswered | SmartHome/bootloader/bootloader_ota.c:651-677 | The frames that end a silence are exactly those that are answered. |
| Device.IdleCountsSilence | SmartHome/bootloader/bootloader_ota.c:626-648 | The loop has timed out if and only if after some of the inputs, with no restart before, the silence since the last known frame had reached the limit; while it waits, its counter is that silence. |
| Device.NoLimitNoEnd | SmartHome/bootloader/bootloader_ota.c:626-648 | Without a limit, as in a loader that found nothing to boot, the loop never expires. |
| Device.BootLoader.SlotImageValid | SmartHome/bootloader/bootloader_main.c:208-249 | Accepts a slot exactly when size, vector table and CRC-32 agree with the metadata. |
| Device.BootLoader.BootDecision | SmartHome/bootloader/bootloader_main.c:329-384 | Flash, metadata and jump are those of the specified decision: trial, rollback, active, confirmed, or stay. |
| Device.ConfirmSlotEarly | SmartHome/1_App/app_gateway.c:420-481 | Flash afterwards is that of the specified confirmation; nothing is written unless the running slot is pending. |
| Device.Promote | SmartHome/1_App/app_gateway.c:447-467 | The confirmed slot becomes active and confirmed, nothing is pending, and the version floor is the greater of its old value and the slot's version. |
| Safety.TargetIsAway | SmartHome/bootloader/bootloader_ota.c:278-302 | Under the invariant a PREPARE target is allowed if and only if it is the slot that is not home. |
| Contract.PrepareAnswered | serial-gateway/docs/stm32_ota_contract.md:43-60 | On a device with sound metadata a PREPARE is acknowledged exactly when size, chunk size, target, version floor and the three erases permit, and refused with the code of the first that does not; a short one selects the inactive slot by itself. Acknowledged, it erases that slot alone and opens a session with the fields it carries. |
| Contract.TargetRule | SmartHome/bootloader/bootloader_ota.c:278-302 | For any metadata, sound or not, which slots a PREPARE may name: either one when neither image is live or no slot is trusted, and otherwise one that is neither active nor confirmed. |
| Contract.DataAnswered | serial-gateway/docs/stm32_ota_contract.md:62-73 | In a session a DATA frame is acknowledged exactly when it repeats the last one, or continues the image and flash takes all of it; otherwise the code says which of order, length and flash failed. |
| Contract.VerifyAnswered | serial-gateway/docs/stm32_ota_contract.md:75-84 | In a session VERIFY is acknowledged exactly when number and announced checksum agree, the image is complete, its CRC-32 matches and its vector table is plausible for the slot; each refusal has its code. |
| Contract.CommitAnswered | serial-gateway/docs/stm32_ota_contract.md:86-95 | In a session a COMMIT in order commits the proposal and restarts the device exactly when flash takes all of it; out of order it changes nothing. |
| Contract.ProposalExact | SmartHome/bootloader/bootloader_ota.c:583-600 | The proposal makes the target pending and untried with the session's version, size and checksum under the next serial number, and leaves every other field of the metadata as it was. |
| Contract.OthersAnswered | SmartHome/bootloader/bootloader_ota.c:651-677 | Frames too short or without a session are refused with number 0; the version query reports slot A before slot B; any other kind is met with silence and changes nothing. |
| Contract.FactoryDevice | SmartHome/bootloader/bootloader_metadata.c:150-165 | A device with default metadata boots nothing, reports versions 0, and takes an image of any version for slot B. |
| NoSession.AbortEndsSession | SmartHome/bootloader/bootloader_ota.c:666-670 | An ABORT is acknowledged with its number; from then on, until a PREPARE is acknowledged, every DATA, VERIFY and COMMIT is refused with number 0, and metadata and flash stay as they are apart from what a refused PREPARE erases. |
| NoSession.QuietRun | SmartHome/bootloader/bootloader_ota.c:450-611 | The same whenever there is no session, as after a power-up. |
| Verdicts.MaskMeans | SmartHome/bootloader/bootloader_main.c:107 | The mask on the stack pointer accepts exactly the words with bit 29 set and bits 17 to 27 clear. |
| Verdicts.CheckMeans | SmartHome/bootloader/bootloader_main.c:208-249 | The boot check accepts a slot exactly when its own bytes hold an image of the recorded size and CRC-32 whose stack pointer the mask accepts and whose reset vector lies in 0x08000000 to 0x080FFFFF. |
| Verdicts.DecisionExact | SmartHome/bootloader/bootloader_main.c:329-384 | For any flash and any metadata: the pending slot is tried exactly when it is sound and was tried fewer than three times, and otherwise given up with its state, count of rollbacks and nothing else changed; without a trial the boot ends in a sound active slot, else a sound confirmed one, else nowhere. |
| Verdicts.ResetVectorDecides | SmartHome/bootloader/bootloader_main.c:107-109 | A pending image of the recorded size and checksum with a low stack pointer and attempts left is booted if and only if its reset vector lies in flash, and is given up otherwise. |
| Verdicts.JumpsSound | SmartHome/bootloader/bootloader_main.c:329-384 | Every slot a decision jumps to is sound by its own bytes. |
| Verdicts.StartsSound | SmartHome/bootloader/bootloader_main.c:329-384 | So is every application the device runs after leaving the loader. |
| Safety.CommitOutcome | SmartHome/bootloader/bootloader_metadata.c:196-233 | What loading can yield after a commit with any number of successful operations: the old metadata, the new, or nothing only inside a rewrite. |
| Safety.HandleStays | SmartHome/bootloader/bootloader_ota.c:343-564 | A frame that commits nothing changes flash only in the slot that is not home, and keeps the session safe if a PREPARE announces nothing that lets it leave slot A. |
| Safety.ImageOkDepends | SmartHome/bootloader/bootloader_main.c:208-249 | The boot check depends only on the slot's bytes and its size and checksum in the metadata. |
| Safety.ConfirmedSane | SmartHome/1_App/app_gateway.c:420-467 | Confirming a pending slot gives metadata in which active equals confirmed and the floor has not fallen. |
| Runs.StepKept | SmartHome/bootloader/bootloader_ota.c:343-680 | Every regular event keeps the invariant, the home slot's bytes and, outside a metadata rewrite, bootability and the version floor; home moves only to the pending slot that was running. |
| Runs.LeaveEnds | SmartHome/bootloader/bootloader_main.c:329-392 | Where a decision on sound metadata ends: in the pending slot on trial, in the home slot, or in the loader. |
| Theorems.FreshDevice | SmartHome/bootloader/bootloader_metadata.c:150-182 | An erased metadata sector satisfies the invariant. |
| Theorems.RunKeeps | SmartHome/bootloader/bootloader_ota.c:278-302 | Over every regular run: active equals confirmed and is A or B, pending is none or the other slot, the active slot is valid or confirmed. |
| Theorems.OnlyTheOtherSlotIsPrepared | SmartHome/bootloader/bootloader_ota.c:278-302 | In every reachable loader state exactly the slot that is not home may be prepared, so the exception for two invalid slots never applies. |
| Theorems.HomeUntouched | SmartHome/bootloader/bootloader_ota.c:343-611 | No event of any run changes a byte of the home slot. |
| Theorems.BooksKept | SmartHome/bootloader/bootloader_metadata.c:196-233 | Along every run the numbers of the commits that land never fall, and the greatest so far is that of the last one. |
| Theorems.EffectiveIsNewest | SmartHome/bootloader/bootloader_metadata.c:30-61 | After every run, however often serial numbers wrap, the scan yields slot j if and only if j is the earliest valid record with the greatest of the numbers the run itself assigned; that is the number of the last commit that landed. |
| Theorems.RunStaysBootable | SmartHome/bootloader/bootloader_main.c:208-249 | The home slot, and the slot an application runs from, pass the boot check throughout every run that loses no power inside a metadata rewrite. |
| Theorems.BootSucceeds | SmartHome/bootloader/bootloader_main.c:329-384 | From a bootable device that is off, a boot ends in a slot whose own bytes are a startable image of the recorded size and CRC-32. |
| Theorems.NoBrick | SmartHome/bootloader/bootloader_main.c:329-384 | After any run of frames, confirmations, resets and power cuts outside metadata rewrites, power-cycling reaches a slot whose own bytes are a startable image of the recorded size and CRC-32. |
| Theorems.ConfirmedIsBootable | SmartHome/1_App/app_gateway.c:420-481 | An image that runs on trial, passes the boot check and confirms itself becomes home, also when the serial number wraps, and the device is bootable from then on. |
| Theorems.ConfirmedIsHome | SmartHome/1_App/app_gateway.c:420-481 | A finished confirmation of the pending slot an application runs from makes that slot home, whatever its image, and changes no slot. |
| Floors.FloorStep | SmartHome/bootloader/bootloader_ota.c:403-417 | Every event whose PREPARE is not below the floor keeps the pending image and the version of the session at or above it. |
| Theorems.FloorNeverFalls | SmartHome/1_App/app_gateway.c:447-467 | The version floor never falls in runs that lose no metadata to a cut rewrite. |
| Theorems.VersionsNeverFall | SmartHome/1_App/app_gateway.c:447-467 | If moreover no PREPARE announces a version below the floor during a session, the nonzero versions that become home form a non-decreasing sequence between the floors at both ends. |
| FloorLaw.ConfirmationExact | SmartHome/1_App/app_gateway.c:447-467 | A confirmation makes the slot active and confirmed, nothing pending, and raises the floor to the slot's version if that is higher and to nothing else; every other field stays. |
| FloorLaw.ConfirmsIff | SmartHome/1_App/app_gateway.c:420-446 | The application touches flash exactly when its own slot is the pending one and is marked pending. |
| FloorLaw.FloorIsGreatest | SmartHome/1_App/app_gateway.c:447-467 | After every run that loses no metadata to a cut rewrite the floor is exactly the greatest of the old floor and the versions confirmed. |
| FloorLaw.FloorDecides | SmartHome/bootloader/bootloader_ota.c:410-417 | So after every such run a PREPARE otherwise in bounds is acknowledged if and only if it announces no version or one at or above the old floor and all versions confirmed. |
| Transfer.DeliverStep | SmartHome/bootloader/bootloader_ota.c:450-526 | One DATA frame either advances position and sequence number and extends the received bytes by its data, or leaves them as they were. |
| Transfer.SlotHoldsTaken | SmartHome/bootloader/bootloader_ota.c:450-526 | After any sequence of DATA frames the slot's bytes up to the write position are the data taken, back to back. |
| Transfer.ExpectedCounts | SmartHome/bootloader/bootloader_ota.c:450-526 | The expected sequence number is the number of frames taken, modulo 65536, for any number of frames. |
| Transfer.RetransmissionIdle | SmartHome/bootloader/bootloader_ota.c:475-490 | The frame taken last, delivered again, is acknowledged and changes nothing. |
| Transfer.RetransmissionsIrrelevant | SmartHome/bootloader/bootloader_ota.c:450-526 | Deleting the retransmissions of the frame taken last from any sequence changes neither flash nor session. |
| Overrun.RefusedPrepare | SmartHome/bootloader/bootloader_ota.c:358-369 | A refused PREPARE in a session replaces exactly size, checksum, chunk size and version and touches no slot but the other one; the session stays safe if and only if the replacements keep it in slot A. |
| Overrun.OverrunIff | SmartHome/bootloader/bootloader_ota.c:450-526 | Some sequence of DATA frames changes a byte of the home slot if and only if the session writes to slot A with a nonzero chunk size and its size reaches a byte of slot B that is not clear. |
| Overrun.RefusedReachesHomeIff | SmartHome/bootloader/bootloader_ota.c:358-369 | The same after a refused PREPARE, in terms of its payload and of home: the exact condition under which the no-brick argument needs `PrepareContained`. |
| Overrun.BootableOverruns | SmartHome/bootloader/bootloader_ota.c:496-507 | While home is B and passes the boot check, being contained is exactly what protects it, for sizes that are not one to three bytes too large. |
| Overrun.RefusedPrepareReachesHome | SmartHome/bootloader/bootloader_ota.c:358-387 | The input that shows it: size 0x60001 and chunk size 1 announced to a session that has received a whole slot A is refused, and a one-byte DATA frame then clears the first byte of home slot B. |
| LowVersion.RelabelledEnds | SmartHome/bootloader/bootloader_ota.c:566-611 | A refused PREPARE, a COMMIT, a boot and its confirmation: home stays where it is until the confirmation, which brings the version the refused PREPARE announced. |
| LowVersion.RelabelledFallsIff | SmartHome/bootloader/bootloader_ota.c:358-417 | Over these five events the confirmed versions stay between the floors if and only if the refused PREPARE respected the floor. |
| LowVersion.RelabelsVerified | SmartHome/bootloader/bootloader_ota.c:358-417 | A PREPARE that repeats size, checksum and target of a verified image under a version below the floor is refused, and the image stays verified under that version. |
| LowVersion.RelabelsFall | SmartHome/bootloader/bootloader_ota.c:358-417 | The input that shows it: such a PREPARE, then COMMIT, boot and confirmation with enough flash operations, confirm a version below the floor. |
| EndToEnd.MaskedStackPointer | SmartHome/bootloader/bootloader_main.c:95-110 | Among the stack pointers VERIFY accepts, the boot loader's mask accepts exactly those below 0x20020000. |
| EndToEnd.VerifiedBoots | SmartHome/bootloader/bootloader_ota.c:259-269 | A vector table VERIFY accepts passes the boot check if and only if its stack pointer lies below 0x20020000. |
| EndToEnd.AfterPowerOn | SmartHome/bootloader/bootloader_main.c:266-280 | After an uncut power-up the loader holds no session and the serial number that flash holds. |
| EndToEnd.AfterAllData | SmartHome/bootloader/bootloader_ota.c:450-526 | Any sequence of frames carrying parts of one image leaves a prefix of that image in the slot. |
| EndToEnd.AfterCommit | SmartHome/bootloader/bootloader_ota.c:566-611 | After an acknowledged COMMIT the next load yields the proposal, also when its serial number wraps past zero. |
| EndToEnd.BootsPending | SmartHome/bootloader/bootloader_main.c:329-347 | A device that is off with an untried pending image boots that image if and only if its stack pointer is low enough. |
| EndToEnd.SentImageBoots | SmartHome/bootloader/bootloader_ota.c:343-611 | PREPARE, DATA frames carrying an image in any order with losses, repetitions and failed writes, VERIFY and COMMIT, of which PREPARE, VERIFY and COMMIT are acknowledged: the slot holds exactly the image, and the next boot runs it if and only if its stack pointer lies below 0x20020000. |
| InOrder.PrepareAcked | SmartHome/bootloader/bootloader_ota.c:343-448 | A PREPARE in bounds for the slot that is not home, not below the floor, is acknowledged when the three sectors can be erased, and starts an empty session on an erased slot. |
| InOrder.ChunkAcked | SmartHome/bootloader/bootloader_ota.c:450-526 | The next chunk in order is acknowledged when flash takes it, extends what has been received, and leaves the cells behind it erased. |
| InOrder.StreamAcked | SmartHome/bootloader/bootloader_ota.c:450-526 | Every chunk of an image streamed in order is acknowledged, across sequence number wrap-around, and all are received. |
| InOrder.VerifyAckedIff | SmartHome/bootloader/bootloader_ota.c:528-564 | Once all bytes are there, VERIFY is acknowledged if and only if the image's own vector table is plausible for the slot. |
| InOrder.CommitAckedIff | SmartHome/bootloader/bootloader_ota.c:566-611 | A COMMIT with the expected number is acknowledged if and only if flash takes the whole metadata commit. |
| InOrder.InOrderAcked | SmartHome/bootloader/bootloader_ota.c:343-611 | With enough flash operations a transfer in order is acknowledged throughout: PREPARE and every chunk always, VERIFY if and only if the vector table is plausible, then COMMIT. |
| InOrder.InOrderBoots | SmartHome/bootloader/bootloader_ota.c:343-611 | Such a transfer leaves exactly the image in the slot, and the next boot runs it if and only if its stack pointer lies below 0x20020000. |
| Trials.CycleLog | SmartHome/bootloader/bootloader_main.c:329-347 | A boot commit takes one slot and stays invisible behind the record it repeats the serial number of, except when the sector is rewritten or the number was 0. |
| Trials.CycleSpends | SmartHome/bootloader/bootloader_main.c:329-347 | A power cycle boots the pending slot if and only if trials are left, and uses up exactly one. |
| Trials.TrialsCounted | SmartHome/bootloader/bootloader_main.c:329-347 | Of the next n power cycles without an update exactly the smaller of n and the trials left boot the unconfirmed image. |
| Trials.TrialsBounded | SmartHome/bootloader/bootloader_main.c:329-347 | That is at most three times 1092. |
| Trials.IntendedBoundIff | SmartHome/bootloader/bootloader_main.c:329-347 | At most three trials follow, whatever n, if and only if at most three are left by the slots still free and the attempts recorded. |
| Trials.FreshImageExceeds | SmartHome/bootloader/bootloader_main.c:329-347 | A freshly committed image with a nonzero serial number is tried a fourth time. |
| Trials.BumpedBounded | SmartHome/bootloader/bootloader_main.c:329-347 | If each boot commit took the next serial number, an unconfirmed image would be tried exactly as often as it has attempts left, at most three times. |
| Framing.DrainResumes | SmartHome/1_App/app_gateway.c:1180-1231 | Parsing a stream can be interrupted anywhere and resumed from the buffered rest. |
| Framing.SettledIsShort | SmartHome/1_App/app_gateway.c:1180-1231 | What stays buffered is shorter than 128 bytes, so the overflow reset is never taken. |
| Framing.ResynchronisedRoundTrip | SmartHome/1_App/app_gateway.c:1195-1230 | Noise in which every AA 55 announces an impossible length, or stands directly before a frame, followed by any frames, some damaged but with intact length, yields exactly the intact ones, in order, once each. |
| Framing.NoiseSilent | SmartHome/1_App/app_gateway.c:1195-1230 | Such noise by itself yields nothing. |
| Framing.OneByteChangeDropped | SmartHome/1_App/app_gateway.c:508-530 | A printed frame with one byte of its type, payload or checksum changed is dropped whole. |
| Framing.DrainIsPrinted | SmartHome/1_App/app_gateway.c:1195-1230 | Whatever the parser dispatches was printed: the frames of its messages, with correct checksums, stand in the stream in this order and apart from each other. |
| Framing.PrintedParts | SmartHome/1_App/app_gateway.c:625-657 | A printed frame carries header, length, type and payload in place and a correct checksum. |
| Framing.Parser.ProcessByte | SmartHome/1_App/app_gateway.c:1180-1231 | One received byte: the messages dispatched and the bytes left are those of parsing the buffer with that byte added. |
| Framing.Parser.ProcessStream | SmartHome/1_App/app_gateway.c:1394-1397 | Byte-at-a-time processing of any stream dispatches exactly what parsing the stream in one piece does, with fewer than 128 bytes buffered. |
| Framing.SendFrame | SmartHome/1_App/app_gateway.c:625-657 | Builds the printed frame in a transmit buffer, or refuses a frame that would not fit it. |
| LinkReader.PrintedIsRead | SmartHome/bootloader/bootloader_ota.c:209-257 | The boot loader's reader reads back kind and payload of a printed frame behind its header and consumes no byte more. |
| LinkReader.NoiseOutcome | SmartHome/bootloader/bootloader_ota.c:209-257 | Behind noise without AA 55 a printed frame is read, and nothing behind it, if and only if an even number of AA bytes directly precedes it; behind an odd number its first byte is taken for noise and the frame is lost. |
| LinkReader.ReadIsPrinted | SmartHome/bootloader/bootloader_ota.c:209-257 | Whenever the reader yields a message, the printed frame of that message, with its correct checksum, stands in the input directly before what is left unread. |
| LinkReader.DamagedIsDropped | SmartHome/bootloader/bootloader_ota.c:240-256 | A frame with one byte of its type, payload or checksum changed on the line yields nothing, and exactly what follows it is left. |
| LinkReader.EmptyIsDropped | SmartHome/bootloader/bootloader_ota.c:233-235 | A header that announces no bytes costs the reader that header and nothing else. |
| LinkReader.CutOffIsLost | SmartHome/bootloader/bootloader_ota.c:236-247 | A frame cut off by the read timeout is lost with everything received of it. |
| LinkReader.DanglesOnOddRun | SmartHome/bootloader/bootloader_ota.c:209-257 | The reader has an unpaired AA at the end of noise exactly when the noise ends in an odd run of AA bytes. |
| LinkReader.Receive | SmartHome/bootloader/bootloader_ota.c:209-257 | The reader's loops return the message and the position the specification gives. |
| StorageHistory.ParseWritten | SmartHome/1_App/app_storage.c:450-472 | A record as written is accepted by the scan and read back with every field. |
| StorageHistory.ScanFinds | SmartHome/1_App/app_storage.c:290-362 | Scanning a region finds every record written back to back, the highest number, and the first place where nothing parses. |
| StorageHistory.FreshLog | SmartHome/1_App/app_storage.c:585-628 | An erased chip is an empty log. |
| StorageHistory.EventLogged | SmartHome/1_App/app_storage.c:426-517 | A record that fits behind the others extends the event log by itself and leaves everything else as it was. |
| StorageHistory.CacheLogged | SmartHome/1_App/app_storage.c:519-583 | The same for the cache, whose read position stays where it is. |
| StorageHistory.RescanReproduces | SmartHome/1_App/app_storage.c:290-424 | Rescanning reproduces count, write addresses and last number; only acknowledged records come back into the backlog. |
| StorageHistory.RestartFindsAll | SmartHome/1_App/app_storage.c:290-583 | The same after any mix of writes, acknowledgements and restarts before a region wraps: the backlog found is the backlog in RAM plus the acknowledged records. |
| StorageHistory.RunLogged | SmartHome/1_App/app_storage.c:290-583 | Every such run keeps flash and RAM in agreement with the history of what was written and acknowledged. |
| StorageHistory.PutExact | SmartHome/1_App/app_storage.c:134-155 | Byte by byte what a write leaves: its data, erased cells in the sectors it had to erase, and otherwise the old contents. |
| StorageHistory.PutOnErased | SmartHome/1_App/app_storage.c:155-182 | On erased cells a write is exactly one copy of the buffer. |
| StorageHistory.TornWriteFound | SmartHome/1_App/app_storage.c:290-362 | After a write cut off at any byte, unless the torn record parses, a rescan finds every earlier record and stops at the torn one. |
| StorageHistory.TornWriteCosts | SmartHome/1_App/app_storage.c:434-449 | The next write to the place of a cut-off write proceeds as on erased cells if no byte had been programmed, and otherwise erases what its sector held before. |
| StorageHistory.PeekIsHead | SmartHome/1_App/app_storage.c:705-756 | Peeking shows the oldest unacknowledged record, or none, and changes nothing. |
| StorageHistory.AckIsHead | SmartHome/1_App/app_storage.c:758-787 | An acknowledgement takes effect exactly when it names the oldest unacknowledged record, and then drops that record alone. |
| StorageGuards.RecordOffsets | SmartHome/1_App/app_storage.c:36-45 | Where each field of a log record lies, and what its checksum is made of. |
| StorageGuards.NumbersCount | SmartHome/1_App/app_storage.c:459 | Record numbers count modulo 2^32. |
| StorageGuards.AcceptedIff | SmartHome/1_App/app_storage.c:303-349 | A record without flags is accepted by the scan exactly when its header and payload stand there as they are written. |
| StorageGuards.PayloadChangeFound | SmartHome/1_App/app_storage.c:336-349 | With one byte of its payload changed a record is no longer accepted. |
| StorageGuards.HeaderChangeFoundIff | SmartHome/1_App/app_storage.c:336-349 | A change of the header that leaves it well-formed is found if and only if the header checksums differ in their low 31 bits. |
| StorageGuards.EventWrapForgets | SmartHome/1_App/app_storage.c:438-449 | An event that no longer fits is written to the region's start, and a restart then finds that one event alone while the counter in RAM goes on. |
| StorageGuards.CacheWrapForgets | SmartHome/1_App/app_storage.c:531-545 | In the cache the whole backlog is dropped with it, in RAM and for a restart. |
| StorageGuards.PeekRecovers | SmartHome/1_App/app_storage.c:705-756 | A damaged header at the read position makes a peek rescan the cache, and the next peek shows the first record found. |
| StorageTask.Disk.PageProgram | SmartHome/6_ModuleDrives/driver_w25qxx.c:231-271 | Accepts a program only inside one page and the chip; programs a prefix of the bytes, all of them without a failed transfer. |
| StorageTask.Disk.SectorErase | SmartHome/6_ModuleDrives/driver_w25qxx.c:273-306 | Erases the whole sector holding the address, or nothing. |
| StorageTask.PagedWrite | SmartHome/1_App/app_storage.c:155-182 | Terminates; without a failed transfer every page program it issues is accepted and together they program the buffer exactly once, for every address and length in the region. |
| StorageTask.IsErased | SmartHome/1_App/app_storage.c:184-210 | Reading 64 bytes at a time, reports erased exactly when every cell is, barring a failed read. |
| StorageTask.EraseRange | SmartHome/1_App/app_storage.c:134-153 | Erases exactly the sectors from the one holding the start to the rounded end. |
| StorageTask.BuildRecord | SmartHome/1_App/app_storage.c:450-472 | The assembled buffer is the record's encoding. |
| StorageTask.ReadRecord | SmartHome/1_App/app_storage.c:303-349 | Accepts and reads a record exactly as the specified parse does. |
| StorageTask.Task.ScanEvents | SmartHome/1_App/app_storage.c:290-362 | Count, write address and last number become those of the specified scan; after a failed read count and last number are those of the records read until then, and the write address is as before. |
| StorageTask.Task.ScanCache | SmartHome/1_App/app_storage.c:364-424 | Backlog, addresses and last number become those of the specified rescan; after a failed read the backlog and last number are those of the records read until then, the read address is reset and the write address as before. |
| StorageTask.Task.PutRecord | SmartHome/1_App/app_storage.c:434-491 | On success the bytes read back, and flash is that of the specified write, or, after a failed read of clean cells only, that of the write behind an erase of their sectors. |
| StorageTask.Task.WriteRecord | SmartHome/1_App/app_storage.c:426-517 | Without a failed transfer the whole state is that of the specified event write; on success the record lies just before the write address and flash is one of two values, programmed in place or, after a failed read of clean cells, programmed behind an erase of their sectors; on failure counters and numbers are untouched. |
| StorageTask.Task.WriteCacheRecord | SmartHome/1_App/app_storage.c:519-583 | The same for the cache, where starting the region over drops the backlog. |
| StorageTask.Task.PeekCache | SmartHome/1_App/app_storage.c:705-756 | Returns what the specified peek shows; a malformed header rescans the cache. |
| StorageTask.Task.MarkCacheAck | SmartHome/1_App/app_storage.c:758-787 | Acknowledges exactly when the specified acknowledgement does, with its effect. |
| StorageTask.Task.StartUp | SmartHome/1_App/app_storage.c:610-621 | Without a failed transfer the task starts from the rescanned state with the boot event logged. |
| Replay.FullIff | SmartHome/1_App/app_gateway.c:164-216 | The number of active entries reaches the table's size exactly when no slot can be allocated. |
| Replay.ReportCarriesSeq | SmartHome/1_App/app_gateway.c:659-681 | The number put into a sensor report is the number read back from its frame, and the frame is abnormal exactly by its alarm and validity bits. |
| Replay.ReportSeqIff | SmartHome/1_App/app_gateway.c:659-681 | Of all frames exactly the sensor reports carry a number, in the four bytes behind their readings. |
| Replay.AnnouncedLengths | SmartHome/1_App/app_gateway.c:659-681 | On bytes that are no printed frame the announced length decides: a number needs 15, the state bits 11, and a length of 0 wraps around and passes for the latter. |
| Replay.OverdueMeans | SmartHome/1_App/app_gateway.c:745-773 | On a clock that does not wrap, an entry is overdue exactly when more than the timeout has passed. |
| Replay.ReplayPaced | SmartHome/1_App/app_gateway.c:809-830 | On such a clock, replay rounds are at least a second apart, and one is run as soon as they may. |
| Replay.AckClears | SmartHome/1_App/app_gateway.c:775-807 | An acknowledgement clears the first entry that carries its number, live or replayed, and no other. |
| Replay.StrayAckIgnored | SmartHome/1_App/app_gateway.c:775-807 | A number nobody waits for changes nothing. |
| Replay.SentUntilAcked | SmartHome/1_App/app_gateway.c:775-951 | A live report that is sent and finds room occupies one free entry until its acknowledgement, which leaves the table as if it had not been sent. |
| Replay.NotKept | SmartHome/1_App/app_gateway.c:227-244 | A report that is not sent, finds no room or does not fit an entry is not kept; only overdue entries go. |
| Replay.AckKeeps | SmartHome/1_App/app_gateway.c:775-807 | An acknowledgement frees the cache's head exactly when the first entry with its number is the replayed one, and then the number is the head's own. |
| Replay.RoundKeeps | SmartHome/1_App/app_gateway.c:809-874 | A replay round keeps at most one replayed entry, naming the head, and drops only records that are no sensor reports. |
| Replay.RoundSends | SmartHome/1_App/app_gateway.c:809-874 | After a round over a working link the head is in flight, unless the cache is empty, the table full, the head too long, or only stray records were dropped. |
| Replay.RoundPuts | SmartHome/1_App/app_gateway.c:809-874 | What a round puts in flight is the head's own frame under its own numbers, in the first free entry. |
| Replay.StepKeeps | SmartHome/1_App/app_gateway.c:745-874 | Every report, acknowledgement, replay round and new cached record keeps that invariant; a record leaves only by a stray drop or by its own acknowledgement. |
| Replay.DeparturesAcknowledged | SmartHome/1_App/app_gateway.c:775-874 | Over every run: at most one replayed report is in flight and it is the head; records leave in order; each sensor report leaves at an acknowledgement carrying its own number. |
| Uplink.NextExceeds | SmartHome/1_App/app_storage.c:519-583 | The number of the next cached record exceeds that of every cached one, by the agreement of flash and RAM. |
| Uplink.RunAscends | SmartHome/1_App/app_storage.c:290-583 | Whatever the storage task writes, acknowledges and rescans before a region wraps, cached records carry ascending numbers. |
| Uplink.ActKeeps | SmartHome/1_App/app_gateway.c:745-874 | Every action of either task keeps the gateway's view equal to the storage task's cache, and each new cached record the gateway meets is in order. |
| Uplink.CachedReportsAcknowledged | SmartHome/1_App/app_gateway.c:775-874 | Over every run of both tasks together, with nothing assumed of the numbers: cached records leave the storage task in order, and a sensor report only at an acknowledgement carrying its own number. |
| Uplink.RebootCouples | SmartHome/1_App/app_storage.c:610-621 | A restart, after which flash is rescanned and the table is empty, couples both tasks again. |
| Uplink.BootCouples | SmartHome/1_App/app_storage.c:585-628 | So does the boot of a device whose log was erased, after any run of the storage task. |
| Gateway.CacheIsQueue | SmartHome/1_App/app_storage.c:705-787 | The storage task's cache is the queue the reporting side takes it for. |
| Gateway.OffersAre | SmartHome/1_App/app_gateway.c:745-773 | A frame is offered to the cache exactly when it is abnormal, a live entry with it is overdue, and nothing is cached. |
| Gateway.Reporter.Find | SmartHome/1_App/app_gateway.c:178-216 | The first entry that is free, carries a number, or replays a cached record. |
| Gateway.Reporter.Count | SmartHome/1_App/app_gateway.c:164-176 | The number of active entries. |
| Gateway.Reporter.Enqueue | SmartHome/1_App/app_gateway.c:227-244 | Fills the first free slot, or changes nothing when there is none or the frame does not fit. |
| Gateway.Reporter.ScanTimeout | SmartHome/1_App/app_gateway.c:745-773 | Clears exactly the overdue entries, across tick wrap-around, and offers the abnormal live ones to the cache while it is empty. |
| Gateway.Reporter.ProcessReportAck | SmartHome/1_App/app_gateway.c:775-807 | Table and cache afterwards are those of the specified acknowledgement. |
| Gateway.Reporter.SendReport | SmartHome/1_App/app_gateway.c:876-951 | Numbers a report, clears overdue entries, remembers the report if it was sent and there is room, and offers it to the cache otherwise. |
| Gateway.Reporter.TryReplay | SmartHome/1_App/app_gateway.c:809-874 | Table, cache and retry time afterwards are those of the specified replay. |
| Batch.DerivedMeaning | gateway_ai_assistant/service.py:3615-3640 | What each derived status says about the statuses that occur; "success" if and only if the run is nonempty and every item succeeded. |
| Batch.DerivedIsVerdict | gateway_ai_assistant/service.py:3615-3640 | The derived status depends only on which statuses occur, not on how often. |
| Batch.GroupsAreBatches | gateway_ai_assistant/service.py:3563-3599 | The summary's groups are the run cut by batch: each lists its own devices in order and counts its own items. |
| Batch.CountsCover | gateway_ai_assistant/service.py:3563-3613 | The counts add up to the number of items, the failed ones to the number of failed devices listed. |
| Batch.PendingIndexes | gateway_ai_assistant/service.py:3661-3668 | Strictly increasing, and exactly the batches that have a pending item. |
| BatchRuns.FreshRun | gateway_ai_assistant/service.py:1092-1107 | A run as created satisfies the invariant. |
| BatchRuns.ClearIff | gateway_ai_assistant/service.py:3670-3676 | The lowest pending batch may start if and only if every item of every earlier batch has succeeded. |
| BatchRuns.FirstTaken | gateway_ai_assistant/service.py:1564-1624 | Starting takes exactly the lowest batch off the pending ones. |
| BatchRuns.StartKeeps | gateway_ai_assistant/service.py:1521-1660 | A start keeps every submitted item in an earlier batch than every pending one. |
| BatchEffects.StartsIff | gateway_ai_assistant/service.py:1521-1560 | A start goes through if and only if the run goes on, the manifest is there and every item before the lowest pending batch has succeeded. |
| BatchEffects.StartAnswers | gateway_ai_assistant/service.py:1564-1640 | Only items of the lowest pending batch change: an accepted one is active under the task its answer named, a refused one has failed, and the devices listed for a retry are exactly those refused. |
| BatchEffects.RefreshAnswers | gateway_ai_assistant/service.py:1954-1996 | An item with a task takes the state reported for it, and in a sound run every other item stays as it was; a paused or terminated run stays so; exactly the failed devices are listed. |
| BatchEffects.TerminateAnswers | gateway_ai_assistant/service.py:1711-1768 | Exactly the pending items are cancelled, and the devices listed are those with an item neither on its way nor successful. |
| BatchEffects.PauseAnswers | gateway_ai_assistant/service.py:1662-1709 | A pause takes effect exactly when something waits, nothing is on its way and the run is not over, and changes no item. |
| BatchEffects.RetryAnswers | gateway_ai_assistant/service.py:1770-1938 | Every item of a listed device takes that device's first answer, under the task it names or else the old one, and no other item changes; the run is approved if and only if nobody was refused. |
| BatchRuns.RefreshKeeps | gateway_ai_assistant/service.py:1954-1996 | A refresh leaves pending items and pending batches as they are. |
| BatchRuns.RetryKeeps | gateway_ai_assistant/service.py:1770-1938 | A retry touches no pending item. |
| BatchRuns.TerminateKeeps | gateway_ai_assistant/service.py:1711-1768 | After a termination nothing is pending. |
| BatchRuns.PauseKeeps | gateway_ai_assistant/service.py:1662-1709 | A pause changes no item. |
| BatchRuns.ApplyKeeps | gateway_ai_assistant/service.py:1521-1996 | Every request keeps the invariant; the stored status is "success" if and only if the run is not terminated and every item succeeded. |
| BatchRuns.IdentityKept | gateway_ai_assistant/service.py:1521-1996 | No request changes an item's device or batch; only a retry that goes through raises the retry count, by one, for each item of a listed device; only a start or a retry changes a task. |
| BatchRuns.BatchesInOrder | gateway_ai_assistant/service.py:1521-1996 | Along every run the batches started, followed by those still pending, are the batches pending at first: each starts at most once, in increasing order; a termination drops the rest for good. |
| BatchRuns.RetriedFailures | gateway_ai_assistant/service.py:1882-1898 | After a retry the failed devices are those whose first answer was a refusal. |
| BatchRuns.RetryExactIff | gateway_ai_assistant/service.py:1770-1938 | A retry leaves the approval's list naming exactly the failed devices if and only if no device listed twice was first accepted and then refused. |
| BatchRuns.RetryAlwaysExactIff | gateway_ai_assistant/service.py:1770-1938 | Whatever the gateways answer, a retry leaves the list exact, if and only if no device is listed twice. |
| BatchRuns.RepeatedDevice | gateway_ai_assistant/service.py:1882-1938 | The case that shows it: a device planned twice in one batch and failed, accepted and then refused, stays listed although no item of it has failed. |
| BatchRuns.ListStaysExact | gateway_ai_assistant/service.py:3678-3711 | Every other request leaves that list exact. |
| BatchService.Summarize | gateway_ai_assistant/service.py:3563-3613 | One pass over the items yields the specified counts, groups and failed devices. |
| BatchService.BatchRun.StartNextBatch | gateway_ai_assistant/service.py:1521-1660 | Items, status and list afterwards are those of the specified start; reports the batch started, if any. |
| BatchService.BatchRun.PauseBatchRun | gateway_ai_assistant/service.py:1662-1709 | Pauses exactly when nothing is active, something is pending and the run is not terminated. |
| BatchService.BatchRun.TerminateBatchRun | gateway_ai_assistant/service.py:1711-1768 | Cancels exactly the pending items and counts them. |
| BatchService.BatchRun.RefreshBatchRun | gateway_ai_assistant/service.py:1954-1996 | Takes over the gateway's normalised states of the items that have a task; termination and pause outlast it. |
| BatchService.BatchRun.RetryFailedDevices | gateway_ai_assistant/service.py:1770-1938 | Items, status and list afterwards are those of the specified retry; succeeds exactly when every listed device was accepted. |

## Left out

- Flash.Chip.ProgramByte: a byte program or a sector erase happens whole or not at all; a cell left half-programmed or a sector half-erased by a power cut is not modelled.
- Flash.Chip.Write: the end of the range is taken not to wrap around the 32-bit address space.
- StorageTask.Disk.PageProgram: SPI commands, busy-waiting and chip identification are reduced to a transfer that may fail; the chip is taken to be the expected 16 MB part.
- Machine.Next: the force-bootloader flag and the wait before the decision are not modelled; leaving the loader is possible at any time, which covers both.
- Theorems.NoBrick: holds for runs in which no PREPARE lets a session leave slot A, no torn record collides and no power is lost between erase and rewrite of a full metadata sector; `Overrun.RefusedReachesHomeIff` and `MetaHistory.CommitAtomicIffSlotFree` say what happens otherwise.
- Theorems.RunKeeps: a commit that fails with power on is covered when it fails before its first flash operation or while appending; not between the erase of a full sector and the end of its rewrite, after which RAM and flash disagree.
- Theorems.VersionsNeverFall: needs the floor respected by every PREPARE during a session, as `LowVersion.RelabelledFallsIff` shows, and no metadata lost to a cut rewrite, because the factory default also resets the floor.
- MetaHistory.AppendAtomic: excludes the torn records that `MetaLog.TornValidIff` shows to validate.
- EndToEnd.SentImageBoots: the frames of the transfer are handled without a power cut between them; cuts are covered by the theorems over runs.
- Framing.SendFrame: a payload of 255 bytes, whose length byte would wrap to 0, is not modelled; no caller in the firmware passes one, and the C code would then write past its transmit buffer, which has no defined outcome.
- StorageHistory.RunLogged: covers the time until a region first wraps around; after that a write erases whole sectors, as `StorageHistory.PutExact` says.
- StorageTask.Task.WriteRecord: the 32-bit counters of records and backlog are unbounded numbers here.
- Replay.DeparturesAcknowledged: takes ascending cache numbers as given; `Uplink.CachedReportsAcknowledged` derives them and needs no such assumption.
- Uplink.CachedReportsAcknowledged: covers the time until a region first wraps around and between two restarts of the device; the message queue between the gateway task and the storage task is left out, so a cached record may arrive at any time.
- Gateway.Reporter.TryReplay: contract holds while no read of the external flash fails; the replay flags that only steer log output are left out.
- Batch.Derived: gateway task states outside the normalised ones, which would fall through unchanged, are not modelled.
- BatchService.BatchRun.StartNextBatch: database access, transport checks, audit entries, service-level figures and the sorted list form of the summary's groups are left out; the answers of the gateway are parameters.
- The debug builds that force a slot or bypass the checksum.
- The UART and DMA ring buffers, hello frames, task scheduling and unlocked sharing between tasks: each task body is one atomic step.
- The hand-off to the application (stack pointer, vector table offset, registers): a jump is an abstract action.
- Sensor readings, display, keys, LED, text commands, networking, the Qt client and the assistant's question answering.
