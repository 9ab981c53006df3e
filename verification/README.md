# Verification of the YMODEM batch stack

A YMODEM sender and receiver run as two statecharts over a serial line. The sender offers each file in a stat
block, sends its data in 128-byte blocks with 8-bit numbers and a CRC, waits for an answer to every block, and
ends a file with two EOTs and the session with an empty stat block. The answers are single bytes without
numbers. The receiver tells repetitions from new blocks, counts errors, and rebuilds the files. This project
models that stack and the parts it stands on, and proves what it is for: that what the receiver reports as done
is what the sender has sent. Batch files are chapter 5, block numbers and loss of synchronisation chapter 7, and
the CRC chapter 8 of the XMODEM/YMODEM Protocol Reference.

The parts, from the bottom up:

- `Bytes`, `Gf2`, `Bits`, `Crc`: bytes as numbers, polynomials over GF(2) as bit sequences, and the CRC routine
  against polynomial division. Numbers from C are unbounded here; 8-bit, 16-bit and 32-bit wrap-around is written
  out where the code relies on it.
- `Text`, `Blocks`: C strings and decimal numbers, and the blocks that the sender builds and the receiver judges.
- `SenderContext`, `ReceiverContext`: the fields of the two peers as values, and their operations as functions.
- `SenderChart`, `ReceiverChart`: both statecharts as functions from state and event to state and output.
- `SenderY`, `ReceiverY`, `YSenderSS`, `YReceiverSS`: the same as objects with buffers and fields updated in
  place, each method proved to do what the functions say.
- `SenderSteps`, `ReceiverSteps`: what a single reaction of one peer does to its place in the transfer.
- `SenderReplies`, `ReceiverReplies`: for every state and every event the one reaction that there is, in terms of the
  blocks of the current file, with bytes, bounds and times written out; and what runs of NAKs and timeouts come to.
- `Link`, `LinkStages`, `LinkSafety`: both peers and the line between them as a system of steps, and the
  invariant that gives end-to-end safety.
- `LinkRecovery`: how lost blocks, damaged blocks and lost replies are made good, and how often in a row.
- `LinkReports`: what the sender's own reports are worth on such a line.
- `FaultFree`: total correctness on a line without faults, with the exact number of steps.
- `UnsolicitedAck`: why 8-bit numbers suffice, even when ACKs reach the sender that nobody has sent.
- `ReceiverBounds`: the bound on errors, what the count counts, and how many posted messages follow an event.
- `PeerY`: the loop that waits for bytes, cancels and the timeout, over the objects of both peers.
- `StateTree`, `StateEngine`, `ChartTrees`: the transitions of the statechart engine over arbitrary trees, its message
  loop over arbitrary charts, and the two charts as trees.
- `CircBuf`, `LockFree`: the circular buffer as an object, and between one reader and one writer that do not lock.
- `SocketPair`, `SocketInfo`: the monitor behind a pair of sockets as a system of critical sections, and its
  objects.
- `Medium`: the medium that damages, drops and adds bytes at fixed places.

Events are inputs: a byte with what the line delivers behind it, a timeout, a keyboard cancel. What `creat` and
`close` answer, and the time, are parameters of a step. `k` in the sender's context and `phase` in the system are
history variables: the program does not have them, and nothing it does depends on them.

Eight facts about the code that the proofs turned up or had to respect:

- The check for room in a stat block is off by one. A block is built correctly if and only if the base name, the
  digits of the size and two zero bytes fit 128 bytes; one byte more passes the check, and the padding is then
  written behind the payload (`SenderY.SenderY.GenStatBlk`, and `SenderY.OverrunHappens` for such files).
- The receiver does not look at the bytes still missing when it reports a file as done
  (`ReceiverSteps.DoneWithoutCounting`), so "done means complete" needs a line that invents no ACK. The medium's
  glitch bytes run through all values and so do invent ACKs; what holds then is in `UnsolicitedAck`.
- The receiver's error count can exceed the bound by two, because three kinds of events are counted without being
  checked (`ReceiverBounds.PastTheBoundOnEveryRun`, `ReceiverBounds.LimitIsReached`).
- The loss of one reply is final: nothing that the receiver sends makes the sender repeat its second EOT once the ACK for
  it is lost (`LinkRecovery.LostLastAckIsFinal`).
- A NAK for a stat block is answered without a bound, unlike one for a data block or an EOT
  (`SenderReplies.NaksOfStat`, `SenderReplies.NaksOfBlock`, `SenderReplies.NaksOfEot`).
- A cancel that is typed in the turn of the loop in which a byte stops the machine makes the loop end with an
  exception (`PeerY.TransferSender`, `PeerY.CancelCanThrow`).
- A machine that the messages posted at its start have finished counts as running all the same
  (`StateEngine.Machine.Start`, `StateEngine.StartFinished`). Neither of the two charts posts any there.
- A single CAN byte in the data phase makes the receiver forget that a file is open, and the next data block is read as
  a stat block (`ReceiverSteps.CanDetour`, `ReceiverSteps.DataReadAsStat`). In all other states it does no harm, and
  the theorems about the line allow it there.

## Model

| member | source | states |
|---|---|---|
| `Crc.Updcrc` | Ensc351ymodLib/crc.c:36-53 | The loop over eight bits, in a register that grows past 16 bits, leaves in its low 16 bits what feeding the byte's bits, high bit first, to a 16-bit shift register gives |
| `Crc.Crc16ns` | Ensc351ymodLib/crc.c:58-91 | For every chunk and on both host byte orders, the two stored bytes are the CRC, high byte first |
| `Crc.HtonsInMemory` | Ensc351ymodLib/crc.c:11-18 | Storing the result of `my_htons` puts the high byte first on little- and big-endian hosts alike |
| `Crc.CrcIsRemainder` | Ensc351ymodLib/crc.c:58-91 | 16 bits are the CRC of data if and only if they are the remainder of data(x)*x^16 modulo x^16+x^12+x^5+1 |
| `Gf2.RemainderIsUnique` | Ensc351ymodLib/crc.c:36-53 | Over GF(2) there is only one remainder, so the meaning of the CRC does not depend on the shift register |
| `Crc.ResidueIsLinear` | Ensc351ymodLib/crc.c:36-53 | The register after the XOR of two byte strings is the XOR of the two registers |
| `Crc.CrcIsLinear` | Ensc351ymodLib/crc.c:58-91 | The CRC of the XOR of two chunks is the XOR of their CRCs |
| `Crc.StoredCrcClearsRegister` | Ensc351ymodLib/crc.c:71-91 | Feeding data and then their two stored CRC bytes leaves the register zero |
| `Crc.BurstIsDetected` | Ensc351ymodLib/crc.c:36-53 | Two strings that differ by a non-zero burst of at most 16 bits never leave the same register, and so never both leave zero |
| `Crc.UnitCrc` | Ensc351ymodLib/crc.c:36-91 | The CRC of the single byte 1 is 0x1021, which with linearity fixes the generator |
| `Text.StoiOfDecimal` | Ensc351ymodLib/ReceiverY.cpp:212-213 | `stoi` gives back any number that `%ld` has printed, exactly when it fits an int, and throws otherwise |
| `Text.StoiReads` | Ensc351ymodLib/ReceiverY.cpp:212-213 | For any string: spaces are skipped, one sign and the digits behind it are taken, the rest is ignored, and no digit or a number outside an int throws |
| `Text.DecimalDigits` | Ensc351ymodLib/SenderY.cpp:111-149 | One digit more makes ten times the number and the digit, most significant digit first |
| `Blocks.DataBlkBytes` | Ensc351ymodLib/SenderY.cpp:159-176 | Block k byte by byte: SOH, k modulo 256 and its complement, the 128 bytes of the file behind the first 128(k-1), 0x1A where the file has ended, and their CRC |
| `Blocks.StatBlkBytes` | Ensc351ymodLib/SenderY.cpp:111-149 | A stat block byte by byte: number 0, the name, a zero byte, the size in decimal, zero bytes, and the CRC |
| `Blocks.Verdict` | Ensc351ymodLib/ReceiverY.cpp:99-185 | For any delivery behind SOH, in terms of its bytes: when it is out of step, when it is good, when it is new, and which number counts as the last good one, each if and only if |
| `Blocks.WrongLength` | Ensc351ymodLib/ReceiverY.cpp:118-121 | Any number of bytes but 132 makes a block bad, and leaves number and synchronisation as they were |
| `Blocks.IntactBlock` | Ensc351ymodLib/ReceiverY.cpp:99-185 | An undamaged block is accepted as new, accepted as a repetition, or ends the session, depending on its number alone |
| `Blocks.ComplementedByteIsRejected` | Ensc351ymodLib/ReceiverY.cpp:122-163 | Complementing any one of the 132 bytes behind SOH of an acceptable block makes it rejected and leaves number and synchronisation as they were, while the block itself is accepted |
| `Blocks.StatRoundTrip` | Ensc351ymodLib/ReceiverY.cpp:203-217 | Parsing a stat block gives back name and size, the size exactly when it fits an int |
| `Blocks.EmptyStatEndsSession` | Ensc351ymodLib/ReceiverY.cpp:293-298 | Only the empty stat block has a zero first byte, and so only it reports the end |
| `Blocks.NextChunk` | Ensc351ymodLib/ReceiverY.cpp:188-199 | What is written for a block is exactly the part of the file that the block carries |
| `SenderContext.PrepStatHolds` | Ensc351ymodLib/SenderY.cpp:184-200 | A prepared stat block is block 0 of the file that has been opened |
| `SenderContext.SendNewRefines` | Ensc351ymodLib/SenderY.cpp:204-217 | Sending a block for the first time sends the next block of the list of all blocks of the file, and the two buffers then hold the last one and the next one, whatever the 8-bit number |
| `SenderContext.NothingLeft` | Ensc351ymodLib/SenderY.cpp:159-176 | `bytesRd` is 0 exactly when all data blocks of the file have been sent |
| `SenderContext.NeighbouringNumbers` | Ensc351ymodLib/SenderY.cpp:211-228 | Numbers of neighbouring blocks are neighbours modulo 256, across every wrap |
| `SenderSteps.BlocksOnEveryRun` | Ensc351ymodLib/SenderY.cpp:159-229 | After any events at all, every block put on the line is byte for byte the last block sent of the current file or the one behind it: two buffers refine the unbounded list of blocks |
| `SenderSteps.SenderOutcome` | Ensc351ymodLib/ySenderSS.cpp:215-905 | Every byte read ends the session, changes nothing, repeats the last block, sends the next one, sends EOT or moves on to the next file, and which of them depends on state and byte |
| `SenderSteps.TimeoutEndsOrReturns` | Ensc351ymodLib/ySenderSS.cpp:104-140 | A timeout ends the session, or brings the sender back from the CAN state to where it was |
| `SenderSteps.CancelEndsOrStays` | Ensc351ymodLib/ySenderSS.cpp:272-298 | A keyboard cancel ends the session or leaves the place in the file list alone |
| `SenderSteps.RunSound` | Ensc351ymodLib/ySenderSS.cpp:329-905 | On every run of the sender its place, its buffers and its open file fit its state |
| `SenderChart.CanDetour` | Ensc351ymodLib/ySenderSS.cpp:974-993 | One CAN and then another byte or a timeout brings the sender back with every field but the saved timeout unchanged, if and only if no keyboard cancel is pending |
| `SenderChart.SavedTimeoutKept` | Ensc351ymodLib/PeerY.cpp:93-110 | On every run, while the sender is in the CAN state, the one slot for a saved timeout still holds the timeout that was in force before |
| `SenderReplies.Starts` | Ensc351ymodLib/ySenderSS.cpp:75-85 | The sender starts before its first stat block with no error, no cancel and an empty result, and waits 15 seconds |
| `SenderReplies.AckNakReplies` | Ensc351ymodLib/ySenderSS.cpp:329-392 | With a data block out: the last block goes out again and one error is counted if and only if a NAK comes, or a 'C' behind the first block, and fewer than ten errors are counted; a NAK at ten ends the session; an ACK brings the next block, or the EOT when there is none; every other byte is listed |
| `SenderReplies.AckNakStatReplies` | Ensc351ymodLib/ySenderSS.cpp:835-905 | With a stat block out: a NAK or 'C' repeats it with no bound, and the ACK has the sender wait for a 'C', or ends the session behind the empty one |
| `SenderReplies.OneReplies` | Ensc351ymodLib/ySenderSS.cpp:524-602 | With the stat block acknowledged: a 'C' brings the first data block, or the EOT of an empty file, and a NAK the stat block again |
| `SenderReplies.Eot1Replies` | Ensc351ymodLib/ySenderSS.cpp:423-493 | With the first EOT out: when it is repeated, what brings the second one, and that an ACK leads to the next file without a report, cancel or not |
| `SenderReplies.EotEotReplies` | Ensc351ymodLib/ySenderSS.cpp:633-681 | With the second EOT out: it is repeated if and only if a NAK comes and fewer than ten errors are counted, a NAK at ten ends the session, and an ACK reports the file |
| `SenderReplies.StatCReplies` | Ensc351ymodLib/ySenderSS.cpp:714-769 | Before a stat block: a 'C' brings that of the next file, the empty one behind the last file, or the end at a file that cannot be opened |
| `SenderReplies.CanReplies` | Ensc351ymodLib/ySenderSS.cpp:965-1019 | In the CAN state: a second CAN ends the session with nothing sent, and any other byte restores state and timeout unless a cancel is pending |
| `SenderReplies.RepliesOfCancelled` | Ensc351ymodLib/ySenderSS.cpp:142-175 | With a cancel pending: which bytes end the session with KbCancelled, and the three that do not, each if and only if |
| `SenderReplies.RepliesToTimeout` | Ensc351ymodLib/ySenderSS.cpp:104-140 | A timeout ends the session with eight CAN bytes, no file open and one phrase more, except in the CAN state without a cancel |
| `SenderReplies.RepliesToCancel` | Ensc351ymodLib/ySenderSS.cpp:272-298 | A first cancel takes 14.6 seconds off the wait; before a stat block it ends the session at once, with a result of one phrase |
| `SenderReplies.NaksOfBlock` | Ensc351ymodLib/ySenderSS.cpp:338-349 | For any number of NAKs at any times: the block goes out again once for each of them until ten errors are counted, the next NAK ends the session, and later ones change nothing |
| `SenderReplies.NaksOfEot` | Ensc351ymodLib/ySenderSS.cpp:644-654 | The same for the second EOT of a file |
| `SenderReplies.NaksOfStat` | Ensc351ymodLib/ySenderSS.cpp:867-880 | A stat block is repeated for every NAK, however many come |
| `ReceiverContext.WriteNextChunk` | Ensc351ymodLib/ReceiverY.cpp:188-199 | Writing the next block's payload rebuilds the file up to that block, whatever its padding looks like, and touches no other file |
| `ReceiverContext.SizesAddUp` | Ensc351ymodLib/ReceiverY.cpp:188-199 | After every block, bytes written plus bytes remaining are the declared size, and after the last one the file is complete |
| `ReceiverContext.ChunkingRoundTrip` | Ensc351ymodLib/ReceiverY.cpp:188-199 | Folding `writeChunk` over the blocks that `genBlk` makes of a file rebuilds the file, files that end in 0x1A included |
| `ReceiverChart.Cont` | Ensc351ymodLib/yReceiverSS.cpp:817-1172 | Every CONT message strictly lowers a rank, whichever guard holds |
| `ReceiverChart.Cascade` | Ensc351ymodLib/yReceiverSS.cpp:1092-1172 | Handling posted messages ends in a state that waits for an event |
| `ReceiverChart.React` | Ensc351ymodLib/yReceiverSS.cpp:132-1393 | After every event the receiver rests outside the four transient states |
| `ReceiverSteps.WaitingIdle` | Ensc351ymodLib/yReceiverSS.cpp:301-316 | While it waits for a stat block, or is in the CAN state and will wait again, noise, lone CAN bytes, damaged blocks, timeouts and a cancel make the receiver stop or go on waiting, and never draw an ACK |
| `ReceiverSteps.CanDetour` | Ensc351ymodLib/yReceiverSS.cpp:1304-1393 | One CAN and then another byte or a timeout brings the receiver back if and only if it is outside the data phase and no keyboard cancel is pending; then only the history has changed |
| `ReceiverSteps.CanLeavesDataPhase` | Ensc351ymodLib/yReceiverSS.cpp:323-330 | From the data phase, a CAN byte and a timeout lead to waiting for a stat block, with the file still open |
| `ReceiverSteps.DataReadAsStat` | Ensc351ymodLib/yReceiverSS.cpp:756-779 | The next data block is then read as a stat block: another file is created, and the one before it is neither complete nor reported |
| `ReceiverSteps.WaitingEot` | Ensc351ymodLib/yReceiverSS.cpp:717-753 | An EOT that comes again behind a closed file changes no file |
| `ReceiverSteps.WaitingStat` | Ensc351ymodLib/yReceiverSS.cpp:817-965 | The next file's stat block creates that file, empty, and starts its data phase, or the receiver stops |
| `ReceiverSteps.ReceivingIdle` | Ensc351ymodLib/yReceiverSS.cpp:246-316 | In the data phase, whatever carries nothing from the sender leaves files and block count alone and draws no ACK |
| `ReceiverSteps.ReceivingBlk` | Ensc351ymodLib/yReceiverSS.cpp:354-390 | In the data phase the next block is taken as new and the last one as a repetition |
| `ReceiverSteps.ReceivingReplies` | Ensc351ymodLib/yReceiverSS.cpp:589-654 | The reply writes new data to the open file, and is an ACK exactly when the block was good |
| `ReceiverSteps.ReceivingEot` | Ensc351ymodLib/yReceiverSS.cpp:421-514 | A first EOT is refused; a second one closes the file and reports it as done, or the receiver stops |
| `ReceiverSteps.DoneWithoutCounting` | Ensc351ymodLib/yReceiverSS.cpp:494-513 | Two EOTs in a row make the receiver report a file as done whatever it has got of it; the file is complete if and only if all its blocks have been taken, which the bytes still missing, at which the receiver does not look, would tell it |
| `ReceiverSteps.EndingBlk` | Ensc351ymodLib/yReceiverSS.cpp:1239-1271 | The empty stat block and its repetitions change no file |
| `ReceiverSteps.BurstStops` | Ensc351ymodLib/yReceiverSS.cpp:1304-1360 | A burst of CAN bytes stops the receiver, or is discarded as a whole while a reply is due |
| `ReceiverReplies.Starts` | Ensc351ymodLib/yReceiverSS.cpp:80-85 | The receiver starts by sending 'C', with no error, no cancel, no file closed yet, and 0 as the next block number |
| `ReceiverReplies.RepliesToTimeout` | Ensc351ymodLib/yReceiverSS.cpp:292-320 | A timeout draws a NAK with a file open and a 'C' without, as long as fewer than ten errors are counted and no cancel is pending; otherwise eight CAN bytes and the end |
| `ReceiverReplies.AsksAgain` | Ensc351ymodLib/yReceiverSS.cpp:301-316 | In the data phase of any file the receiver asks for a block again by exactly one NAK, and before a stat block by exactly one 'C' |
| `ReceiverReplies.RepliesToBlock` | Ensc351ymodLib/yReceiverSS.cpp:589-654 | The reply to any block: ACK, ACK and 'C', or NAK, with the data written if they are new; or eight CAN bytes and the file closed, at ten errors or a block out of step |
| `ReceiverReplies.RepliesToCancel` | Ensc351ymodLib/yReceiverSS.cpp:555-587 | A cancel ends the session at once exactly while a reply is due, and otherwise is only noted down |
| `ReceiverReplies.RepliesToOtherBytes` | Ensc351ymodLib/yReceiverSS.cpp:246-290 | Bytes that begin nothing are discarded, or end a session in which a cancel is pending |
| `ReceiverReplies.RepliesInCan` | Ensc351ymodLib/yReceiverSS.cpp:1304-1360 | In the CAN state: a second CAN closes the file and ends the session with nothing sent, and any other byte brings the receiver back unless a cancel is pending |
| `ReceiverReplies.RepliesToFirstEot` | Ensc351ymodLib/yReceiverSS.cpp:421-454 | The first EOT draws a NAK and is counted as an error |
| `ReceiverReplies.RepliesToSecondEot` | Ensc351ymodLib/yReceiverSS.cpp:485-516 | The second EOT draws ACK and 'C' with the file reported as done, or eight CAN bytes when it cannot be closed, cancel or not |
| `ReceiverReplies.RepliesToLateEot` | Ensc351ymodLib/yReceiverSS.cpp:710-753 | Behind a closed file an EOT draws ACK and 'C' again if and only if fewer than ten errors are counted; before the first file it draws nothing |
| `ReceiverReplies.BlockIsStored` | Ensc351ymodLib/yReceiverSS.cpp:354-390 | What a block in the data phase does to the count of errors, and exactly when the line is purged |
| `ReceiverReplies.RepliesToBadStat` | Ensc351ymodLib/yReceiverSS.cpp:1092-1172 | A bad block before the data phase draws a NAK; at ten errors, or out of step, eight CAN bytes and the end |
| `ReceiverReplies.RepliesToStat` | Ensc351ymodLib/yReceiverSS.cpp:817-965 | A good stat block has its file created and draws ACK and 'C', or eight CAN bytes when that fails, or ends the machine by an exception over its size |
| `ReceiverReplies.RepliesToEmptyStat` | Ensc351ymodLib/yReceiverSS.cpp:817-873 | A good block that starts with a zero byte draws an ACK, and no more is asked for |
| `ReceiverReplies.TimeoutsOnEnd` | Ensc351ymodLib/yReceiverSS.cpp:301-316 | For any number of timeouts in a row: the receiver asks again once for each until ten errors are counted, the next one brings eight CAN bytes and the end, and later ones change nothing |
| `LinkSafety.InitInv` | Ensc351ymodLib/ySenderSS.cpp:75-102 | The two machines start within the invariant |
| `LinkSafety.SenderReadKeeps` | Ensc351ymodLib/ySenderSS.cpp:329-905 | What the sender does with a byte keeps the invariant over both machines and the line |
| `LinkSafety.ReceiverActKeeps` | Ensc351ymodLib/yReceiverSS.cpp:246-1271 | What the receiver does with an item, noise, a timeout or a cancel keeps the invariant |
| `LinkSafety.LineActKeeps` | Ensc351ymodLib/SenderY.cpp:99-107 | Losing items and replies, and replies that turn into anything but an ACK, keep the invariant |
| `LinkSafety.StepKeeps` | Ensc351ymodLib/ySenderSS.cpp:215-905 | Every act that can happen keeps the invariant |
| `LinkSafety.Safety` | Ensc351ymodLib/yReceiverSS.cpp:1009-1031 | On every run, files written are prefixes of the sender's files, in their order and under their names, and complete wherever the receiver has reported "Done, " |
| `LinkRecovery.Recovers` | Ensc351ymodLib/yReceiverSS.cpp:301-316 | From any moment at which a data block is on its way without a cancel pending: whatever mix of lost blocks, damaged blocks and lost replies befalls it, within the errors the receiver has left, it arrives, and the sender goes on to the next block or the EOT |
| `LinkRecovery.FileGetsThrough` | Ensc351ymodLib/ySenderSS.cpp:338-392 | From the first sending of any block on, the whole rest of the file is written and the EOT is sent, with up to four losses, or two lost replies, befalling every single block |
| `LinkRecovery.LossesMadeGood` | Ensc351ymodLib/ySenderSS.cpp:338-349 | A block that is lost n times in a row is out again each time, as long as neither side has counted more than ten errors |
| `LinkRecovery.OneLossTooMany` | Ensc351ymodLib/yReceiverSS.cpp:169-204 | The loss behind ten errors ends the session on both sides: eight CAN bytes from the receiver, of which two stop the sender |
| `LinkRecovery.LostStatMadeGood` | Ensc351ymodLib/ySenderSS.cpp:867-880 | A lost stat block is asked for by a 'C' and goes out again |
| `LinkRecovery.LostEotMadeGood` | Ensc351ymodLib/ySenderSS.cpp:463-493 | A lost EOT is asked for by a NAK, which brings another one |
| `LinkRecovery.LostLastAckIsFinal` | Ensc351ymodLib/ySenderSS.cpp:633-681 | A lost ACK of the second EOT cannot be made good: the receiver's 'C' does not move the sender, whose timeout ends the session although the file is complete |
| `LinkRecovery.ReachedBlockOut` | Ensc351ymodLib/ySenderSS.cpp:329-392 | Every state that a run can reach with a data block alone on the line, and no cancel or reply, is one from which recovery works |
| `LinkSafety.NextFileStage` | Ensc351ymodLib/ySenderSS.cpp:447-467 | An ACK read behind an EOT means that the receiver has closed the file |
| `LinkSafety.DataGoesOut` | Ensc351ymodLib/ySenderSS.cpp:376-392 | A new data block goes out only when the one before it is known to have arrived |
| `Link.PurgeIsLosses` | Ensc351ymodLib/ReceiverY.cpp:91-96 | Discarding what is at the head of the line, from nothing to all of it, is a run of losses, and so is within every theorem about the line |
| `LinkReports.SenderIsRight` | Ensc351ymodLib/ySenderSS.cpp:633-681 | On every run, every file that the sender has left behind, and so every file that it has reported as "Done, ", has been written completely by the receiver, even if the receiver has stopped since |
| `LinkReports.EndOfSessionMeansAllFiles` | Ensc351ymodLib/ySenderSS.cpp:883-905 | When the sender has reported "EndOfSession", on whatever run, the receiver has written all of its files completely |
| `LinkReports.SenderResult` | Ensc351ymodLib/ySenderSS.cpp:658-676 | The sender reports a file as done only when an ACK takes it from its second EOT to the next file |
| `LinkReports.ReactReports` | Ensc351ymodLib/yReceiverSS.cpp:132-1393 | Whatever happens, the receiver takes no report of a done file back, and sends no ACK in the reaction in which it stops |
| `ReceiverBounds.ErrorsBounded` | Ensc351ymodLib/yReceiverSS.cpp:301-316 | Over every sequence of events the count of errors never exceeds the bound by more than two, and never exceeds it where a data block is awaited |
| `ReceiverBounds.ProblemsCounted` | Ensc351ymodLib/yReceiverSS.cpp:301-316 | Every response to a problem since the count was last set back is counted - a NAK, the byte that asks again after a timeout, the answer to a repeated EOT, the ACK for a repeated data block and for a stat block behind the last file - and so there are at most `errB` + 2 of them |
| `ReceiverBounds.LateBlockEndsSession` | Ensc351ymodLib/yReceiverSS.cpp:598-650 | After a data block, the next timeout ends the session if and only if numbers are out of step, or the block was not a new one and the count has reached the bound |
| `ReceiverBounds.PastTheBoundOnEveryRun` | Ensc351ymodLib/yReceiverSS.cpp:354-451 | In every state of every run, an event takes the count to more than `errB` if and only if the count is at `errB` or above and the event is an EOT in the data phase, a data block that is not new, or a block behind the last file, with no cancel pending; then it goes up by exactly one |
| `ReceiverBounds.LimitIsReached` | Ensc351ymodLib/yReceiverSS.cpp:421-451 | The limit of `errB` + 2 is reached: ten timeouts, an EOT and a block cut short |
| `ReceiverBounds.ContRounds` | Ensc351ymodLib/yReceiverSS.cpp:1092-1172 | At most three CONT messages follow an event, and exactly three follow a good stat block that is not the last one and whose size can be read |
| `FaultFree.FaultlessStep` | Ensc351ymodLib/ySenderSS.cpp:338-905 | On a faultless line every act that can happen takes the session to the one next stage, and a purge finds nothing on the line |
| `FaultFree.SomethingToDo` | Ensc351ymodLib/PeerY.cpp:134-247 | Until the session is over, something can happen |
| `FaultFree.NextIsNearer` | Ensc351ymodLib/ySenderSS.cpp:338-905 | Each stage is exactly one act nearer to the end |
| `FaultFree.TotalCorrectness` | Ensc351ymodLib/yReceiverSS.cpp:363-1233 | For every list of files that open, empty ones and long ones included, a faultless session makes exactly 8 acts per file, 3 per data block and 4 at the end, and then both results are one "Done, " per file and "EndOfSession", and the files are the sender's |
| `FaultFree.FinalResults` | Ensc351ymodLib/yReceiverSS.cpp:1219-1232 | The two result strings are then "Done, " once per file and "EndOfSession" |
| `FaultFree.DirectoryHolds` | Ensc351ymodLib/ReceiverY.cpp:203-217 | With different base names the receiver's directory holds exactly the sender's files |
| `UnsolicitedAck.DataPhaseBegins` | Ensc351ymodLib/ySenderSS.cpp:557-577 | On every run of both peers, when a byte makes the sender send the first data block of a file, the receiver has its stat block and no data block yet, even if it still owes a reply, or has stopped |
| `UnsolicitedAck.LeadIsSmallOnEveryRun` | Ensc351ymodLib/PeerY.h:42 | From the start of both peers, over any run up to the first data block of a file and any run of the data phase that follows, the lead is at most 13 |
| `UnsolicitedAck.PurgesSpareBlocks` | Ensc351ymodLib/ReceiverY.cpp:91-96 | A purge of the data phase never hits a block that has not been shown to the receiver |
| `UnsolicitedAck.WrongNumber` | Ensc351ymodLib/ReceiverY.cpp:128-140 | A block 2 to 200 ahead is neither new nor a repetition: the receiver is out of step, or stops |
| `UnsolicitedAck.DamagedKeeps` | Ensc351ymodLib/yReceiverSS.cpp:374-380 | A damaged block counts as an error, and so makes up for the block that the sender gets ahead by |
| `UnsolicitedAck.StepKeeps` | Ensc351ymodLib/yReceiverSS.cpp:354-390 | Every act of the data phase, ACKs from nowhere included, keeps the sender's lead within the errors counted |
| `UnsolicitedAck.LeadIsSmall` | Ensc351ymodLib/PeerY.h:42 | Through the data phase of a file of any length, with any bytes on the way to the sender, the last block sent is at most 13 ahead of the last one taken, and what is written is a prefix of the file |
| `UnsolicitedAck.NewBlockIsNext` | Ensc351ymodLib/ReceiverY.cpp:128-179 | Any block taken as new is exactly the next block of the file, although its number says so only modulo 256 |
| `SenderY.SenderY.DumpGlitches` | Ensc351ymodLib/SenderY.cpp:73-84 | Reading twenty bytes at a time until fewer come discards all that has arrived |
| `SenderY.SenderY.SendLastByte` | Ensc351ymodLib/SenderY.cpp:99-107 | The last byte goes out, and what had arrived before it is gone |
| `SenderY.SenderY.GenStatBlk` | Ensc351ymodLib/SenderY.cpp:111-149 | Builds exactly the stat block if and only if name, size and two zero bytes fit 128; with one byte too many it runs over the payload, with more it refuses |
| `SenderY.OverrunHappens` | Ensc351ymodLib/SenderY.cpp:125-143 | An empty file with a base name of 126 bytes makes it run over the payload, and so does a file of any size with a name that leaves one byte too few |
| `SenderY.SenderY.GenBlk` | Ensc351ymodLib/SenderY.cpp:159-176 | Fills the buffer with the next block of the file, or leaves it alone at the end of the file |
| `SenderY.SenderY.PrepStatBlk` | Ensc351ymodLib/SenderY.cpp:184-200 | Opens the next file, of whatever name and size, and prepares its stat block, or the empty one behind the last file; says where the building of the block ends |
| `SenderY.SenderY.SendBlkPrepNext` | Ensc351ymodLib/SenderY.cpp:204-217 | The current block goes out as it was, the next one is prepared in the other buffer |
| `SenderY.SenderY.ResendBlk` | Ensc351ymodLib/SenderY.cpp:220-229 | The block before the current one goes out, and no field changes |
| `SenderY.SenderY.SendCans` | Ensc351ymodLib/SenderY.cpp:270-283 | Four bursts put eight CAN bytes on the line |
| `YSenderSS.YSenderSS.PostEvent` | Ensc351ymodLib/ySenderSS.cpp:104-1052 | For any files, the object reacts to each event as the chart says, in state, buffers, counters and bytes sent, unless an ACK for an EOT leads to a file whose stat block cannot be built |
| `YSenderSS.YSenderSS.AckNakSer` | Ensc351ymodLib/ySenderSS.cpp:329-392 | The object does what `SenderReplies.AckNakReplies` says of the chart: repeats the block, goes on to the next one or to the EOT, or gives up, in its fields, buffers and bytes written |
| `YSenderSS.YSenderSS.Eot1Ser` | Ensc351ymodLib/ySenderSS.cpp:423-493 | Repeats EOT, sends the second one, or goes on to the next file if its stat block can be built, as the chart says |
| `ReceiverY.ReceiverY.GetRestBlk` | Ensc351ymodLib/ReceiverY.cpp:99-185 | The nested tests with their early returns leave exactly the flags and the number of the specification, and discard the line exactly when it says so |
| `ReceiverY.ReceiverY.WriteChunk` | Ensc351ymodLib/ReceiverY.cpp:188-199 | Appends the valid part of the payload to the open file and to no other |
| `ReceiverY.ReceiverY.OpenFileForTransfer` | Ensc351ymodLib/ReceiverY.cpp:203-217 | Creates the file before it reads the size, and says whether reading it has thrown |
| `ReceiverY.ReceiverY.CloseTransferredFile` | Ensc351ymodLib/ReceiverY.cpp:225-238 | Closes the file and gets ready for block 0, or keeps both on an error |
| `YReceiverSS.YReceiverSS.PostEvent` | Ensc351ymodLib/yReceiverSS.cpp:107-1393 | The object reacts to each event as the chart says, with all messages that it posts |
| `YReceiverSS.YReceiverSS.SendPostedMessages` | Ensc351/ss_api.cpp:125-147 | The loop over the queue ends with the queue empty, where the cascade of the specification ends |
| `YReceiverSS.CascadeFrom` | Ensc351/ss_api.cpp:125-147 | What was sent before does not matter for what the posted messages do |
| `PeerY.TransferSender` | Ensc351ymodLib/PeerY.cpp:134-247 | For any bytes, cancels and times, the loop takes the sender's objects through the run of the chart on the events that it posts, and they write what that run puts on the line; a single turn in which nothing is ready changes nothing before the deadline and ends the session with eight CAN bytes behind it; a byte is posted before a cancel; it throws exactly at a cancel behind the byte that stops the machine, and ends early exactly at a stat block that cannot be built |
| `PeerY.CancelCanThrow` | Ensc351ymodLib/PeerY.cpp:204-238 | For every list of files, a cancel in the turn of the second of two CAN bytes makes the loop throw |
| `PeerY.QuietTurn` | Ensc351ymodLib/PeerY.cpp:201-207 | A turn in which nothing is ready changes nothing before the deadline; from the deadline on it ends the session with eight CAN bytes, and Timeout or KbCancelled |
| `PeerY.BusyTurn` | Ensc351ymodLib/PeerY.cpp:208-243 | A turn with a byte and a cancel has the machine react to the byte first, and throws exactly if the byte has stopped it |
| `PeerY.TurnsGoOn` | Ensc351ymodLib/PeerY.cpp:165-245 | What further turns post depends on the state in which those before them have left the machine, and on nothing else |
| `PeerY.OneReceiverTurn` | Ensc351ymodLib/PeerY.cpp:201-243 | The same for the receiver: a timeout exactly when it is due, the byte before the cancel, and exactly when the turn throws |
| `PeerY.CancelCanThrowAtReceiver` | Ensc351ymodLib/PeerY.cpp:204-238 | So it does for the receiver |
| `PeerY.SendFiles` | Ensc351ymodLib/SenderY.cpp:286-295 | From construction on, all that the sender's objects write are the items of one run, unless a stat block cannot be built; if the files fit that does not happen, and every block is the last one or the next one of the current file |
| `PeerY.ReceiveFiles` | Ensc351ymodLib/ReceiverY.cpp:301-310 | From construction on, the receiver's objects send what one run of the chart sends, end up with at most `errB` + 2 errors and with no message left in the queue |
| `StateTree.CommonRootIsLowest` | Ensc351/ss_api.cpp:365-395 | The common root lies below every other state that is above both |
| `StateTree.PathIsBetween` | Ensc351/ss_api.cpp:398-438 | The path from a state down to another holds exactly the states strictly below the one and above or at the other |
| `StateTree.TransitionTheorem` | Ensc351/ss_api.cpp:282-362 | Over any tree: one leaf is active after a transition if and only if the caller is the active leaf or does not lie above the target; that leaf is below the target, and each state strictly below the lowest common state on the way is entered once, outermost first, and each one on the way up from the caller is left once, innermost first |
| `StateTree.StartFollowsHistory` | Ensc351/ss_api.cpp:577-604 | On the way to the leaf in which a state starts, each super state is followed by the substate that it remembers, or else by its first one |
| `StateTree.OnlyParentRemembers` | Ensc351/ss_api.cpp:468-514 | Only the parent of the active leaf remembers anything new, if it keeps a history, and only when the leaf is left from above |
| `StateTree.StateMgr.GetRoot` | Ensc351/ss_api.cpp:365-395 | The nested upward search finds the lowest common state |
| `StateTree.StateMgr.RemoveActiveStates` | Ensc351/ss_api.cpp:468-514 | The caller and what is active below it leave the list; only the direct parent of the removed leaf remembers it, and only when the caller is above the leaf |
| `StateTree.StateMgr.ExecuteExit` | Ensc351/ss_api.cpp:282-327 | Exits are called from the caller upwards, on nothing below it |
| `StateTree.StateMgr.ConstructTree` | Ensc351/ss_api.cpp:398-438 | The list of states to enter is the path from the common root to the leaf in which the target starts, without repetitions |
| `StateTree.StateMgr.ExecuteEntry` | Ensc351/ss_api.cpp:330-362 | The leaf becomes active and the states of the list are entered in order |
| `StateTree.StateMgr.GetInitialStates` | Ensc351/ss_api.cpp:577-604 | Remembered substates come before the first ones |
| `StateTree.StateMgr.MakeTransition` | Ensc351/ss_api.cpp:282-362 | Exit and entry together make the transition of the theorem |
| `StateTree.StateMgr.EnterInitialStates` | Ensc351/ss_api.cpp:60-80 | The machine is put into the initial leaf, with every state from the top down to it entered once |
| `StateEngine.LeafAfter` | Ensc351/ss_api.cpp:282-362 | A move of any handler that leaves an active state, and goes to one that is not below it, leaves exactly one leaf active |
| `StateEngine.FiredBehind` | Ensc351/ss_api.cpp:125-147 | Messages that have been handled and are still in the list do not matter for what a message does |
| `StateEngine.MovesInOrder` | Ensc351/ss_api.cpp:234-273 | For any chart that records what it does: exits, effect and entries happen in this order, and what is posted goes behind the queue |
| `StateEngine.HandledInOrder` | Ensc351/ss_api.cpp:125-147 | Messages that post nothing are handled in the order of the queue |
| `StateEngine.PostedComeLast` | Ensc351/ss_api.cpp:125-147 | What a message posts is handled behind all that was in the queue with it |
| `StateEngine.EndIsTheSame` | Ensc351/ss_api.cpp:125-147 | Where the posted messages end does not depend on how many are allowed for |
| `StateEngine.Machine.FireMessage` | Ensc351/ss_api.cpp:234-273 | The active leaf handles a message: exits, effect, entries, in this order, and what they post goes behind what is in the list |
| `StateEngine.Machine.SendPostedMessages` | Ensc351/ss_api.cpp:125-147 | For any chart over any tree, all posted messages are handled in their order, those included that are posted meanwhile, exactly if they come to an end |
| `StateEngine.Machine.Start` | Ensc351/ss_api.cpp:60-87 | The machine enters its initial states and then handles all that entering them has posted, with one leaf active or none; it then counts as running even if those messages have finished it |
| `StateEngine.StartFinished` | Ensc351/ss_api.cpp:60-87 | A chart whose only state posts a finishing message at its entry: after the start no leaf is active, and the machine counts as running |
| `StateEngine.Machine.PostEvent` | Ensc351/ss_api.cpp:90-122 | An event and all messages that follow from it are handled before the next one; while the machine is busy an event is queued, and when it is not running the call throws; it goes on running if and only if one leaf is active |
| `ChartTrees.ReceiverGoesToCan` | Ensc351ymodLib/yReceiverSS.cpp:268-287 | On the receiver's tree a CAN byte leads to the CAN state, and the history is what the flat chart keeps: the data phase is not remembered |
| `ChartTrees.ReceiverComesBack` | Ensc351ymodLib/yReceiverSS.cpp:1313-1333 | On the receiver's tree the way back from CAN leads to the state that the flat chart says |
| `ChartTrees.ReceiverMoves` | Ensc351ymodLib/yReceiverSS.cpp:598-625 | Moves between leaves, and to the data phase, end where the flat chart says and leave the history alone |
| `ChartTrees.ReceiverLeavesData` | Ensc351ymodLib/yReceiverSS.cpp:363-387 | Leaving the data phase for the reply state remembers nothing |
| `ChartTrees.SenderDetour` | Ensc351ymodLib/ySenderSS.cpp:247-267 | On the sender's tree a CAN byte and the way back lead to the state that was left |
| `CircBuf.WriteStretches` | Ensc351Part3-soln/src/RageUtil_CircularBuffer.h:161-191 | The two stretches of free cells are the cells behind the contents in order, one fewer than are free |
| `CircBuf.ReadStretches` | Ensc351Part3-soln/src/RageUtil_CircularBuffer.h:203-228 | The two stretches of filled cells are the contents in order |
| `CircBuf.AppendedElements` | Ensc351Part3-soln/src/RageUtil_CircularBuffer.h:235-255 | Overwriting the cells behind the contents appends to them |
| `CircBuf.RemainingElements` | Ensc351Part3-soln/src/RageUtil_CircularBuffer.h:261-286 | Overwriting the oldest cells takes exactly those elements away |
| `CircBuf.CircBuf.Write` | Ensc351Part3-soln/src/RageUtil_CircularBuffer.h:235-255 | Takes as much as there is room for, behind what is there |
| `CircBuf.CircBuf.Read` | Ensc351Part3-soln/src/RageUtil_CircularBuffer.h:261-286 | Gives back the oldest elements, keeps the others, and overwrites the cells given up with 0xFF |
| `CircBuf.CircBuf.NumReadable` | Ensc351Part3-soln/src/RageUtil_CircularBuffer.h:83-96 | Counts the contents |
| `CircBuf.CircBuf.NumWritable` | Ensc351Part3-soln/src/RageUtil_CircularBuffer.h:99-118 | Contents and room add up to the capacity |
| `LockFree.WriterKeeps` | Ensc351Part3-soln/src/RageUtil_CircularBuffer.h:235-255 | Each load, copy and store of the writer keeps the invariant, with a stale read position |
| `LockFree.ReaderKeeps` | Ensc351Part3-soln/src/RageUtil_CircularBuffer.h:261-286 | Each load, copy, overwriting and store of the reader keeps the invariant, with a stale write position |
| `LockFree.LockFreeFifo` | Ensc351Part3-soln/src/RageUtil_CircularBuffer.h:161-286 | On every interleaving the two programs never touch the same cell, the capacity is never exceeded, and what has been read followed by what is held is what has been written |
| `LockFree.NothingLostWhileFilling` | Ensc351Part3-soln/src/RageUtil_CircularBuffer.h:277-283 | While the reader overwrites cells, its copy and the rest of the buffer are still all that has not been read |
| `LockFree.WriterMovesOn` | Ensc351Part3-soln/src/RageUtil_CircularBuffer.h:235-255 | No step of the writer waits: each one brings its call nearer to the end, and no step of the reader sets it back |
| `LockFree.ReaderMovesOn` | Ensc351Part3-soln/src/RageUtil_CircularBuffer.h:261-286 | No step of the reader waits, and no step of the writer sets it back |
| `LockFree.WaitFree` | Ensc351Part3-soln/src/RageUtil_CircularBuffer.h:235-286 | From any point of any run, a call returns within a number of its own steps that follows from its request alone, whatever the other program does meanwhile |
| `LockFree.WritesAlone` | Ensc351Part3-soln/src/RageUtil_CircularBuffer.h:235-255 | From any state of any run, a call to `write` that is not interrupted takes as many elements as it has and there is room for |
| `LockFree.ReadsAlone` | Ensc351Part3-soln/src/RageUtil_CircularBuffer.h:261-286 | A call to `read` that is not interrupted gives back the next elements written, as many as it wants and there are |
| `SocketPair.NoLostWakeups` | Ensc351Part3-soln/src/myIO.cpp:91-227 | On every run, a blocked reader without a notification has less than it waits for and a live pair, a blocked drainer without one has data that nobody will take, and a notified drainer has seen the data drained or an end closed |
| `SocketPair.StepKeeps` | Ensc351Part3-soln/src/myIO.cpp:91-273 | Every call, wake-up and close keeps the invariant of both ends |
| `SocketPair.ReadingEnterOk` | Ensc351Part3-soln/src/myIO.cpp:139-197 | A reader that blocks wakes the drainers, and does not miss data or a closed pair |
| `SocketPair.ReadingResumeOk` | Ensc351Part3-soln/src/myIO.cpp:192-226 | A reader that goes on leaves no drainer blocked on drained data |
| `SocketPair.ClosingOk` | Ensc351Part3-soln/src/myIO.cpp:232-273 | Closing wakes the drainers of one end and the reader of the other |
| `SocketPair.DrainReturnsAtOnce` | Ensc351Part3-soln/src/myIO.cpp:91-118 | A drain returns at once if and only if the data are drained or an end is closed |
| `SocketInfo.SocketInfo.ReadFrom` | Ensc351Part3-soln/src/myIO.cpp:139-190 | A read that finds enough gives back up to n bytes from the front, however few were asked for at least, and keeps the rest; it blocks exactly when there is too little, takes nothing then, and wakes every drainer |
| `SocketInfo.SocketInfo.ReaderGoesOn` | Ensc351Part3-soln/src/myIO.cpp:192-226 | Behind its wait the reader takes up to n bytes from the front and gives up its claim, or waits on with nothing changed |
| `SocketInfo.SocketInfo.CloseThis` | Ensc351Part3-soln/src/myIO.cpp:232-273 | Both objects learn which end was closed, and who has to wake up does |
| `SocketInfo.Sockets.MySocketpair` | Ensc351Part3-soln/src/myIO.cpp:348-356 | Two new descriptors know each other, and no other descriptor changes |
| `SocketInfo.Sockets.MyReadcond` | Ensc351Part3-soln/src/myIO.cpp:283-292 | A read goes to the object of the descriptor itself: up to n bytes from the front if there are min of them, nothing once the pair is closed, and otherwise it blocks; all stays linked, and no other object changes |
| `SocketInfo.Sockets.MyRead` | Ensc351Part3-soln/src/myIO.cpp:298-305 | `myRead` blocks exactly on an empty socket, and otherwise gives back up to n bytes |
| `SocketInfo.Sockets.MyWrite` | Ensc351Part3-soln/src/myIO.cpp:310-321 | As much as there is room for goes to the object of the pair, unless that one is closed, and the result says how much; no other object changes, and all stay linked |
| `SocketInfo.Sockets.MyTcdrain` | Ensc351Part3-soln/src/myIO.cpp:326-342 | A drain waits on the object of the pair, and is over when that one is closed; no other object changes, and all stay linked |
| `SocketInfo.Sockets.MyClose` | Ensc351Part3-soln/src/myIO.cpp:362-375 | The descriptor leaves the map, all others stay linked to their pairs, and no third object changes |
| `Medium.StaysAhead` | Ensc351Part6/src/Medium.cpp:100-136 | Both thresholds stay above the count, every computed index is in range, and no read holds both a byte to complement and one to drop |
| `Medium.FaultsDoNotDependOnChunking` | Ensc351Part6/src/Medium.cpp:85-160 | For every split into reads of 1 to 70 bytes, what is forwarded apart from the glitch bytes is the input with exactly bytes 264+790k complemented and bytes 659+790k gone |
| `Medium.DamagedBytes` | Ensc351Part6/src/Medium.cpp:107-140 | Where each byte of the stream comes out, and that it is complemented exactly if it is number 264, 1054, 1844, ... and missing exactly if it is number 659, 1449, 2239, ... |
| `Medium.GlitchesOfStream` | Ensc351Part6/src/Medium.cpp:107-117 | For every split into reads, 35 glitch bytes go out behind the second, fourth, ... complemented byte and behind no other |
| `Medium.NoGlitchAtFirst` | Ensc351Part6/src/Medium.cpp:107-117 | Four reads of 70 bytes: byte 264 comes out complemented, with no glitch byte behind it |
| `Medium.LostReads` | Ensc351Part6/src/Medium.cpp:120-140 | A read leaves nothing to forward if and only if it is the single byte to be dropped |
| `Medium.FaultsAreFarApart` | Ensc351Part6/src/Medium.cpp:28-36 | Complemented and dropped bytes are at least 395 apart, so no block meets two of them |
| `Medium.SameStreamSameFaults` | Ensc351Part6/src/Medium.cpp:85-160 | Two ways to split the same stream come to the same |
| `Medium.Medium.MsgFromTerm2` | Ensc351Part6/src/Medium.cpp:85-160 | Copying, complementing in place and shifting in the buffer forward the bytes that `Medium.DamagedBytes` describes, then the glitch bytes that `Medium.GlitchesOfStream` counts, and an extra ACK once, for every read of up to 70 bytes; a read of the one byte to be dropped sends a CAN byte instead, and then the program asks for a write of -1 bytes |
| `Medium.Medium.MsgFromTerm1` | Ensc351Part6/src/Medium.cpp:211-251 | Every 7th byte is dropped; of the others every 6th becomes NAK and every 50th asks for an extra ACK; a glitch byte goes before every 4th byte that is sent |

## Left out

- LinkRecovery.Recovers: stated for data blocks without a cancel pending; whether the replies come in time for the sender's 15 seconds is not part of it.
- Link.Enabled: a block goes out only when the receiver has taken everything that is on the line, which is what `myTcdrain` before the last byte gives for one hop; with the medium's thread in between, the drain covers the first hop only.
- LinkSafety.Safety: two things are excluded that would break it: a lone CAN byte in FirstByteData and EotData, which keep no history, so that the receiver would not return to the data phase; and an EOT from nowhere where the receiver answers it, which is there and behind a closed file. It is stated for files whose stat blocks fit and whose sizes fit an int.
- FaultFree.TotalCorrectness: the sender's timeout of 15 seconds does not run out while the receiver's zero timeout is due, and the user presses nothing.
- UnsolicitedAck.LeadIsSmall: a block that arrives while a reply is due is discarded unseen by the receiver, and so is not among the acts.
- YSenderSS.YSenderSS.PostEvent: an event for a machine that has stopped changes nothing; the engine throws there, which `PeerY.TransferSender` reports.
- ReceiverBounds.ErrorsBounded: stated for the receiver only; the sender's answers to NAK and 'C' behind a stat block have no bound (ySenderSS.cpp:867-880).
- StateTree.StateMgr.ExecuteExit: stated for one active leaf, which is all there can be without concurrent regions as long as no caller lies above its target.
- SocketInfo.Sockets.MyWrite: how much a buffer still takes is an input; its fixed capacity, and a write that fails, are not modelled.
- SocketInfo.SocketInfo.ReadFrom: stated for one reader at a time on a descriptor.
- Medium.FaultsDoNotDependOnChunking: a read of the single byte that is to be dropped is excluded, because what the program does then is a write of -1 bytes (`Medium.Medium.MsgFromTerm2`).
- StateEngine.Machine.SendPostedMessages: its caller says that the messages come to an end; a chart whose messages post each other for ever is not handled.
- PeerY.ReceiveFiles: whether the receiver's timeout is due is an input of each turn; the sender's is worked out.
- `select` itself, the console, `clearCan`, the spacing of CAN bytes in time and all logging: what they come to is an arbitrary input.
- How long `purge` reads: it discards any part of what is on the line, and resynchronisation after a damaged SOH is not modelled.
- The receiver's timers other than the zero timeout of the reply state: a timeout may happen at any time.
- Data from earlier runs: a receiver that creates a file again starts it empty, and permissions, disk space and failing writes are not modelled.
- `unsigned int` counters of the medium and of errors are unbounded: wrap-around after 2^32 bytes is not modelled.
- Circular buffers with blocks of more than one element, the copy constructor, and a buffer without room.
- Several readers on one descriptor, spurious wake-ups, timed waits, and descriptors used again after both ends are closed.
- Concurrent regions of the statechart engine, its serialisation, messages posted to a state by name, and the tree walk of a message that no handler takes, which is written out in the flat charts.
- The program's own exit paths, and the sender's and receiver's earlier versions in Ensc351Part1 and Ensc351Part2.
