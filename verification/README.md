# A verified model of nbsp

Nbsp turns the SBN frames of the NOAAPort broadcast into files and passes them on.
This project models the parts of it whose correctness is not evident from one
function, and proves what they promise over every input and every run.

| module | source | what it models |
|---|---|---|
| `MFile` | `src/mfile.c` | memory files and the frame records in them |
| `Assembly`, `Pctl` | `src/framep.c`, `src/pctl.c` | what a frame does to the active product of its channel, as functions and as the objects that are updated in place |
| `Provenance`, `Fates` | `src/framep.c`, `src/pctl.c` | where the bytes of a complete product come from, and what becomes of every product announced |
| `PctlDb` | `src/pctldb.c`, `src/pctlmfdb.c` | the processor queue: a record queue and a B-tree keyed by time |
| `RtxDb`, `Processor` | `src/rtxdb.c`, `src/nbsp.c` | the retransmission database and the product processor |
| `Pipeline` | all of these | readers, queue and processor together |
| `SpoolDb` | `src/spooldb.c`, `src/nbsp.c`, `src/efile.c` | the spool directory, and the ring that decides which file to delete |
| `ConnTable` | `src/libconnth/conn.c`, `src/libconnth/poll.c`, `src/serverm.c` | the connection table and the sweep over it |
| `Reconnect` | `src/serverm.c`, `src/serverc.c`, `src/libconnth/*.c` | the reconnect protocol between the server and the client threads |
| `Util`, `Nbs1` | `src/util.c`, `src/pack.c`, `src/nbs1s.c`, `src/nbs1r.c`, `src/nreadn.c`, `src/serverc.c` | the NBS1 protocol |
| `SlaveNbs` | `src/slavenbs/framep.c`, `src/slavenbs/reader.c` | the reader that turns NBS1 packets back into products |
| `Basename` | `src/slavenbs/framep.c` | how a slave takes the name of a product apart |
| `Decimal`, `Emwin` | `src/emwin.c` | EMWIN packets |
| `Wmo` | `src/sbn.c`, `src/framep.c`, `src/nbspmspoolbdb.c` | WMO headings, product names and spool keys |
| `StrSplit`, `SlaveTable` | `src/strsplit.c`, `src/slavet.c`, `src/slave.c` | splitting strings, and the table of master servers |

Code that updates things in place is modelled by classes and methods; each is proved
against a function of its inputs, and the theorems are about those functions. Runs are
sequences of events, steps or operations. Everything that comes from outside is an
arbitrary input: regex verdicts, load flags, clock readings, write failures, the
decompressor (any partial function), how many bytes a `read()` or `write()` takes.

The main results:

- `Provenance.CompleteProducts`, `Provenance.WholeTransmissionIsSent`,
  `Provenance.SentExactlyWhenWhole`: over every run of frames on all channels, a frame
  sends a complete product if and only if it is the last one of a transmission that
  arrived whole, and what is sent is built from the blocks of that transmission and from
  nothing else.
- `Fates.EveryProductHasOneFate`, `Fates.EachStartSentOnce`, `Fates.AbandonedIsSent`,
  `Fates.CountersCount`: every product that is opened is sent once, discarded or still
  open; one that is given up is sent as incomplete, and exactly then; and each counter
  counts just what its name says.
- `Pipeline.EveryFileIsAProduct`: in every interleaving of the readers and the processor,
  every file in the spool directory is the data of one product, or a part of it when the
  latest attempt to write it failed.
- `Pipeline.NothingIsLost`, `Pipeline.WholeTransmissionBecomesFile`: conversely, a
  transmission that arrives whole becomes a file of exactly its own blocks; nothing is
  lost on the way and nothing is written twice.
- `Pipeline.DirectoryStaysSmall`, `Pipeline.LatestFilesOnDisk`, `SpoolDb.FilesAccountedFor`,
  `SpoolDb.RingHoldsLatest`: what the ring keeps in the spool directory, over every run.
- `Assembly.Conservation`, `Assembly.BalancedExactlyWhenSound`: the product counters
  balance over every run, and exactly which frames they need for that.
- `PctlDb.QueueIsFifo`, `PctlDb.FifoIffFreshStamp`, `PctlDb.SendStatus`: the two stores of
  the queue act as one FIFO, and exactly when; and exactly which products it rejects.
- `Reconnect.HolderIsCurrent`, `Reconnect.ClosesOnlyWhenLetGo`,
  `Reconnect.OrphansExactlyWhenLost`: descriptor safety in every interleaving.
- `Reconnect.RoundTrip`, `Reconnect.WaiterIsServed`: from every reachable state a client
  whose connection fails can be served again on its new one.
- `Processor.SpooledIsRemembered`, `Processor.RecordedExactlyWhen`,
  `Processor.MissedIsRecovered`, `Processor.ChainIgnored`, `RtxDb.LookupIsHistory`: what
  happens to retransmissions, and to retransmissions of retransmissions.
- `SlaveNbs.Transfer`, `SlaveNbs.FilesDelivered`, `SlaveNbs.FileDeliveredIffCountFits`:
  files sent over NBS1 in any pieces come out of the reader at the other end as exactly
  one complete product each, and exactly when.
- `ConnTable.AdmittedExactlyWhen`, `ConnTable.AdmittedIsServed`, `ConnTable.RunKeepsInv`,
  `ConnTable.OrderKeptOverRuns`, `ConnTable.SweepsClear`: who is let into the connection
  table and on which descriptor, and what every run keeps.
- `Basename.NamesReadBackIffNoDot`: a slave reads a product's name as its master meant it,
  and exactly when.
- `Emwin.FileReadsBack`, `Wmo.NamesAreApart`, `StrSplit.SegmentsUnique`,
  `SlaveTable.CreateTable`.

Where the code does not do what is promised of it, there is a lemma with an input that
shows it and one that says exactly when it does:

- Sequence number 0 stands for a closed channel (`src/pctl.c:450-471`). A frame or packet
  that carries it can upset the counters: `Assembly.UnsoundUnbalances`,
  `SlaveNbs.BalancedExactlyWhenSoundNbs`.
- A clock that steps back makes the queue hand out a product with another one's bytes:
  `PctlDb.ClockBackMixesProducts`. A receive that runs out of memory leaves the byte
  count too high for good, by exactly the bytes lost: `PctlDb.LostReceivesDrift`.
- A reconnection that overtakes the dirty sweep leaves a descriptor open that nobody
  will close: `Reconnect.ReconnectCanOvertakeSweep`.
- A product's file is opened, and so created or emptied, before anything else is done
  (`src/efile.c:21-28`). A save that fails leaves an empty or partial file that is not
  entered in the ring: `Processor.TooShortLeavesEmptyFile`, `Processor.SpooledExactlyWhen`,
  `SpoolDb.ResidueStays`. The spool directory is therefore not bounded by the number of
  slots alone: `SpoolDb.DirectoryBound`.
- The ring deletes a file that is still wanted when a name is reused:
  `SpoolDb.ReusedNameIsDeleted`, `SpoolDb.FilesAfterInsert`.
- A file of 65536 or more NBS1 blocks is not delivered. Its first blocks are passed off as
  the whole (`SlaveNbs.TooLongComesOutShort`), or nothing is ever complete
  (`SlaveNbs.ZeroCountNeverCompletes`): `SlaveNbs.FileDeliveredIffCountFits`.
- A dot in the AWIPS code of a heading makes a slave misread the product's name:
  `Basename.DotInAwipsIsMisread`, `Basename.NamesReadBackIffNoDot`.

Where code and comments differ the model follows the code:

- `src/slavet.c:454-459` speaks of four noaaport channels; `NPCAST_NUM_CHANNELS` is 9.
- `src/sbn.c:371-378` says that the BBB names a product without a second line; the code
  does that only when there is data after the first line (`Wmo.LoneLineLosesBbb`,
  `Wmo.BbbLostExactlyAtEnd`), and its second copy of the BBB cannot be reached (`Wmo.LetterYieldsCode`).
- `src/nbsp.c:563-570` says that status 2 cannot happen; it does for an empty frame
  (`Processor.McatOfFrames`).
- `src/framep.c:525-528` tells of a five-character WMO id; `validate_wmo` now refuses it.

## Model

| member | source | states |
|---|---|---|
| `MFile.InfoReadsBack` | src/mfile.c:223-294 | a frame record at the front of any data is read back with its size, flag and bytes, and the data after it is what is left |
| `MFile.EncodesAppend` | src/mfile.c:223-260 | writing one more record makes the file hold one more frame at the end, all earlier ones unchanged |
| `MFile.ReadBack` | src/mfile.c:262-294 | reading k times gives the first k frames written, flags included |
| `MFile.MemFile.constructor` | src/mfile.c:28-52 | a new memory file is empty and has at least the minimum allocation |
| `MFile.MemFile.Open` | src/mfile.c:65-71 | opening succeeds exactly when the file is empty |
| `MFile.MemFile.Close` | src/mfile.c:73-79 | closing empties the file and rewinds it |
| `MFile.MemFile.Realloc` | src/mfile.c:81-101 | the contents are kept unless they fill the new allocation or more, and then cut one byte below it; a refusal changes nothing |
| `MFile.MemFile.Write` | src/mfile.c:103-144 | appends across any number of growths, or leaves the contents alone; never fails when there is room or memory for twice the result |
| `MFile.MemFile.Read` | src/mfile.c:199-221 | hands out the next bytes, at most as many as are left, and moves past just those |
| `MFile.MemFile.WriteMemframe` | src/mfile.c:223-260 | a record is appended whole; on failure at most its info part is left behind |
| `MFile.MemFile.GetMemframe` | src/mfile.c:262-294 | returns the next frame and moves past it; 0 at the end of the data, -1 for a record cut short |
| `MFile.MemFile.AdjustSize` | src/mfile.c:296-318 | grows to the estimate, or gives half back at the lifetime maximum, never losing the (empty) contents |
| `Assembly.StartIsFresh` | src/framep.c:245-408 | a successful start leaves nothing of the channel's past in the product |
| `Assembly.TransferFlags` | src/sbn.h:56-62 | which bit of transfer_type is which flag |
| `Assembly.OtherFrames` | src/framep.c:60-77 | frames that cannot be unpacked or are no data change nothing; an ABORT or ERROR empties the channel, sends nothing and is counted once |
| `Assembly.FrameProcSettles` | src/framep.c:48-111 | after every frame an open product is not complete and a closed one has an empty memory file |
| `Assembly.RunSettles` | src/framep.c:194-277 | the same on every channel after every run, so reopening after a close always succeeds |
| `Assembly.StartBalance` | src/framep.c:207-243 | a start balances the counters unless it opens a product numbered 0 |
| `Assembly.UpdateBalance` | src/framep.c:410-477 | a block balances the counters unless it is missed on a channel numbered 0 |
| `Assembly.FinishBalance` | src/framep.c:479-512 | an end balances the counters up to a discarded product and number 0 |
| `Assembly.FrameProcBalance` | src/framep.c:48-111 | over a sound frame, announced minus accounted minus open grows by one exactly when an open product is discarded |
| `Assembly.UnsoundUnbalances` | src/pctl.c:450-471 | for every frame that is not sound there is a settled channel whose counters it upsets |
| `Assembly.BalancedExactlyWhenSound` | src/framep.c:48-111 | a frame balances the counters on all channels and under all conditions if and only if it is sound |
| `Assembly.Conservation` | src/framep.c:48-111 | in every run transmitted = completed + missed + rejected + open channels + products discarded by an ABORT, an ERROR or an END of another number |
| `Assembly.AtMostTwoSends` | src/framep.c:48-111 | one frame adds at most two products to the queue |
| `Provenance.Unaffected` | src/framep.c:48-111 | a frame of another channel or number leaves the account of a product as it is |
| `Provenance.Extended` | src/framep.c:451-477 | storing the next block extends the account by that block: its frame is the next in the list and its bytes the last in the file |
| `Provenance.OpenedWithBlock` | src/framep.c:245-408 | a frame that starts a product and brings block 0 opens its account with that block |
| `Provenance.StageAccount` | src/framep.c:71-98 | after the START and PROGRESS stages an open product still has an account in the frames received |
| `Provenance.FrameSends` | src/framep.c:48-111 | whatever one frame sends is incomplete, or is a product completed by that frame; and the channel, if open, still has its account |
| `Provenance.OpenChannels` | src/framep.c:48-111 | in every run every open channel holds a product built from its own blocks, with no END on the channel since its START |
| `Provenance.LastFrameSends` | src/framep.c:48-111 | in every run, what a frame sends as complete was completed by that very frame |
| `Provenance.CompleteProducts` | src/framep.c:48-111 | in every run over all channels a product sent as complete was announced by one START, holds exactly the blocks 0, 1, 2, ... of its number on its channel with no gap, repeat or mixing and no restart in between, at least as many as announced, and was ended by its own END, the first one on the channel since |
| `Provenance.ChannelLeftAlone` | src/framep.c:48-111 | sync and bad frames, blocks of other numbers and continued STARTs change nothing on a channel with an open product |
| `Provenance.UnderwayBuilt` | src/framep.c:410-477 | while the blocks of one product arrive in order, and nothing ends, restarts or aborts it, its channel holds that product built from just those blocks, whatever else arrives on it and whatever the other channels do |
| `Provenance.WholeTransmissionIsSent` | src/framep.c:479-512 | conversely, the END of a transmission that arrived whole sends it as complete, built from the blocks of this very transmission, whatever else the channels carry and whatever was on its channel before |
| `Provenance.SentExactlyWhenWhole` | src/framep.c:48-111 | a frame sends a complete product if and only if it is the last one of a transmission that arrived whole |
| `Fates.EveryProductHasOneFate` | src/framep.c:48-111 | in every run the products opened are as many as those sent, those still open and those discarded together |
| `Fates.EachStartSentOnce` | src/framep.c:48-111 | in every run every product sent, complete or not, was announced by a START with all its header fields, no two by the same one, and none of those is the START of a product still open |
| `Fates.OwnGivenUp` | src/framep.c:410-512 | a frame sends its channel's product as incomplete if and only if it brings the wrong block of it, or one that cannot be stored, or ends it with blocks missing |
| `Fates.NewGivenUp` | src/framep.c:207-512 | the same of the product that the frame itself announces |
| `Fates.AbandonedIsSent` | src/framep.c:264-277 | in every run a product that is given up, for another START, a gap, a failed write or an early END, is sent by that very frame as incomplete and with its own header, so that its failure gets on record |
| `Fates.IncompleteIsAbandoned` | src/framep.c:264-277 | conversely every product sent as incomplete is one that was given up by the frame that sent it |
| `Fates.CountersCount` | src/stats.c:127-190 | in every run the counters are the numbers of STARTs, of retransmissions, of aborts, of products turned down, of products sent complete, and of those sent incomplete or without a heading |
| `PctlDb.SendOrdered` | src/pctldb.c:270-330 | with seconds that do not go back a new stamp comes after all stamps in the queue in the B-tree's order |
| `PctlDb.FreshSend` | src/pctldb.c:270-330 | under a stamp not yet used a send is a send to one FIFO, counters included |
| `PctlDb.SendStatus` | src/pctldb.c:413-453 | a send is rejected if and only if the queue with it would have more products, or more bytes in units of 1048576, than a hard limit that is not 0; and it warns if and only if it is let in and the soft limits are reached |
| `PctlDb.SendRefines` | src/pctldb.c:270-330 | a send keeps the invariant and is a FIFO send whenever the clock's seconds did not go back |
| `PctlDb.ReceiveRefines` | src/pctldb.c:332-392 | a receive hands out the oldest product with the bytes it was sent with, and nothing only when there is nothing |
| `PctlDb.DrainIsFifo` | src/pctldb.c:332-392 | with keys of their own, receiving until the queue is empty returns all the products, oldest first, with the bytes they were sent with |
| `PctlDb.LastIsLost` | src/pctldb.c:332-392 | a last record that shares its key with an earlier one is lost when its turn comes |
| `PctlDb.FifoIffFreshStamp` | src/pctldb.c:270-330 | receiving until the queue is empty after a send that was let in returns all the products with their own bytes, the new one last, if and only if the stamp of the send was not a key already |
| `PctlDb.LostReceivesDrift` | src/pctlmfdb.c:98-148 | over every run with any receives that run out of memory, mf_total_size is what is stored and, for good, what was lost; the rest of the invariant holds |
| `PctlDb.LostBytesTakeRoom` | src/pctldb.c:413-432 | the bytes lost count against the hard limit: a product is rejected exactly as if they were still stored |
| `PctlDb.ClockBackMixesProducts` | src/pctldb.c:270-330 | a clock that steps back a second and forward again makes the first product come out with the third one's bytes |
| `PctlDb.QueueIsFifo` | src/pctldb.c:270-392 | over every interleaving of sends and receives with memory, the outputs are those of one FIFO of (product, bytes); n is the queue length, mf_total_size the stored bytes, and neither passes a hard limit |
| `PctlDb.Pctldb.constructor` | src/pctldb.c:25-113 | a new queue is empty with zero counters |
| `PctlDb.Pctldb.HardLimitReached` | src/pctldb.c:413-432 | reports the hard limits, the incoming size counted in |
| `PctlDb.Pctldb.SoftLimitReached` | src/pctldb.c:434-453 | reports the soft limits |
| `PctlDb.Pctldb.SendPce` | src/pctldb.c:270-330 | the two stores, the counters and the last stamp change as the send function says, rejections included |
| `PctlDb.Pctldb.RcvPce` | src/pctldb.c:332-392 | the record and its bytes come back in the caller's memory file, enlarged if it was too small; entry and counters go |
| `RtxDb.GenerationsAreHistory` | src/rtxdb.c:113-170 | the current table is the history since the last truncate; both tables are the history since the last but one |
| `RtxDb.LookupIsHistory` | src/rtxdb.c:126-151 | for every run of puts and truncates a lookup finds the latest put of the key with fewer than two truncates since |
| `RtxDb.VisibleForOneTruncate` | src/rtxdb.c:153-170 | a record that is not put again is visible after one truncate and gone after two |
| `RtxDb.RtxDb.PutRecord` | src/rtxdb.c:113-124 | changes the key in the current table and nothing else |
| `RtxDb.RtxDb.GetRecord` | src/rtxdb.c:126-151 | looks in the current table, then in the previous one |
| `RtxDb.RtxDb.TruncateDb` | src/rtxdb.c:153-170 | swaps the tables and empties the one that becomes current, never losing the other |
| `Processor.McatReadsFrames` | src/nbsp.c:561-620 | assembling from the memory file is assembling from the frames it holds |
| `Processor.McatOfFrames` | src/nbsp.c:561-620 | assembly succeeds if and only if each of the first k frames has data and decodes, and its output is then their decoded data in order |
| `Processor.DecodedIs` | src/nbsp.c:585-617 | the decoded data is that of the frames in order, decompressed where the flag is 1 and as it is elsewhere |
| `Processor.StripsCcb` | src/nbsp.c:539-559 | the file holds all the bytes; when there is a CCB to be stripped, those after the first 24, of which there must be one |
| `Processor.SpooledExactlyWhen` | src/nbsp.c:488-559 | an attempt succeeds if and only if the product has data to save (it can be assembled and is longer than a CCB to be stripped) and the file is opened and written whole; it leaves the data at the path exactly then, or when there is nothing to write; an attempt that fails after the open leaves less, and one that fails before it leaves the path alone |
| `Processor.TooShortLeavesEmptyFile` | src/nbsp.c:539-559 | a product to be stripped that is no longer than the CCB is an error and leaves an empty file in place of whatever was at its path |
| `Processor.StepConsistent` | src/nbsp.c:316-452 | one product or truncate keeps the counters in agreement and the database to its two statuses |
| `Processor.CountersOverRuns` | src/stats.c:141-168 | in every run rtx_c = rtx_p + rtx_i and rtx_r <= rtx_p |
| `Processor.AttemptsExactlyWhen` | src/nbsp.c:379-421 | a complete product is tried unless it retransmits one that is on record as received, or, without a database, one that the configuration says to ignore |
| `Processor.RecordedExactlyWhen` | src/nbsp.c:353-443 | the database changes only for names it covers: an incomplete product is recorded as missed; a complete one as received if and only if it was spooled or the one it retransmits was received |
| `Processor.CountedExactlyWhen` | src/stats.c:141-168 | what each product does to each of the four retransmission counters, by what is on record |
| `Processor.RetransmissionIgnored` | src/nbsp.c:316-452 | a complete retransmission of a number seen OK is neither spooled nor exported and is recorded OK itself |
| `Processor.OkLasts` | src/rtxdb.c:113-170 | an OK record stays visible over any events with at most one truncate and no failure of its number |
| `Processor.FailLasts` | src/rtxdb.c:113-170 | a failure stays on record over any events with at most one truncate and no product of its number |
| `Processor.ForgottenAfterTwo` | src/rtxdb.c:153-170 | over any events that do not renew it, a record is gone after the second truncate |
| `Processor.LateRetransmissionIsTried` | src/nbsp.c:407-411 | a retransmission that comes later than that is tried as if the product were new |
| `Processor.MissedIsRecovered` | src/nbsp.c:402-405 | retransmitting a product that was missed is counted as recovered and tried, while the failure is on record |
| `Processor.TriedExactlyWhen` | src/nbsp.c:316-452 | a product is tried if and only if it is complete and not ignored; then files, exports and ring grow together when the attempt succeeds, and only the directory changes, by what the attempt left, when it fails; otherwise nothing changes |
| `Processor.ProcessTouches` | src/nbsp.c:425-451 | the one thing that processing a product may do to the directory is one save, whole or failed, at its own path |
| `Processor.ProcessTracks` | src/nbsp.c:425-451 | the directory stays what the attempts so far make of the one there was at first, and the names entered in the ring those of the files spooled |
| `Processor.ChainIgnored` | src/nbsp.c:392-401 | every chain of retransmissions of retransmissions is ignored link by link, whatever happens in between that keeps the records visible |
| `Processor.SpooledIsRemembered` | src/nbsp.c:438-443 | after a product was spooled, every retransmission of it, and every chain of retransmissions of those, is ignored while the records are visible |
| `Processor.McatOne` | src/nbsp.c:585-617 | one turn of the loop appends the decoded next frame, or says which of the errors it is and appends nothing; it fails for memory only when twice the output is too much |
| `Processor.McatFrames` | src/nbsp.c:561-620 | the loop's status and output are those of the assembly function, the source file unchanged; it does not fail for memory when there is twice the output |
| `Processor.ProductProcessor.PutStatus` | src/nbsp.c:359-360 | records the status only for names the database covers and when it is enabled |
| `Processor.ProductProcessor.GetStatus` | src/nbsp.c:383-386 | 0 received, 1 missed, -1 unknown, -2 no database |
| `Processor.ProductProcessor.UpdateStats` | src/stats.c:141-168 | counts a complete retransmission as ignored or processed, and as recovered when it was missed |
| `Processor.ProductProcessor.SaveMemfile` | src/nbsp.c:539-559 | writes the file without its CCB when asked to; a product no longer than that is an error; what is at the path afterwards, in every outcome of the open and the write, is what the save function says |
| `Processor.ProductProcessor.SpoolMemfile` | src/nbsp.c:488-537 | spools the product's own file, or its frames assembled in the reused output file, and leaves at the path what the spooling function says, residue included |
| `Processor.ProductProcessor.Finish` | src/nbsp.c:425-451 | spools, then enters the name in the ring, records OK and exports; or does none of these and leaves in the directory what the attempt left |
| `Processor.ProductProcessor.Settle` | src/nbsp.c:836-852 | the file and its name are kept, and the file pushed out is deleted if that can be done; or the residue stays |
| `Processor.ProductProcessor.ProcessElement` | src/nbsp.c:316-452 | database, counters, spool directory, ring, files and exports change as the processing function says, in every branch, and 1 is reported exactly when a spooling attempt failed; with memory to assemble it the file is opened and written as its conditions say |
| `Processor.ProductProcessor.TruncateRtx` | src/nbsp.c:631-642 | the periodic truncation ages the database by one generation |
| `Pctl.ActivePce.constructor` | src/pctl.c:413-433 | a new element can be opened |
| `Pctl.ActivePce.OpenPce` | src/pctl.c:450-458 | opens exactly when closed and empty |
| `Pctl.ActivePce.ClosePce` | src/pctl.c:460-471 | number and memory file are reset, nothing else |
| `Pctl.ActivePce.UpdateFrameCounter` | src/pctl.c:322-349 | counts the next block only; 1 for another product, 2 for a gap or repeat |
| `Pctl.ActivePce.CompletePce` | src/pctl.c:351-381 | flags the product only when enough blocks arrived; 1 for another product, 2 when blocks are missing |
| `Pctl.ActivePce.BeginPce` | src/framep.c:279-402 | fills in all header fields, names, filters and the decision to decompress |
| `Pctl.ActivePce.SaveFrame` | src/framep.c:615-673 | the memory file grows by just what the format demands, or is left as the failed write left it; it does not fail when there is memory for twice the result |
| `Pctl.FrameProcessor.SendActive` | src/pctl.c:230-237 | the product is queued as it is |
| `Pctl.FrameProcessor.ReopenActive` | src/framep.c:264-277 | an unfinished product is counted, sent and closed first |
| `Pctl.FrameProcessor.StartPce` | src/framep.c:245-408 | the channel, counters and queue change as the start function says, and its status is returned |
| `Pctl.FrameProcessor.StartActive` | src/framep.c:207-243 | announced products are counted once and as rejected or missed when the start fails |
| `Pctl.FrameProcessor.GiveUp` | src/framep.c:439-446 | the product is counted as missed, sent and closed |
| `Pctl.FrameProcessor.UpdatePce` | src/framep.c:451-477 | the block is counted and stored, or the error says which failed |
| `Pctl.FrameProcessor.UpdateActive` | src/framep.c:410-449 | a failed block gives the product up; a block of no active product changes nothing |
| `Pctl.FrameProcessor.EndActive` | src/framep.c:479-512 | completes and sends, or misses and sends, or just closes, by the number of the END |
| `Pctl.FrameProcessor.SbnFrameProc` | src/framep.c:48-111 | over the array of channels one call is one step of the run the theorems are about, all other channels unchanged; with memory enough the block is stored |
| `Pipeline.FrameStepInv` | src/framep.c:48-111 | a frame keeps the invariant of queue, files and sent products |
| `Pipeline.TakeStepInv` | src/nbsp.c:454-486 | so does taking a product off the queue and processing it |
| `Pipeline.RunInv` | src/nbsp.c:454-486 | in every run everything queued, every file written and every attempt to write one is of a product sent by the readers, and a failed attempt left less than its data |
| `Pipeline.ReadersRun` | src/framep.c:48-111 | in every interleaving the readers' state is that of the run of the frames alone |
| `Pipeline.ProcessorRun` | src/nbsp.c:454-486 | in every interleaving the processor's state is that of a run of the processor, with as many truncates |
| `Pipeline.SpoolOfProduct` | src/nbsp.c:488-620 | what is spooled of a complete product is what its transmission holds: the control header of its first block and its payloads in order, or the decoded data of its first num_fragments blocks, less the CCB; and nothing can be spooled of it exactly when the transmission holds no such data |
| `Pipeline.SentIsFile` | src/nbsp.c:488-620 | the data of every complete product sent in a run is that of one transmission in it, and a part of the data a part of that |
| `Pipeline.RunTracks` | src/nbsp.c:316-452 | in every run the spool directory is what the attempts on record make of the one there was at first |
| `Pipeline.EveryFileIsAProduct` | src/nbsp.c:316-620 | in every run of frames, dequeues and truncates from a new pipeline, with a clock that does not go back, every file in the spool directory is at the path of a complete product; when the latest attempt on that path succeeded it is made of the blocks of the product's transmission and of nothing else, and when it failed it is a proper part of that or empty |
| `Pipeline.SendAllQueues` | src/pctldb.c:270-330 | without hard limits everything a frame sends is queued, in order, bytes included |
| `Pipeline.RunAccounts` | src/nbsp.c:454-486 | in every such run the files written and those still to come from the queue are the files of all products sent |
| `Pipeline.NothingIsLost` | src/nbsp.c:316-486 | from a new pipeline, without hard limits, with a clock that does not go back, writes that succeed and no retransmissions to ignore, the files written and those still to come are in order those of all complete products sent: none lost, none twice |
| `Pipeline.WholeTransmissionBecomesFile` | src/framep.c:48-111 | in such a run a transmission that arrives whole and has data to save is, once the queue is empty, among the files written: the transmission announced and ended by these very frames, with exactly its own blocks |
| `Pipeline.DirectoryStaysSmall` | src/nbsp.c:425-451 | in every run the spool directory has at most a file for each slot of the ring, one for each path of a failed save, and one for each name that could not be deleted |
| `Pipeline.LatestFilesOnDisk` | src/nbsp.c:425-451 | in every run in which no path is spooled twice, the latest files spooled, as many as the ring has slots, are in the directory with all their data, unless an attempt on their path failed |
| `SpoolDb.InsertIsFifo` | src/spooldb.c:49-73 | an insertion pushes out nothing or the oldest name, and adds the new one last |
| `SpoolDb.ReloadKeepsOrder` | src/spooldb.c:75-164 | saving and reloading into an equal or larger ring keeps all names in order |
| `SpoolDb.RestartKeepsNames` | src/nbsp.c:765-812 | a restart with no fewer slots keeps the files and names and gives the ring its new size; with fewer it is refused and nothing changes |
| `SpoolDb.FilesAfterInsert` | src/spooldb.c:49-73 | a directory that holds the files of the ring still does after a save if and only if the name to be pushed out is none, or is neither the new one nor in the ring a second time |
| `SpoolDb.ReusedNameIsDeleted` | src/spooldb.c:49-73 | in every ring whose next slot is in use, of any size, entering the oldest name again deletes the file just written, and the ring lists it as the newest |
| `SpoolDb.RingHoldsLatest` | src/spooldb.c:49-164 | over every run of saves, failed saves and restarts the ring holds the latest names entered, oldest first |
| `SpoolDb.RingIsFull` | src/spooldb.c:49-73 | without a restart it holds as many of them as it has slots, or all |
| `SpoolDb.FilesAreLastAttempts` | src/nbsp.c:539-559 | every file is what the latest attempt on its path left there |
| `SpoolDb.FilesAccountedFor` | src/nbsp.c:425-452 | over every run nothing is in the directory but the files of the ring, what failed saves left and what could not be deleted |
| `SpoolDb.DirectoryBound` | src/nbsp.c:425-452 | so there are never more files than slots, paths of failed saves and names that could not be deleted |
| `SpoolDb.RingFilesAreThere` | src/spooldb.c:49-164 | with names that are not reused the file of every name in the ring is there |
| `SpoolDb.LatestAreThere` | src/spooldb.c:49-73 | without a restart these are the files of the latest names, as many as the ring has slots |
| `SpoolDb.ResidueStays` | src/nbsp.c:425-436 | what a failed save left at a path that is never saved whole stays in the directory for good |
| `SpoolDb.OffsetIsProduct` | src/spooldb.c:49-73 | index = slot * keysize |
| `SpoolDb.OneSlotWritten` | src/spooldb.c:49-73 | writing a name in its slot changes no other slot |
| `SpoolDb.LargerBuffer` | src/spooldb.c:106-164 | the saved keys at the start of a larger blank buffer are the same slots, the rest unused |
| `SpoolDb.SpoolDb.constructor` | src/spooldb.c:15-41 | a new ring is blank and starts at slot 0 |
| `SpoolDb.SpoolDb.InsertKey` | src/spooldb.c:49-73 | the buffer changes as the ring does, and the name of the slot taken is handed out for deletion (empty when it was unused) |
| `SpoolDb.SpoolDb.Write` | src/spooldb.c:75-104 | 0 and a file that holds the ring; or -1 when the file cannot be opened or a write is short, and then the earlier file or one that is not whole |
| `SpoolDb.SpoolDb.Read` | src/spooldb.c:106-164 | restores the saved ring if and only if the file can be read, is whole, and has the same key size and no more slots; otherwise an error |
| `SpoolDb.SpoolDirectory.constructor` | src/nbsp.c:765-794 | an empty directory and a blank ring |
| `SpoolDb.SpoolDirectory.Leave` | src/nbsp.c:539-559 | a failed save changes its own path only, and not the ring |
| `SpoolDb.SpoolDirectory.Keep` | src/nbsp.c:836-852 | the file is there, its name is in the ring, and the file pushed out is gone if it could be deleted |
| `Reconnect.ThreadStepKeepsInv` | src/serverc.c:436-559 | the client threads' steps keep the invariant of all clients |
| `Reconnect.SweepStepKeepsInv` | src/serverm.c:656-691 | so do the steps of the dirty sweep |
| `Reconnect.TableStepKeepsInv` | src/libconnth/poll.c:191-401 | so do accepting, creating, restoring and deleting |
| `Reconnect.RunKeepsInv` | src/serverm.c:570-598 | in every interleaving the invariant holds after every step |
| `Reconnect.HolderIsCurrent` | src/serverc.c:533-559 | in every interleaving a thread holding a live descriptor has connection_status 0 and that same client_fd, and the descriptor is open |
| `Reconnect.HoldersAreApart` | src/libconnth/poll.c:347-401 | no two threads ever hold the same descriptor |
| `Reconnect.ClosesOnlyWhenLetGo` | src/libconnth/conn.c:137-185 | the server closes a client's descriptor only when the thread dropped it, was joined or was never created |
| `Reconnect.NewClientIsServed` | src/serverm.c:570-598 | accepting a new client and creating its thread ends with the thread sending on the descriptor accepted, everything else as it was |
| `Reconnect.WriterLetsGo` | src/serverc.c:453-470 | a thread whose write fails ends up waiting without a descriptor, with the status raised and client_fd dropped |
| `Reconnect.UnlockedLetsGo` | src/serverc.c:453-470 | when it cannot take the lock it lets go too, and what the server sees is unchanged |
| `Reconnect.SweepCloses` | src/serverm.c:656-691 | the sweep closes the descriptor of a connection that is down and takes it off the record |
| `Reconnect.SweepCanBeRepeated` | src/serverm.c:656-691 | a sweep that finds the connection up, or cannot close the descriptor, changes nothing |
| `Reconnect.ClientIsRestored` | src/libconnth/poll.c:347-401 | a client that is down gets the descriptor of its new connection, on record and in its shared fields |
| `Reconnect.WaiterIsServed` | src/serverc.c:533-559 | in every state of the invariant a waiting thread whose status is 0 can take up client_fd and send on it, and it is an open descriptor of its own client |
| `Reconnect.WaiterHoldsNone` | src/serverc.c:533-559 | in every interleaving a thread whose status is raised waits and holds -1, however often it looks |
| `Reconnect.RoundTrip` | src/serverc.c:453-559 | from every reachable state with an idle server and a sending thread, the write can fail, the sweep close the old descriptor, the client reconnect, and the thread send on the new descriptor; nothing else has changed then |
| `Reconnect.ThreadCanExit` | src/serverc.c:453-470 | a thread can exit at any time, without changing what the server sees |
| `Reconnect.DeletedIsGone` | src/libconnth/conn.c:137-185 | deleting a client removes its entry and closes its descriptor, and nothing else |
| `Reconnect.OrphansStay` | src/libconnth/poll.c:347-401 | a descriptor that is open and no longer on record stays so for ever |
| `Reconnect.OrphansExactlyWhenLost` | src/libconnth/poll.c:347-401 | a step loses a descriptor that way if and only if a restore or a delete with a failing close finds the old one still on record |
| `Reconnect.ReconnectCanOvertakeSweep` | src/libconnth/poll.c:347-401 | a run of seven steps in which that happens |
| `ConnTable.FindAfterDelete` | src/libconnth/conn.c:358-375 | a deleted address is found no more |
| `ConnTable.AddNetKeepsInv` | src/libconnth/poll.c:191-289 | accepting a connection, in every branch and with every failure, keeps the client count exact and within its maximum and the addresses apart |
| `ConnTable.LookupWithout` | src/libconnth/conn.c:137-185 | deleting an entry leaves what is found for every other address as it was |
| `ConnTable.AdmittedExactlyWhen` | src/libconnth/poll.c:191-401 | a client that waits to return is let in if and only if its thread can be given the descriptor; any other if and only if its old connection, if it has one, can be deleted, it is allowed, there is a place within the maximum, and there is memory; the status says which |
| `ConnTable.AdmittedIsServed` | src/libconnth/poll.c:191-401 | a client that is let in is in the table with exactly this descriptor and status 0, as it was or as a new one; one that is not let in is as it was or gone; all others are untouched |
| `ConnTable.RunKeepsInv` | src/libconnth/conn.c:94-185 | so does every run of accepts, reconnections, deletions and thread updates |
| `ConnTable.OrderKept` | src/libconnth/conn.c:137-185 | survivors of any operation keep their order, unless one was dropped and entered anew |
| `ConnTable.OrderKeptOverRuns` | src/libconnth/conn.c:94-185 | over every run two clients that stay in the table keep their order, as long as the first is not dropped and entered anew |
| `ConnTable.SweepHalves` | src/serverm.c:636-654 | one sweep that deletes while indexing forward removes stopped network clients only, keeps the order of the rest, and leaves at most half of the stopped ones |
| `ConnTable.KeptBySweep` | src/serverm.c:636-654 | a sweep keeps every entry but network clients whose threads were created and have finished |
| `ConnTable.ClearedOfFinished` | src/serverm.c:636-654 | a table that is cleared has none of those |
| `ConnTable.SweepsClear` | src/serverm.c:636-654 | with no new stops k sweeps clear a table of fewer than 2^k stopped clients |
| `ConnTable.ConnTable.constructor` | src/libconnth/conn.c:24-72 | a new table is empty |
| `ConnTable.ConnTable.Grow` | src/libconnth/conn.c:187-218 | both arrays double, or neither; no entry changes |
| `ConnTable.ConnTable.AddElement` | src/libconnth/conn.c:94-135 | the entry is appended to both arrays and counted, or the table is unchanged |
| `ConnTable.ConnTable.DelElement` | src/libconnth/conn.c:137-185 | entry i goes from both arrays alike, the rest keep pfd and ce together |
| `ConnTable.ConnTable.FindByIp` | src/libconnth/conn.c:358-375 | the first entry with the address, or n |
| `ConnTable.ConnTable.AddConnectionNet` | src/libconnth/poll.c:191-401 | the arrays change as the accept function says: restored in place, refused with the table unchanged when the descriptor cannot be handed over, replaced, appended, or refused |
| `ConnTable.ConnTable.RemoveFinished` | src/serverm.c:636-654 | the loop over the arrays leaves what one sweep leaves |
| `Util.PackedNumbers` | src/util.c:13-63 | packed numbers come back modulo the width of their field |
| `Util.SumAdds` | src/util.c:65-77 | the sum of the bytes counts every byte once |
| `Util.CalcChecksum` | src/util.c:65-77 | the sum of the bytes modulo 2^32 |
| `Util.PackUint32` | src/util.c:28-38 | four bytes are written, big end first, and no others |
| `Util.PackUint16` | src/util.c:55-63 | two bytes are written, big end first, and no others |
| `Nbs1.HeaderReadsBack` | src/nbs1r.c:32-73 | the header fields come back modulo their widths, and the block after them |
| `Nbs1.HeaderLayout` | src/nbs1.h:15-31 | the fields of the data part are where the documented format has them, most significant byte first |
| `Nbs1.EnvelopeLayout` | src/pack.c:15-41 | the envelope holds the kind 1, the size of the data and the sum of its bytes |
| `Nbs1.PacketReadsBack` | src/nbs1r.c:75-168 | a packet at the front of a stream is received whole and nothing after it is touched |
| `Nbs1.ReceivedExactlyWhen` | src/nbs1r.c:75-168 | for any stream: a packet is received if and only if it starts with an envelope of a file packet that is not too large, all its bytes are there and the block size agrees; which bytes then are header, block and rest; and when the status is -3, 1 or 2 |
| `Nbs1.BlockCount` | src/nbs1s.c:187-207 | the number of blocks and the size of the last one are what cutting the file gives |
| `Nbs1.PacketsCover` | src/nbs1s.c:114-160 | the packets of a file are numbered from 1 and their blocks are the file |
| `Nbs1.WireReadsBack` | src/nbs1r.c:75-168 | parsing the bytes of any list of packets gives those packets and ends cleanly |
| `Nbs1.WireAppend` | src/serverc.c:413-429 | sending packets and then more packets puts the one's bytes after the other's on the connection |
| `Nbs1.FilesReadBack` | src/serverc.c:413-429 | parsing the bytes of any list of files gives the packets of each back, numbered 1, 2, ... and with the file in their blocks, the header fields modulo their widths; and the stream ends cleanly |
| `Nbs1.RecvShrinks` | src/nbs1r.c:75-168 | a packet that is received shortens the stream, and its fields are in their ranges |
| `Nbs1.GetNumBlocks` | src/nbs1s.c:187-196 | the blocks the file is cut into |
| `Nbs1.GetLastBlockSize` | src/nbs1s.c:198-207 | the size of the last of them |
| `Nbs1.Writem` | src/nreadn.c:192-208 | exactly how much is written for any sequence of polls and writes, and that it is the next bytes of the data; -1 exactly when an error stopped it |
| `Nbs1.FlowsOut` | src/nreadn.c:192-208 | all of it when every poll finds the connection ready |
| `Nbs1.Sreadm` | src/nreadn.c:141-185 | exactly how much is read for any sequence of polls and reads, and that it is the next bytes of the stream; -1 for an error, -2 for a timeout before anything was read |
| `Nbs1.FlowsIn` | src/nreadn.c:141-185 | all that is wanted, or all there is, when every poll finds the connection ready |
| `Nbs1.RecvNbsPacket` | src/nbs1r.c:75-168 | with short reads of any pattern the result is that of parsing the stream; after an error or timeout it is an error, and what is left is the end of the stream; neither happens when every poll finds the connection ready |
| `Nbs1.BuildHeader` | src/nbs1s.c:209-233 | the 54 header bytes in place, the block after them untouched |
| `Nbs1.PackEnvelope` | src/pack.c:15-41 | the envelope of the data already in place, its checksum included |
| `Nbs1.Nbs1Packet.constructor` | src/nbs1s.c:39-98 | block count and last block size agree with the file |
| `Nbs1.Nbs1Packet.Build` | src/nbs1s.c:114-160 | the next packet is built in the buffer: it and the packets still to come are what was to come before |
| `Nbs1.Nbs1Packet.SendNext` | src/serverc.c:413-429 | the next packet goes out whole, or an error is reported; never one when every poll finds the connection ready |
| `Nbs1.SendFile` | src/serverc.c:363-434 | when the block loop finishes the client has been sent exactly the packets of the file |
| `Nbs1.SendFiles` | src/serverc.c:363-434 | the same for any list of files, one after another, whatever the pieces they are written in; and it finishes when every poll finds the connection ready |
| `SlaveNbs.OneStored` | src/slavenbs/framep.c:197-250 | a block that is not the last is counted and appended, and nothing is sent |
| `SlaveNbs.LastStored` | src/slavenbs/framep.c:252-295 | the block whose number is the count completes, sends and closes the product |
| `SlaveNbs.FileStored` | src/slavenbs/framep.c:34-56 | whatever the state of the reader, the packets of a file whose count is what their headers say become exactly one complete product with its number, channel, names, format and bytes; a product left unfinished is sent first, as it is |
| `SlaveNbs.FilesDelivered` | src/slavenbs/framep.c:34-56 | the packets of any list of files that can be sent become exactly those products, one for each file and in order, and nothing else is sent but the product left unfinished before |
| `SlaveNbs.RunSmall` | src/slavenbs/framep.c:197-250 | no product of the reader ever holds more than 65535 blocks, whatever uncompressed packets arrive |
| `SlaveNbs.FileDeliveredIffCountFits` | src/slavenbs/framep.c:34-56 | with nothing in its way a nonempty file comes out as a product with its bytes if and only if its block count fits the 16-bit field |
| `SlaveNbs.TooLongComesOutShort` | src/slavenbs/framep.c:50-53 | of a longer file, as soon as as many blocks have arrived as the cut count says, they are sent as a complete product that is only the start of it |
| `SlaveNbs.ZeroCountNeverCompletes` | src/slavenbs/framep.c:50-53 | when the cut count is 0, no packets of nonzero sequence numbers ever make a product complete |
| `SlaveNbs.KeptApartExactlyWhen` | src/slavenbs/framep.c:170-182 | the blocks are kept as frames if and only if the file is compressed and its name is one to be saved decompressed |
| `SlaveNbs.BlockIsSaved` | src/slavenbs/framep.c:401-447 | a block is appended as it is, or as one more frame with the flag of its packet |
| `SlaveNbs.StatusExactlyWhen` | src/slavenbs/framep.c:34-56 | when each of the statuses 0, 1, 2 and -1 is returned |
| `SlaveNbs.BalancedExactlyWhenSoundNbs` | src/pctl.c:450-471 | a packet leaves the products of every settled channel balanced if and only if it has a sequence number, opens no product, or is all there is of one |
| `SlaveNbs.NbsConservation` | src/slavenbs/framep.c:34-56 | over every run of such packets the products opened are as many as those sent, the one still open, and those lost: given up for a wrong or unwritten block, ended early, or finished when the file was there already |
| `SlaveNbs.NbsCounts` | src/slavenbs/framep.c:59-295 | what each packet does to the counters: announced and rejected products count first packets, completed and missed ones what was sent and what was given up |
| `SlaveNbs.NbsReader.constructor` | src/pctl.c:413-433 | a new reader has a closed, empty product and has sent nothing |
| `SlaveNbs.NbsReader.StartActive` | src/slavenbs/framep.c:59-195 | a product is opened, or counted as missed or rejected and closed, as the start function says |
| `SlaveNbs.NbsReader.SaveInMemfile` | src/slavenbs/framep.c:401-447 | the memory file grows by the block, or by a frame record of it, or is left as the failed write left it; it does not fail when there is memory for twice the result |
| `SlaveNbs.NbsReader.UpdateActive` | src/slavenbs/framep.c:197-250 | the block is counted and stored, or is of another product, or the product is missed and closed without being sent |
| `SlaveNbs.NbsReader.EndActive` | src/slavenbs/framep.c:252-295 | a complete product is sent unless its file exists by now; the product is closed in any case |
| `SlaveNbs.NbsReader.Proc` | src/slavenbs/framep.c:34-56 | one packet changes product, counters and queue as the packet function says, and its status is returned |
| `SlaveNbs.NbsReader.LoopOnce` | src/slavenbs/reader.c:38-100 | one packet is received in any pieces and processed: 1 when it cannot be received, 2 when it was ignored or could not be written, 0 otherwise |
| `SlaveNbs.NbsReader.Loop` | src/slavenbs/reader.c:38-100 | receiving and processing until the connection ends is processing the packets that parsing the whole stream gives; that happens when every poll finds the connection ready |
| `SlaveNbs.Transfer` | src/slavenbs/reader.c:38-100 | sending any list of files of at most 65535 blocks and reading them at the other end, under any pattern of short writes and reads, gives exactly the products of FilesDelivered; nothing gets in the way when every poll finds the connection ready and there is memory for twice the bytes sent |
| `Basename.NamesReadBackIffNoDot` | src/slavenbs/framep.c:297-389 | a slave finds in a base name the file name, station, id and code that its master made it from, and the path in its own spool, if and only if there is no dot in the AWIPS code |
| `Basename.DotInAwipsIsMisread` | src/slavenbs/framep.c:297-389 | an accepted heading whose base name is misread |
| `Basename.AcceptedUnderItsName` | src/slavenbs/framep.c:139-168 | a product of a master is accepted under its own name and path if and only if the filter lets it pass and it is not rejected as a duplicate |
| `Emwin.HeaderFits` | src/emwin.c:202-227 | the printed header has exactly 80 bytes if and only if both part numbers have at most five digits |
| `Emwin.HeaderReadsBack` | src/emwin.c:202-227 | a header that fits has the upper-case name, the part number, the total, the byte sum and the date in their places, and the numbers read back |
| `Emwin.XorIsComplement` | src/emwin.c:120-129 | XOR with 0xff is the complement |
| `Emwin.FieldsReadBack` | src/emwin.c:88-132 | undoing the XOR gives the header and the padded data |
| `Emwin.PartCount` | src/emwin.c:161-181 | the number of parts and the size of the last one are what cutting the file gives |
| `Emwin.PacketsReadBack` | src/emwin.c:88-132 | undoing the inversion, the data fields of the packets are the parts, padded, and their headers say which part of how many they are, with its checksum |
| `Emwin.FileReadsBack` | src/emwin.c:88-132 | for every file of at most 99999 parts the joined data fields are the file followed by zero padding only, and the headers number the parts 1, 2, ... of their total |
| `Emwin.GetPartsTotal` | src/emwin.c:161-170 | the parts the file is cut into |
| `Emwin.GetLastPartSize` | src/emwin.c:172-181 | the size of the last of them |
| `Emwin.Invert` | src/emwin.c:120-129 | every byte of the packet is inverted in place |
| `Emwin.BuildPacket` | src/emwin.c:88-132 | the packet is complete exactly when its header fits; otherwise 1 |
| `Emwin.EmwinFile.constructor` | src/emwin.c:29-73 | the name is cut to twelve characters; part count and last part size agree with the file |
| `Emwin.EmwinFile.Build` | src/emwin.c:88-132 | the next part of the file, in a packet of its own |
| `Emwin.BuildFile` | src/serverc.c:282-319 | the part loop produces all packets of the file, or stops with 1 when it has more than 99999 parts |
| `Decimal.DecReadsBack` | src/emwin.c:202-227 | a printed number reads back |
| `Decimal.DecLength` | src/emwin.c:202-227 | a number prints in at most k digits if and only if it is below 10^k |
| `Wmo.AcceptedShape` | src/sbn.c:353-513 | every accepted heading has a six-character id, a four-letter station, a six-digit time and at most one code of at most six characters |
| `Wmo.LetterYieldsCode` | src/sbn.c:485-512 | a second line that starts with a letter always gives a code, so the BBB is not copied after it |
| `Wmo.BlanksDecide` | src/sbn.c:422-436 | only first lines with two or three blanks are accepted, and just those with three have a BBB |
| `Wmo.BbbLostExactlyAtEnd` | src/sbn.c:447-452 | a BBB gets lost if and only if the data ends with the first line |
| `Wmo.FirstLineReadsBack` | src/sbn.c:422-436 | the words of a well-formed first line come back, with or without a BBB, whatever follows |
| `Wmo.AwipsHeadingReadsBack` | src/sbn.c:353-513 | a heading with an AWIPS line is read back whole |
| `Wmo.BareHeadingReadsBack` | src/sbn.c:469-483 | a heading without a second line is read back, its BBB as the code |
| `Wmo.TextHeadingReadsBack` | src/sbn.c:485-512 | a second line of other text gives as the code the letters and digits it starts with, at most six |
| `Wmo.ControlHeaderSkipsCcb` | src/sbn.c:390-411 | in a control header the heading starts at the first byte if that is a letter and after 24 bytes otherwise, and needs 21 bytes |
| `Wmo.ControlHeaderReadsBack` | src/sbn.c:353-513 | so a heading is read back from a control header, with and without a CCB in front |
| `Wmo.LoneLineLosesBbb` | src/sbn.c:447-452 | the same heading with nothing after its first line gets no code at all |
| `Wmo.NamesFit` | src/framep.c:514-613 | fname <= 18, fbasename <= 36 and fpath <= const_fpath_maxsize for every accepted heading and number |
| `Wmo.NeverTooLong` | src/framep.c:355-363 | start_activepce never returns 2 or 3 |
| `Wmo.KeyIsTheNumber` | src/nbspmspoolbdb.c:48-70 | the key of every product's path is its sequence number in decimal |
| `Wmo.KeyExactlyWhen` | src/nbspmspoolbdb.c:48-70 | a path has a key if and only if it has an underscore and at most ten characters follow the last one, and the key is those |
| `Wmo.KeysCollide` | src/nbspmspoolbdb.c:48-70 | two products share a key if and only if their numbers agree in 32 bits |
| `Wmo.NamesAreApart` | src/framep.c:514-577 | two products share a base name if and only if heading, time and number agree up to letter case |
| `Wmo.CountCharUpTo` | src/sbn.c:521-542 | counts the character in the first line only |
| `Wmo.ValidateWmo` | src/sbn.c:544-602 | 0 if and only if all lengths and character classes are right |
| `Wmo.SplitWmoHeader` | src/sbn.c:353-513 | status and fields are those of the heading function, for control headers with and without CCB and for product data |
| `Wmo.MakeProductFname` | src/framep.c:514-556 | the lower-case name is in the buffer with its terminator, and every write stays in it |
| `Wmo.GetFpathKey` | src/nbspmspoolbdb.c:48-70 | what follows the last underscore, or 1 when there is none or too much |
| `StrSplit.SegmentsRejoin` | src/strsplit.c:118-133 | the segments hold no delimiter, and with the removed delimiters put back they are the string |
| `StrSplit.SegmentsUnique` | src/strsplit.c:118-133 | any delimiter-free pieces joined by delimiters are split into just those pieces |
| `StrSplit.CountFields` | src/strsplit.c:34-54 | the counting pass counts the fields |
| `StrSplit.Strsep` | src/strsplit.c:126-130 | cuts the first segment off in place, leaving the rest of the text as it was |
| `StrSplit.Splitter.constructor` | src/strsplit.c:84-116 | a copy of the string and an argv of the counted size |
| `StrSplit.Splitter.Step` | src/strsplit.c:126-130 | the next field is entered in argv in range, earlier ones keep their text |
| `StrSplit.Split` | src/strsplit.c:16-67 | for every string but the empty one both passes agree: argv has exactly one entry for each field, in order, each pointing at its text |
| `SlaveTable.EntryReadsBack` | src/slavet.c:62-158 | an entry written in the documented form with any field separators is configured as written, whatever the defaults |
| `SlaveTable.NetEntryReadsBack` | src/slavet.c:62-158 | the short forms of an entry for a network slave are configured as written with the defaults filled in: host alone, host and port, or some options too, the port given or left empty |
| `SlaveTable.FifoEntryReadsBack` | src/slavet.c:160-229 | the same for a fifo with any number of options |
| `SlaveTable.RefusedExactlyWhen` | src/slavet.c:62-229 | an entry is refused if and only if its type, its number of fields, its host or fifo, or its port is wrong |
| `SlaveTable.OverrideOptions` | src/slavet.c:288-331 | each option is its field when that is a number and its default otherwise; no write leaves the five entries |
| `SlaveTable.ConfigureElement` | src/slavet.c:62-229 | accepts and fills in an entry exactly as its fields demand, for fifos and for network slaves |
| `SlaveTable.ChannelsAreApart` | src/slavet.c:454-469 | nbs1 readers get pairwise different channels in table order, none of them a noaaport one |
| `SlaveTable.ChannelsAreOpen` | src/nbsp.c:260-277 | every reader's channel is below the number of channels opened if and only if the master servers mode is on or there is no such reader |
| `SlaveTable.ChannelsAreUsed` | src/nbsp.c:260-277 | every channel opened for readers is the channel of one of them |
| `SlaveTable.OnlyIndexed` | src/slavet.c:454-469 | assigning the indices changes nothing else |
| `SlaveTable.AssignIndices` | src/slavet.c:454-469 | the loop gives each nbs1 reader the count of those before it, past the noaaport channels, and leaves the others alone |
| `SlaveTable.CountSlaves` | src/slavet.c:413-419 | the counting pass counts the nonempty entries |
| `SlaveTable.FillSlaves` | src/slavet.c:431-452 | the filling pass never finds more entries than were counted; it configures them all, in order, or reports one that is not accepted |
| `SlaveTable.CreateTable` | src/slavet.c:380-484 | a table is made if and only if there are entries and all are accepted; "Incorrect allocation" cannot happen; slave k comes from entry k with its channel index |
| `SlaveTable.FifoComesFirst` | src/slave.c:200-253 | the string made for the input fifo mode splits into the fifo and then the master servers |

## Left out

- Sockets, multicast, poll() itself, signals, daemon set-up, pid files and privileges: plumbing.
- Berkeley DB, zlib and the regex library: the stores are maps and sequences, decompression is any partial function, a regex verdict is an input.
- `src/libqdb/qdb.c`, `src/libconnth/cq.c` and `src/nbspq.c`: bounded FIFOs with one store, easier than the queue modelled here.
- Waiting, deadlines and timeouts: an empty queue is answered at once, and a client thread may give up waiting at any step.
- conn_table_destroy() at shutdown: the descriptor properties are about the running server.
- The branch of strsplit_recreate() that reuses an earlier result.
- The mspool and cspool saves of pce_spool_product(): only the file-system spool is modelled.
- The byte fields of `src/packfp.c` and `src/packfpu.c`.
- Reopening the retransmission database or the queue after a restart, and the periodic reset of the counters: one process lifetime, cumulative unbounded counters.
- Frames are given unpacked: the SBN header decoding of `src/sbn.c:30-310` is not modelled, and the payload is what msave_frame() would store, so a negative size does not occur.
- The heading of a frame is an input of `Assembly`; `Wmo.NeverTooLong` connects it to the text of the frame.
- Memory exhaustion where it is not named: the tables of `SlaveTable` and the splitter always get their memory.
- The EMWIN date string is an input of 22 characters; build_header_date() is not modelled.
- A file that shrinks while it is being sent: reads of the spool file give what the size promised.
- strtol() is an input of `SlaveTable`: any function from strings to numbers.
- Assembly.Conservation: takes frames as atomic steps in one order. One reader thread runs for each channel (`src/reader.c:34`), and the counters they share in `src/stats.c` have no lock, so that an increment can be lost; the channels themselves are not shared.
- MFile.MemFile.GetMemframe: requires that what is left is empty or starts with a whole info record whose size is an int, which holds for every file written with WriteMemframe, failed writes included. For other contents, which nbsp does not read, the code looks past the data. The info record is that of a little-endian LP64 host.
- MFile.MemFile.Write: memory is modelled as a limit up to which realloc() succeeds.
- Processor.ProductProcessor.ProcessElement: requires of a product saved frame by frame that its memory file holds frames, which `Provenance.CompleteProducts` proves of complete products, and of its path that it fits a slot of the ring, which `Wmo.NamesFit` proves. The object always has a ring; a configuration without one is a ring without slots in the functions.
- SpoolDb.Apply: what the hourly cron scripts do to the spool directory is not modelled; without a ring nothing is deleted.
- PctlDb.QueueIsFifo: receives have the memory they need; `PctlDb.LostReceivesDrift` says what happens when one has not.
- Nbs1.RecvNbsPacket: sizes are compared in 32 bits as the code does. After an error or a timeout the connection is closed by the caller, and how much of a packet was read by then is not said.
- SlaveNbs.NbsReader.StartActive: the verdicts on the base name are inputs; `Basename.AcceptedUnderItsName` connects them to the name, with the regular expressions and the existing files still given.
- Basename.SplitFbasename: cutting the name up in a local copy with strchr() is modelled on values.
- Pctl.FrameProcessor.SendActive: the queue takes the product; that it may refuse one is in `PctlDb` and `Pipeline`, but not the error the reader then logs. The same holds of SlaveNbs.NbsReader.EndActive.
- SlaveNbs.FilesDelivered: the names are accepted, the files do not exist yet and the memory files take the blocks; what happens otherwise is in the functions it is about.
- Reconnect.HolderIsCurrent: pthread_join() succeeds, and a descriptor number is not reused while it is open.
- SpoolDb.SpoolDb.InsertKey: names are shorter than the key size and hold no terminator, as `Wmo.NamesFit` proves of product paths.
- Wmo.SplitWmoHeader: the end of the frame buffer ends the text for sscanf().
