# The host server's terminal stream, modelled and proved in Dafny

The repository is a host server for shared terminals (Rust, `apps/server`) and a desktop client
(Rust, `apps/desktop-gpui`). This project models the machinery that carries terminal output, and the
state the clients share, as state machines and imperative classes, and proves what they keep over
every run. `dafny verify dfyconfig.toml` checks all of it.

Each component is a specification (functions on values, `Step` and `Run`), the code's own loops and
classes proved equal to it, theorems about every run of the specification, and theorems that say what
each operation does without naming the functions that compute it: over the events of a run, the queues,
lists and records before and after, and sums taken directly.

| component | modules |
|---|---|
| frames on the wire | `Bytes`, `Wire`, `ByteLayout` |
| a connection's mailbox, flow and fences | `Frames`, `Mailbox`, `MailboxLimits`, `Outbound`, `FlowWindow` |
| live delivery from owner to client | `LiveDelivery`, `LiveDeliveryProof`, `LiveDeliveryTheorems`, `LiveDeliveryEffects`, `AttachReplies`, `LiveDeliveryRace` |
| an attach reply and the live output after it | `EndToEnd` |
| durable history: formats, files, crashes | `HistoryCodec`, `ActiveSegment`, `ArchiveDisk`, `ArchiveFiles`, `ArchiveCrash`, `ArchiveQuota`, `ArchiveAppends` |
| durable history: pages | `HistoryPaging`, `HistoryPages` |
| durable history: appends, closes and the owner thread | `HistoryOwner`, `HistoryOwnerProof`, `HistoryAccepts`, `HistoryProgress`, `HistoryOwnerLoop`, `HistoryOwnerRace` |
| the replay ring and checkpoints | `ReplayRing`, `RingContents` |
| leases | `Leases`, `LeasesProof`, `LeasesTheorems`, `LeaseEffects`, `LeaseRegistry` |
| the owner's command batches | `CommandBatch`, `CommandAuthority`, `CommandEffects` |
| escape-sequence scanners | `RequestScanner`, `Osc7Scanner` |
| the workspace catalog | `Catalog`, `CatalogProof`, `CatalogTheorems`, `CatalogListing`, `CatalogEffects`, `CatalogStore` |
| the event history | `EventHub` |
| the pane layout | `Layout`, `LayoutOrder`, `LayoutShape` |

## What the code does not keep

Eight properties one might expect fail. Each has a concrete run or input that shows it, and the exact
condition under which it holds.

- A replay-required notice queued for an earlier attach is not removed by the next one, so it can come
  in front of the new output (`LiveDeliveryRace.StaleNoticeFirst`). The exact shape is `LiveStream`;
  output comes first exactly when no notice was queued as the attach began
  (`AttachReplies.OutputsFirstExactly`).
- When the per-terminal quota applies, block files are removed before the manifest that names them is
  replaced. A process crash in between leaves an archive that cannot be read; a crash anywhere else does
  not (`ArchiveCrash.CrashReadableExactly`). Every run that reaches the quota has such a point, and some
  run reaches it (`ArchiveQuota.QuotaCanLose`, `ArchiveQuota.QuotaIsReached`).
- A reader that loads an archive after the owner has unloaded it for closing and before it is marked
  closed keeps the old flag, and a later record is then added to a closed archive
  (`HistoryOwnerRace.LateReadBreaksClosed`). A closed archive gains a record exactly in a step that finds
  such a copy (`HistoryOwnerProof.ClosedStepChangesExactly`); a closed archive without one never changes
  again (`HistoryOwnerProof.SealedNeverChanges`).
- A request sequence that begins where a colour query's terminator was expected is lost
  (`RequestScanner.InterruptedColourQueryLosesNext`; exactly then, by `EntryEmittedExactly`).
- A working-directory report that begins inside a payload that turns out too long is lost, since the
  prefix counter starts again from nothing (`Osc7Scanner.FullPayloadLosesNext`). The counter is the
  longest match of the whole input exactly when that has not happened
  (`Osc7Scanner.CounterIsWholeMatchExactly`).
- The event window's eviction report is wrong in two ways: it reports eviction when the numbers missing
  were spent on terminal frames and ephemeral events (`EventHub.CautiousEviction`), and it never reports
  it to a client that asks from 0 (`EventHub.EvictionUnreportedFromZero`). It is right exactly otherwise
  (`EventHub.ReportRightExactly`).
- The restored pane layout need not keep the saved order: a pane dropped for its ratio or its split is
  inserted again as if new (`LayoutOrder.BrokenRatioMovesPane`). `LayoutOrder.OrderExactly` says which
  terminals stand left of which, and `LayoutOrder.SavedOrderSurvivesExactly` when that is as saved.
- With an archive, an attach reply is cut to its last 256 KiB, so reply and live output together can have
  a gap after the start point (`ReplayRing.ArchiveCutLosesChunks`); they have none exactly when the reply
  was not cut (`EndToEnd.ReplyThenLiveIsWhole`, `ReplayRing.UncutExactly`).

## Model

| member | source | states |
|---|---|---|
| Wire.DecodeEncoded | apps/server/src/wire.rs:250-266 | For every valid UTF-8 id shorter than 65536 bytes, every u64 sequence and every payload, the client's decoder returns exactly the id, sequence and payload that were encoded. |
| Wire.EncodeDecoded | apps/desktop-gpui/src/client.rs:543-571 | Every version-2 frame the client accepts is one the encoder produces: no other bytes decode. |
| Wire.EncodeTerminalDataFrame | apps/server/src/wire.rs:250-266 | The frame is built field by field and equals the specified layout; an id too long for its length field is refused. |
| ByteLayout.FrameLayout | apps/server/src/wire.rs:250-266 | Place by place: the type byte, both sequences and the id's length as base-256 digits, the id and the payload, each at its own offset, and nothing else. |
| Mailbox.HeadIsOldest | apps/server/src/outbound_mailbox.rs:211-257 | Whatever the three stores hold, the oldest of their heads is the head of the one arrival-ordered queue they represent. |
| Mailbox.OfferIsQueued | apps/server/src/outbound_mailbox.rs:220-238 | What a store offers is in that queue, in that store's lane. |
| Mailbox.OutboundMailbox.EnqueueReliablePriority | apps/server/src/outbound_mailbox.rs:131-144 | Accepted exactly when count and byte limits allow it, it joins the end of the first-in first-out priority lane; rejected, nothing changes. |
| Mailbox.OutboundMailbox.EnqueueReliable | apps/server/src/outbound_mailbox.rs:146-159 | Accepted exactly within the shared reliable limits, it is the newest arrival; rejected, nothing changes. |
| Mailbox.OutboundMailbox.EnqueueLegacy | apps/server/src/outbound_mailbox.rs:161-175 | Accepted exactly within the legacy limits, it is the newest arrival; rejected, no queue changes. |
| Mailbox.OutboundMailbox.EnqueueSemantic | apps/server/src/outbound_mailbox.rs:177-209 | A newer frame for the same terminal takes the old one's place in the arrival order and asks for a resync; a rejected frame changes no queue and asks for one too. |
| MailboxLimits.ReliableExactly | apps/server/src/outbound_mailbox.rs:131-159 | A reliable frame, in either lane, is accepted if and only if the queue with it is within every limit. |
| MailboxLimits.LegacyExactly | apps/server/src/outbound_mailbox.rs:161-175 | A legacy frame is accepted if and only if it names a terminal and the queue with it is within every limit. |
| MailboxLimits.SemanticExactly | apps/server/src/outbound_mailbox.rs:177-209 | A semantic frame is accepted if and only if it names a terminal and the queue with it, in its predecessor's place or at the end, is within every limit; and that is then the queue. |
| Mailbox.OutboundMailbox.PopNext | apps/server/src/outbound_mailbox.rs:211-257 | Hands out the head of the priority lane, else the oldest arrival, and removes only that; the byte counters stay the sums they stand for. |
| Mailbox.OutboundMailbox.DiscardTerminalThrough | apps/server/src/outbound_mailbox.rs:269-283 | Removes exactly one terminal's output up to a sequence; everything else keeps its place and the counters stay exact. |
| Mailbox.OutboundMailbox.PendingFrames | apps/server/src/outbound_mailbox.rs:260-263 | The stores' counts add up to the length of the priority lane and the arrival queue. |
| Mailbox.OutboundMailbox.PendingBytes | apps/server/src/outbound_mailbox.rs:265-267 | The counters add up to the bytes queued. |
| Outbound.AcknowledgeFlow | apps/server/src/connection_outbound.rs:49-59 | The loop leaves the suffix of the sends that `FlowWindow.OutstandingExactly` identifies by the run's events, with the counter their sum. |
| Outbound.ReservedCounted | apps/server/src/connection_outbound.rs:37-47 | Reserving keeps the unacknowledged total equal to the bytes it stands for. |
| FlowWindow.OutstandingExactly | apps/server/src/connection_outbound.rs:37-59 | In every run of protocol 2 and for every terminal attached, the flow lists exactly the chunks reserved since the attach above what is acknowledged, in order, each with its length; the counter is their bytes and within the flow limit; while the connection listens none emitted since the attach is missing. |
| Outbound.ConnectionOutbound.Attach | apps/server/src/connection_outbound.rs:129-139 | Attaching starts a fresh flow at the acknowledged sequence, lifts the replay fence and raises the attach fence, touching nothing else. |
| Outbound.ConnectionOutbound.EnqueueAttachResult | apps/server/src/connection_outbound.rs:157-196 | The reply takes the priority lane, output the snapshot covers is discarded and the attach fence falls, all or, when the mailbox refuses, as the failure path does. |
| Outbound.ConnectionOutbound.EnqueueTerminal | apps/server/src/connection_outbound.rs:278-357 | A chunk is queued, dropped, or replaced by one replay notice exactly as flow, fence and mailbox decide; every counter stays exact. |
| Outbound.ConnectionOutbound.Next | apps/server/src/connection_outbound.rs:242-265 | Nothing is handed out while an attach is in progress; then the mailbox's head, then the close. |
| LiveDeliveryProof.StepKept | apps/server/src/server.rs:645-739 | Every step of owner, socket loop, writer and client keeps, for every terminal, that nothing is missing from what is queued unless a notice says so. |
| LiveDeliveryTheorems.LiveStream | apps/server/src/connection_outbound.rs:129-196 | In every run, an attach reply with snapshot n is followed, up to the next one, by notices left over from before, then chunks n+1, n+2, ... with no gap, repeat or reorder, then at most one notice and nothing after it. |
| AttachReplies.OutputsFirstExactly | apps/server/src/connection_outbound.rs:129-196 | In every run, every attach reply sent answers an attach of the run (its beginning, the owner's answer and the reply are steps of it, with the socket loop busy in between), and the chunks after the reply come first and at most one notice last if and only if no notice of that terminal was queued as the attach began or no more than one thing followed. |
| AttachReplies.ReplyIsAnswer | apps/server/src/server.rs:671-731 | In every run, every successful attach reply carries the number of chunks the owner had emitted at one of the run's snapshot steps, taken while the socket loop was busy with that attach. |
| LiveDeliveryRace.StaleNoticeFirst | apps/server/src/connection_outbound.rs:157-196 | A concrete run, at the smallest flow limit the server accepts and with chunks no longer than the reader's buffer, in which the writer hands out a left-over notice after the new attach's reply and before its output: the reliable lane is not cleared by an attach. |
| LiveDeliveryTheorems.ClientReadsChunks | apps/desktop-gpui/src/client.rs:413-431 | The payloads the client decodes after a reply are, byte for byte, the chunks the owner emitted after the snapshot. |
| LiveDeliveryTheorems.NothingLost | apps/server/src/server.rs:671-731 | Once the queue is drained, an attached terminal's client holds every chunk emitted or has been told to attach again. |
| LiveDeliveryTheorems.CursorIsLast | apps/desktop-gpui/src/client.rs:415-418 | In every run the sequence the client would attach after is the reply's snapshot plus the number of chunks it has decoded since, so attaching again skips and repeats nothing. |
| LiveDeliveryEffects.EmitExactly | apps/server/src/connection_outbound.rs:278-357 | In every run a chunk joins the queue if and only if the connection listens to its terminal, it is within the acknowledgement window and the queue has room (8192 frames, 32 MiB); otherwise delivery of that terminal stops and one notice is queued, or without room for that (256 texts, 2 MiB) the connection closes with 1013. |
| LiveDeliveryEffects.SucceedsExactly | apps/server/src/connection_outbound.rs:157-196 | In every run a successful reply goes ahead of everything but earlier replies, exactly the terminal's output up to the snapshot leaves the queue, and what is delivered stays; or, without room, the connection closes and delivers nothing more. |
| LiveDeliveryEffects.FailsExactly | apps/server/src/server.rs:671-731 | In every run a failed attach is answered the same way, takes nothing out of the queue and ends that terminal's delivery, window and fence alone. |
| LiveDeliveryEffects.AttachAndDetachExactly | apps/server/src/connection_outbound.rs:129-139 | An attach lifts the fence, starts with nothing outstanding and holds the writer back; a detach (lines 198-208) forgets window and fence; both leave the queue and every other terminal alone. |
| LiveDeliveryEffects.SendExactly | apps/server/src/connection_outbound.rs:98-127 | In every run an ordinary message joins the queue if and only if the connection is open and has room; without room it closes. |
| LiveDeliveryEffects.CloseExactly | apps/server/src/connection_outbound.rs:222-240 | The first reason to close is the one kept, leaving ends every subscription, and neither touches what is queued. |
| LiveDeliveryEffects.WriterDrains | apps/server/src/connection_outbound.rs:242-265 | From every state whose writer is not held back, its next turns hand out exactly what is waiting, in order, and nothing else. |
| EndToEnd.ReplyThenLiveIsWhole | apps/server/src/terminal.rs:1561-1611 | For every run, every client that reads an attach reply and what follows, and every owner that had emitted what this one had when it answered: unless the reply is degraded (never when recording), the reply's chunks followed by the live ones are exactly the owner's chunks after the start point, each once and in order, if and only if there is no archive, at most one chunk is owed, or what is owed fits in 256 KiB. |
| HistoryCodec.DecodeEncoded | apps/server/src/terminal_history.rs:1283-1392 | Decoding an encoded block gives its records back. |
| HistoryCodec.EncodeDecoded | apps/server/src/terminal_history.rs:1328-1392 | Whatever decodes is the encoding of what it decodes to: no other byte string is accepted. |
| HistoryCodec.PrefixFree | apps/server/src/terminal_history.rs:1328-1392 | No strict prefix and no strict extension of an encoding decodes. |
| HistoryCodec.EncodeRecords | apps/server/src/terminal_history.rs:1283-1326 | The encoding loop accepts exactly the valid record lists and writes the specified bytes. |
| HistoryCodec.DecodeRecords | apps/server/src/terminal_history.rs:1328-1392 | The cursor loop computes the specified decoding on every byte string. |
| ByteLayout.BlockLayout | apps/server/src/terminal_history.rs:1283-1326 | Place by place: a block's magic, version and count, then each record's sequence, length and payload at the offset the records before it add up to, and nothing else. |
| ActiveSegment.ScanBody | apps/server/src/terminal_history.rs:1206-1274 | Whole records followed by bytes that start none are recovered exactly, with the length they take. |
| ActiveSegment.ScanTorn | apps/server/src/terminal_history.rs:1227-1260 | A record cut short at any byte is not taken for a record. |
| ActiveSegment.ScannedPrefix | apps/server/src/terminal_history.rs:1227-1273 | Truncating where the scan stopped keeps exactly the records it returned. |
| ActiveSegment.ScanActive | apps/server/src/terminal_history.rs:1206-1274 | The recovery loop returns the scanned records above the last block's sequence, and the length to keep. |
| ByteLayout.ActiveLayout | apps/server/src/terminal_history.rs:1189-1197 | Place by place: an active record's sequence, length, checksum and payload, and nothing else. |
| ArchiveFiles.ArchiveFiles.AppendActiveRecord | apps/server/src/terminal_history.rs:1189-1197 | The four writes pass through exactly the disks of the specified append, one per byte. |
| ArchiveFiles.ArchiveFiles.FlushState | apps/server/src/terminal_history.rs:1118-1160 | A flush passes through exactly its six file operations in order, or changes nothing when there is nothing to flush or the block cannot be encoded. |
| ArchiveFiles.ArchiveFiles.EnforceTerminalQuota | apps/server/src/terminal_history.rs:1162-1178 | Oldest blocks are removed while the rest are over 256 MiB and more than one is left, so that `ArchiveQuota.FlushKeepsLongest` says which stay; then the manifest is replaced; every disk on the way is as specified. |
| ArchiveFiles.ArchiveFiles.AppendOwned | apps/server/src/terminal_history.rs:720-762 | An out-of-order record leaves no trace; otherwise the append, and once a block's worth is pending a flush and the quota, and nothing else. |
| ArchiveFiles.ArchiveFiles.Load | apps/server/src/terminal_history.rs:797-826 | Opening creates a missing manifest, writes a missing header or cuts off a torn tail, and loads what the disk holds; a bad header is refused. |
| ArchiveCrash.AppendHolds | apps/server/src/terminal_history.rs:746-756 | While a record is being written the disk still holds the history without it, and after its last byte the history with it. |
| ArchiveCrash.FlushHolds | apps/server/src/terminal_history.rs:1118-1160 | Each disk of a flush holds the same history: the records both in the new block and still in the active segment are counted once. |
| ArchiveCrash.QuotaHolds | apps/server/src/terminal_history.rs:1162-1178 | On every disk, the quota leaves a history that is a suffix of what it was, less exactly the records of the blocks removed; which blocks those are is `ArchiveQuota.FlushKeepsLongest`. |
| ArchiveCrash.OpenHolds | apps/server/src/terminal_history.rs:1206-1274 | Each disk an opening passes through holds the same history, the last agrees with memory, and opening it again does nothing. |
| ArchiveCrash.CrashSafe | apps/server/src/terminal_history.rs:1118-1274 | After any run of appends, flushes, openings and process crashes at any byte or between any two file operations, reopening yields exactly the records whose append completed, once and in order, less what the quota dropped, and reopening again changes nothing. |
| ArchiveCrash.CrashReadableExactly | apps/server/src/terminal_history.rs:1162-1178 | A crash leaves the archive readable if and only if it does not fall between the quota's first file removal and its manifest rename. |
| ArchiveAppends.AppendExactly | apps/server/src/terminal_history.rs:720-756 | After any run an append is accepted if and only if its payload has 1 byte to 64 KiB and its sequence is above the last one ever appended, dropped or not; it has completed exactly when its header and payload are all written; a refused one touches nothing. |
| ArchiveAppends.OpensExactly | apps/server/src/terminal_history.rs:797-826 | After any run opening works, and neither a finished nor an interrupted opening adds to or takes from the history. |
| ArchiveQuota.FlushKeepsLongest | apps/server/src/terminal_history.rs:1118-1178 | After any run a flush keeps exactly the longest end of the blocks, the new one included, that is within 256 MiB, or the last block alone; the history is then exactly those blocks' records; and while they are all within 256 MiB nothing is dropped. |
| ArchiveQuota.WithinQuotaDropsNothing | apps/server/src/terminal_history.rs:1169-1176 | A run each of whose flushes finds its blocks' stored bytes within 256 MiB drops nothing. |
| ArchiveQuota.QuotaCanLose | apps/server/src/terminal_history.rs:1162-1178 | Every run that comes to a flush which drops a block has a crash point inside the window, and a crash there leaves the archive unreadable. |
| ArchiveQuota.QuotaIsReached | apps/server/src/terminal_history.rs:1118-1178 | Some run with no crash in the window comes to such a flush. |
| HistoryPaging.ReadPage | apps/server/src/terminal_history.rs:385-434 | The forward page loop computes the specified page on every snapshot, and fails exactly when a needed block cannot be read. |
| HistoryPaging.ReadPageReverse | apps/server/src/terminal_history.rs:439-507 | The backward page loop, reading blocks only while the page has room, computes the specified page on every snapshot. |
| HistoryPaging.ReadAfterEnough | apps/server/src/terminal_history.rs:401-405 | Skipping the blocks that end at or before the cursor loses no record after it. |
| HistoryPaging.TakeBlocksAll | apps/server/src/terminal_history.rs:470-489 | Reading block by block from the newest takes exactly what one pass over the whole history would. |
| HistoryPaging.PagesAreBounded | apps/server/src/terminal_history.rs:407-434 | Whatever the archive, every page in either direction is within the byte limit or is a single record. |
| HistoryPaging.ForwardReceivesPrefix | apps/server/src/terminal_history.rs:385-434 | Following the cursor forward, even while the history grows and is flushed, what has been received is always its front, once and in order, and all of it exactly when the page says complete. |
| HistoryPaging.ForwardWalkEnds | apps/server/src/terminal_history.rs:385-434 | Over a history that stands still, the forward walk has everything within one request per record and one more. |
| HistoryPaging.BackwardReceivesSuffix | apps/server/src/terminal_history.rs:439-507 | Following the cursor backward and prepending pages, whatever is appended meanwhile, what has been received is always the end of the history the walk started on, and all of it exactly when complete. |
| HistoryPaging.BackwardWalkEnds | apps/server/src/terminal_history.rs:439-507 | The backward walk terminates with exactly that history. |
| HistoryPaging.WalksReturnWhatWasAppended | apps/server/src/terminal_history.rs:385-507 | After any run of appends, flushes, crashes and openings, either walk returns exactly what was appended and not dropped. |
| HistoryPages.ForwardPageExactly | apps/server/src/terminal_history.rs:385-434 | From any cursor a forward page is the records after it from the first on, as many as fit and always one, with their first and last sequence and the cursor to go on from; it is complete if and only if nothing is left; the limit is the one asked for, between 1 and the configured page. |
| HistoryPages.BackwardPageExactly | apps/server/src/terminal_history.rs:439-507 | Below any cursor, or from the newest, a backward page is the records just before it, as many as fit and always one; it is complete if and only if it reaches the first. |
| HistoryOwnerProof.AcceptedIsWrittenOrOnTheWay | apps/server/src/terminal_history.rs:296-344 | In every run, whatever readers do, until a terminal's archive is closed its accepted records are exactly those written followed by those on the way. |
| HistoryAccepts.AcceptExactly | apps/server/src/terminal_history.rs:296-344 | In every state a record is accepted if and only if its producer has none in hand, its payload has 1 byte to 64 KiB, no close is pending and its sequence is above 0 and above the accepted one; then it is the newest on its way and in the log, and no other terminal changes; otherwise nothing does. |
| HistoryAccepts.LogIsWhatWasAdmitted | apps/server/src/terminal_history.rs:309-329 | In every run the log gains a record in exactly such a step, and the accepted sequence it is compared with is the log's last, or, once the archive is closed, at least that. |
| HistoryAccepts.LoadedIsBehind | apps/server/src/terminal_history.rs:797-850 | In every run everything on its way and everything in a loaded archive is at or below the accepted sequence, so none of it is accepted again. |
| HistoryProgress.EverythingCanBeWritten | apps/server/src/terminal_history.rs:693-762 | From every state of every run the producers and the owner can finish alone: every open archive then holds exactly what was accepted for it, nothing is on its way and no byte stays reserved. |
| HistoryProgress.WaitsExactly | apps/server/src/terminal_history.rs:693-705 | In every run a producer waits for room exactly while its record and the bytes not yet written exceed 32 MiB, and for the channel exactly while 1024 records are in it; the owner takes the oldest record exactly when it is neither closing an archive nor still to release one. |
| HistoryProgress.ClosesExactly | apps/server/src/terminal_history.rs:551-578 | A close is queued exactly while fewer than 1024 closes are; otherwise it is given up and appends are accepted again. |
| HistoryOwnerProof.ClosedHasEverythingAccepted | apps/server/src/terminal_history.rs:879-901 | In every run, closing an archive finds every record ever accepted for it written, in order. |
| HistoryOwnerProof.ClosedNeverChanges | apps/server/src/terminal_history.rs:797-850 | A closed archive is the same after every continuation, if no reader loaded that archive between its unloading and its marking. |
| HistoryOwnerProof.SealedNeverChanges | apps/server/src/terminal_history.rs:720-730 | From any state in which an archive is closed and the owner's loaded copy, if any, says so, it is the same after every continuation, whatever readers, producers and closers do. |
| HistoryOwnerProof.ClosedStepChangesExactly | apps/server/src/terminal_history.rs:720-762 | One step changes a closed archive's records if and only if it is the owner's turn at a newer record of that terminal while its loaded copy says open, and then it adds that one record. |
| HistoryOwnerProof.ClosedGainsLateWritesExactly | apps/server/src/terminal_history.rs:720-762 | Between any two states of a run a closed archive gains exactly the records of those steps, in order, and so stays the same if and only if there are none. |
| HistoryOwnerProof.OpenCloseProceedsExactly | apps/server/src/terminal_history.rs:1103-1116 | In every run, a waiting close of an archive still open proceeds if and only if none of its accepted records is on the way. |
| HistoryOwnerProof.ReservedIsUnwritten | apps/server/src/terminal_history.rs:693-718 | In every run the reserved bytes are exactly those of the records reserved and not yet written, and within 32 MiB. |
| HistoryOwnerRace.LateReadBreaksClosed | apps/server/src/terminal_history.rs:797-850 | A concrete run in which a reader loads the archive between its unloading and its marking, and a later record is then added to the closed archive. |
| HistoryOwnerLoop.Owner.FinalizeReady | apps/server/src/terminal_history.rs:1103-1116 | The loop finalizes exactly the closes whose terminal is written far enough and keeps the others in order. |
| HistoryOwnerLoop.PassIsRun | apps/server/src/terminal_history.rs:1103-1116 | Such a pass is a run of the protocol's own steps, so what holds of runs holds across it. |
| HistoryOwnerLoop.Owner.TakeCommand | apps/server/src/terminal_history.rs:1054-1060 | One ingest command is written or refused, and its bytes leave the budget either way. |
| HistoryOwnerLoop.Owner.ReceiveCloses | apps/server/src/terminal_history.rs:1032-1038 | Draining the channel moves every close to the owner's list, in order. |
| ReplayRing.EmitKeeps | apps/server/src/terminal.rs:1764-1821 | With chunks from the reader, each output keeps the ring the last chunks emitted and, when recording, everything after the checkpoint inside it. |
| ReplayRing.AttachIsWhole | apps/server/src/terminal.rs:1561-1611 | In every reachable state an attach is exact or from a checkpoint and never degraded when recording, degraded exactly when something the client lacks was dropped when not, and the chunks chosen are exactly those after the start point, cut to a tail only with an archive. |
| RingContents.StepExactly | apps/server/src/terminal.rs:1764-1850 | In every reachable state output drops as few of the oldest chunks as bring the ring within 2 MiB and the exit within 256 KiB, never the last, and nothing else drops any; when recording, a checkpoint is put after the last chunk exactly by a resize, the exit, and output that is due or brings the bytes since the last one to 512 KiB. |
| RingContents.AttachExactly | apps/server/src/terminal.rs:1561-1598 | In every reachable state and for every cursor: a checkpoint is given if and only if a chunk was dropped and the checkpoint is above the cursor; the replay is reported cut if and only if a chunk above the cursor was dropped; and the chunks sent are all those after the start point the ring still has, or their tail. |
| ReplayRing.TailIsLongest | apps/server/src/terminal.rs:1893-1904 | The tail is the longest suffix within the limit, or the last chunk alone. |
| ReplayRing.UncutExactly | apps/server/src/terminal.rs:1584-1586 | The tail is everything if and only if everything fits in the limit or there is at most one chunk. |
| ReplayRing.ArchiveCutLosesChunks | apps/server/src/terminal.rs:1584-1586 | A concrete run: after five full chunks a client that has nothing is told its replay is exact and is not sent all of it. |
| ReplayRing.BoundedReplayTail | apps/server/src/terminal.rs:1893-1904 | The backward loop computes that tail. |
| ReplayRing.EntryState.ProcessOutput | apps/server/src/terminal.rs:1764-1812 | The new state is the specified one: pushed, trimmed to 2 MiB, counted, and checkpointed when due. |
| ReplayRing.EntryState.ObserveExit | apps/server/src/terminal.rs:1839-1850 | On exit a checkpoint is stored before the ring is trimmed to 256 KiB. |
| ReplayRing.EntryState.Attach | apps/server/src/terminal.rs:1561-1611 | The reply is the specified one for every cursor. |
| LeasesTheorems.SharedWriters | apps/server/src/terminal_control.rs:207-281 | In every reachable state the primary writer is present exactly when there are writers and is one of them, all writers hold the current generation, and each principal and connection holds at most one writer and one observer lease. |
| LeasesTheorems.GenerationsNeverFall | apps/server/src/terminal_control.rs:394-423 | Between any two states of a run, while a terminal stays registered, its epoch stays and its generation never falls: it rises at least by the number of takeovers granted in between. |
| LeasesTheorems.NoLeaseOutlivesTakeover | apps/server/src/terminal_control.rs:394-462 | No lease granted before a takeover or transfer of its terminal authorizes a mutation in any later state of the run. |
| LeasesTheorems.AuthorizedExactly | apps/server/src/terminal_control.rs:464-514 | In every reachable state a mutation is granted if and only if its fence names an unexpired writer of the registered epoch exactly and its command is not among the stored ones. |
| LeasesTheorems.CommandWindow | apps/server/src/terminal_control.rs:501-513 | While a terminal is registered the stored commands are exactly the last 1024 accepted, in order, and any 1025 consecutive accepted ones differ. |
| LeaseEffects.ReleaseConnectionExactly | apps/server/src/terminal_control.rs:343-392 | In every reachable registry, after a connection is released no lease of any terminal is its; every unexpired lease of another connection is still there, unchanged and in order; and if the last writer left and an observer is there, exactly the first of those left succeeds it, as the one writer and primary, in the next generation. |
| LeaseEffects.AcquireExactly | apps/server/src/terminal_control.rs:207-281 | In every reachable registry an acquisition of a known terminal is granted: it prolongs the caller's lease of that mode or issues a new one, as a writer in place of the caller's observer lease; the primary and the generation change only for a first writer; all other live leases stay. |
| LeaseEffects.RenewExactly | apps/server/src/terminal_control.rs:283-312 | Only a live lease's holder renews it, and then only its expiry moves. |
| LeaseEffects.ReleaseExactly | apps/server/src/terminal_control.rs:314-341 | Only its holder releases a lease; then it is gone, every other lease stays in order, and the primary passes to the first writer left. |
| LeaseEffects.TakeoverExactly | apps/server/src/terminal_control.rs:394-423 | A takeover leaves one writer, the caller, with a new lease of the next generation, and every observer but the caller's. |
| LeaseEffects.TransferExactly | apps/server/src/terminal_control.rs:425-462 | Only the live writer's holder hands over, and then the target named is the one writer, with a new lease of the next generation; otherwise nothing but expired leases goes. |
| LeaseEffects.AuthorizeExactly | apps/server/src/terminal_control.rs:464-514 | A granted authorization moves that writer's expiry and stores the command; a refused one only drops expired leases and says why. |
| LeaseEffects.ListExactly | apps/server/src/terminal_control.rs:516-543 | Listing and reading the primary drop expired leases and tell exactly what is left. |
| LeaseEffects.RegisterExactly | apps/server/src/terminal_control.rs:159-195 | A terminal registers once, empty and at generation 0; an empty name or another epoch is refused; nothing else moves. |
| LeaseEffects.UnregisterExactly | apps/server/src/terminal_control.rs:197-205 | A terminal is forgotten exactly when the epoch named, if any, is its own; the others stay. |
| LeaseEffects.UnknownRefused | apps/server/src/terminal_control.rs:566-582 | An operation on an unknown terminal or a stale epoch changes nothing and says which it was. |
| LeasesProof.DisconnectedOk | apps/server/src/terminal_control.rs:343-392 | Releasing a connection, with the promotion of the first observer left, keeps the invariant and never lowers the generation; whose leases go, stay and succeed is `LeaseEffects.ReleaseConnectionExactly`. |
| LeaseRegistry.TerminalControlRegistry.AcquireLease | apps/server/src/terminal_control.rs:207-281 | Purges, renews an existing lease or issues one, as a writer at the cost of the caller's observer lease; unknown terminals and stale epochs change nothing. |
| LeaseRegistry.TerminalControlRegistry.ReleaseLease | apps/server/src/terminal_control.rs:314-341 | Only the holder releases a lease, without a purge, and the primary passes to the first writer left. |
| LeaseRegistry.TerminalControlRegistry.ForceTakeover | apps/server/src/terminal_control.rs:394-423 | All writers and the caller's observer lease are replaced by one new lease of the next generation. |
| LeaseRegistry.TerminalControlRegistry.AuthorizeMutation | apps/server/src/terminal_control.rs:464-514 | The reply and the whole new state are the specified ones on every path. |
| LeaseRegistry.TerminalControlRegistry.ReleaseAll | apps/server/src/terminal_control.rs:343-392 | Every terminal becomes at once what `LeaseEffects.ReleaseConnectionExactly` describes, in whatever order the terminals are visited. |
| CommandBatch.HandleBatch | apps/server/src/terminal.rs:1249-1410 | For every list of commands the batch loop ends in the state, with the answers (exactly one to each command handled) and the decision of one-by-one handling, and the pseudo-terminal sees the same up to joining adjacent writes and keeping the last of adjacent resizes. |
| CommandBatch.HandleWrites | apps/server/src/terminal.rs:1280-1338 | A run of writes authorizes each as `CommandAuthority` describes, joins the granted bytes into one write and answers each command once. |
| CommandBatch.HandleResizes | apps/server/src/terminal.rs:1349-1402 | A run of resizes authorizes each as `CommandAuthority` describes, applies only the last granted size and answers each command once. |
| CommandBatch.BatchWritesTheSameBytes | apps/server/src/terminal.rs:1476-1557 | In particular the batch writes exactly the bytes, in exactly the order, that one-by-one handling writes. |
| CommandBatch.SizeLast | apps/server/src/terminal.rs:1449-1473 | Authorization does not look at the size, and of several sizes only the last is left, with one checkpoint. |
| CommandAuthority.FenceExactly | apps/server/src/terminal.rs:1411-1422 | For every registry an owner reaches: with a fence, authorization is granted if and only if the caller, whoever the fence names, holds an unexpired writer lease of this terminal with the fence's id, generation and epoch and the command is not stored; the lease returned is that one, prolonged. |
| CommandAuthority.UnfencedExactly | apps/server/src/terminal.rs:1423-1440 | Without a fence it is granted if and only if the terminal is registered: the caller's live writer lease as it is, or else a new one of its own. |
| CommandAuthority.GrantedIsCallers | apps/server/src/terminal.rs:1411-1440 | Whatever is granted is a writer lease of the owner's terminal and epoch, in force afterwards, with the caller's principal and connection. |
| CommandAuthority.OnlyTheAllowedWrite | apps/server/src/terminal.rs:1476-1557 | After any commands an owner has handled, the next authorized write, resize or disposal is carried out if and only if it is allowed then; one that is not reaches the pseudo-terminal with nothing and is refused. |
| CommandEffects.PlainExactly | apps/server/src/terminal.rs:1476-1557 | What every other command sends to the pseudo-terminal, answers and leaves: a theme is reported exactly when it changed and reports are on, and an attach is answered with the ring's reply, whether the client has yet to say it is ready, and the size. |
| CommandEffects.OneExactly | apps/server/src/terminal.rs:1449-1473 | The size told and kept is the one in 1 to 1000 closest to the one asked, with a checkpoint, and each command changes only the fields that are its own. |
| CommandEffects.SizeIsTold | apps/server/src/terminal.rs:1449-1473 | After any commands the size kept is the one the pseudo-terminal was last told. |
| CommandEffects.ReadyExactly | apps/server/src/terminal.rs:1613-1620 | After any commands a client counts as ready if and only if the last it said, of those handled, was that it is. |
| RequestScanner.ChunksDoNotMatter | apps/server/src/terminal.rs:2062-2090 | However the stream is cut into chunks the same requests come out. |
| RequestScanner.LeftoverIsStrictPrefix | apps/server/src/terminal.rs:2062-2090 | What is left over is always a suffix of the input and a strict prefix of a table entry. |
| RequestScanner.EmittedIsThere | apps/server/src/terminal.rs:2062-2090 | Every request emitted is that of an entry the bytes read so far end with. |
| RequestScanner.EntryEmittedExactly | apps/server/src/terminal.rs:2074-2087 | Where the input ends with a table entry its request is emitted if and only if the entry did not begin while a colour query was waiting for its terminator. |
| RequestScanner.EntryFromIdle | apps/server/src/terminal.rs:2019-2060 | From idle each of the thirteen entries yields exactly its own request and leaves the scanner idle. |
| RequestScanner.InterruptedColourQueryLosesNext | apps/server/src/terminal.rs:2079-2087 | Whatever came before, an entry that begins where a colour query's terminator was awaited is lost whole: feeding it adds no request. |
| RequestScanner.ColourQueryThenAttributes | apps/server/src/terminal.rs:2079-2087 | A concrete input, a colour query broken off by a device-attributes query, reports nothing at all. |
| RequestScanner.FeedTerminalRequests | apps/server/src/terminal.rs:2062-2090 | The byte loop computes the specified requests and leftover. |
| Osc7Scanner.CounterIsLongestMatch | apps/server/src/terminal.rs:1921-1932 | For every input read from idle, outside a payload the counter is the longest prefix match of what was read since a payload was last left, and a payload begins exactly where that first ends with the prefix. |
| Osc7Scanner.CounterIsWholeMatchExactly | apps/server/src/terminal.rs:1934-1951 | Outside a payload the counter is the longest match of the whole input if and only if leaving the last payload has not cut in two a report begun inside it, which only a payload that was too long can do. |
| Osc7Scanner.FullPayloadLosesNext | apps/server/src/terminal.rs:1944-1951 | After any full payload, a report's prefix leaves the scanner idle: the report is lost. |
| Osc7Scanner.LettersLoseNext | apps/server/src/terminal.rs:1944-1951 | A concrete input: after the prefix and 4096 letters, a following prefix is not recognised. |
| Osc7Scanner.ReportDelivered | apps/server/src/terminal.rs:1934-1951 | A report of at most 4096 bytes with either terminator is delivered whole, once, and leaves the scanner idle. |
| Osc7Scanner.RunConcat | apps/server/src/terminal.rs:1918-1955 | However the input is cut, the same payloads are finished. |
| Osc7Scanner.Scanner.Feed | apps/server/src/terminal.rs:1918-1955 | Feeding a chunk reaches the specified state and returns the last payload that parses. |
| CatalogProof.FocusIsConsistent | apps/server/src/store.rs:469-655 | In every state the catalog reaches: some session is visible; every session has an open tab; every open terminal is in an open tab of its own session; each open tab's active terminal is open and in it; each session's active tab is open and its own; and a session's active terminal is open and inside its active tab. |
| CatalogProof.StepKeeps | apps/server/src/store.rs:705-1101 | Every command, accepted or refused, keeps that. |
| CatalogProof.CloseTabKeeps | apps/server/src/store.rs:1028-1101 | Closing a tab archives its terminals, leaves its session an open tab and moves the focus to one that may have it. |
| CatalogProof.MovePlaced | apps/server/src/store.rs:888-943 | Moving a terminal leaves both tabs' pointers and every session's focus in place. |
| CatalogTheorems.RunAdvances | apps/server/src/store.rs:516-624 | Between any two states of a run no record disappears, and any that differs has a strictly larger revision. |
| CatalogTheorems.FencedUpdatesOnce | apps/server/src/store.rs:793-828 | Of two updates of one terminal fenced by the same expected revision, the second is refused as a conflict once the first has succeeded. |
| CatalogTheorems.FencedLayoutsOnce | apps/server/src/store.rs:581-602 | Of two layout saves fenced by the same expected revision at most one succeeds. |
| CatalogTheorems.SessionsListAsAsked | apps/server/src/store.rs:516-534 | An accepted reorder of the sessions lists them exactly as asked. |
| CatalogTheorems.TabsListAsAsked | apps/server/src/store.rs:604-624 | An accepted reorder of a session's tabs lists them exactly as asked. |
| CatalogTheorems.TerminalsListAsAsked | apps/server/src/store.rs:848-886 | An accepted reorder of a tab's terminals lists them exactly as asked. |
| CatalogEffects.CloseTerminalExactly | apps/server/src/store.rs:945-1026 | A close archives the terminal and, if it is stopped while live, cancels it and takes its replay; its tab lists what it listed without it, in order; a focus on it goes to the first terminal left there, or to none; every other record and list is as it was. |
| CatalogEffects.CloseAgain | apps/server/src/store.rs:945-1026 | Closing a closed terminal changes nothing; closing one that is not there is refused. |
| CatalogEffects.CreateTerminalExactly | apps/server/src/store.rs:728-791 | A terminal is created in the tab named, or the session's active one, if that is open and its own; it takes the list's length for its position, and tab and session focus it; every other record and list is as it was. |
| CatalogEffects.MoveTerminalExactly | apps/server/src/store.rs:888-943 | A terminal moves only to an open tab of its own session: it leaves the one list in order and joins the other, the tab it left shows the first terminal still there if it showed this one, and the focus follows it. |
| CatalogEffects.SelectTerminalExactly | apps/server/src/store.rs:840-846 | Selecting focuses an open terminal of the session, with its tab, or none; all else is as it was. |
| CatalogEffects.UpdateTerminalExactly | apps/server/src/store.rs:793-828 | An update sets exactly the three fields, or, fenced by another revision, is refused as a conflict. |
| CatalogEffects.RenameTerminalExactly | apps/server/src/store.rs:830-838 | A rename sets the title alone, cut to the longest allowed, and keeps it when the new one is empty. |
| CatalogEffects.ReorderTerminalsExactly | apps/server/src/store.rs:848-886 | A reorder is accepted if and only if it names each open terminal of the tab once, and then moves nothing but their positions. |
| CatalogEffects.ReconcileExactly | apps/server/src/store.rs:265-319 | A new epoch disconnects exactly the live terminals, keeps the replays named, and lists them; the same epoch does nothing. |
| CatalogEffects.CreateTabExactly | apps/server/src/store.rs:536-570 | A tab is created in an open session, with the length of its list for its position, and takes the focus only if the session has none. |
| CatalogEffects.RenameTabExactly | apps/server/src/store.rs:572-579 | A rename sets a tab's title alone, cut to the longest allowed. |
| CatalogEffects.SaveTabLayoutExactly | apps/server/src/store.rs:581-602 | A layout is saved if and only if it is within the limit, the tab is open and the revision expected is its own; nothing else changes. |
| CatalogEffects.ReorderTabsExactly | apps/server/src/store.rs:604-624 | A reorder is accepted if and only if it names each open tab of the session once, and then moves nothing but their positions. |
| CatalogEffects.SelectTabExactly | apps/server/src/store.rs:626-655 | Selecting an open tab of the session focuses it and the terminal it shows; selecting none clears both. |
| CatalogEffects.CloseTabExactly | apps/server/src/store.rs:1028-1101 | Closing a tab archives it and exactly its open terminals, stopped where asked; its session's list loses it, or, when it was the last, becomes one new tab; the focus, if it was there, goes to the first tab listed and the terminal that shows. |
| CatalogEffects.CloseTabAgain | apps/server/src/store.rs:1028-1101 | Closing a closed tab changes nothing; closing one that is not there is refused. |
| CatalogEffects.CreateSessionExactly | apps/server/src/store.rs:469-505 | A session is created with one tab it focuses and the list's length for its position; nothing else changes. |
| CatalogEffects.RenameSessionExactly | apps/server/src/store.rs:507-514 | A rename sets a session's title alone. |
| CatalogEffects.ReorderSessionsExactly | apps/server/src/store.rs:516-534 | A reorder is accepted if and only if it names each visible session once, and then moves nothing but their positions. |
| CatalogEffects.ArchiveSessionExactly | apps/server/src/store.rs:705-717 | Archiving takes the session out of the list and leaves all else; if it was the last, one new session with one tab takes its place. |
| CatalogEffects.RestoreSessionExactly | apps/server/src/store.rs:719-726 | Restoring puts a session back in the list by its position and leaves all else. |
| CatalogEffects.RefusedChangesNothing | apps/server/src/store.rs:345-364 | A refused command leaves the state as it was. |
| CatalogListing.ListsAre | apps/server/src/store.rs:1241-1285 | What is listed: exactly the open records of the kind, by position and then by creation. |
| CatalogListing.ListingUnique | apps/server/src/store.rs:1241-1285 | There is only one such listing. |
| CatalogStore.AssertPermutation | apps/server/src/store.rs:1225-1239 | Sorting both lists, removing repeats from the request alone and comparing lengths and lists accepts exactly the lists that name each current record once. |
| CatalogStore.CloseWholeTab | apps/server/src/store.rs:1028-1101 | The edits, in the code's order, give the specified outcome, refusals included. |
| CatalogStore.MoveOneTerminal | apps/server/src/store.rs:888-943 | The edits, in the code's order, give the specified outcome, refusals included. |
| CatalogStore.StateStore.Mutate | apps/server/src/store.rs:345-364 | A command's new state, which the theorems of `CatalogEffects` describe record by record and list by list, replaces the old one whole, or, when it cannot be stored, nothing has happened. |
| EventHub.WindowCompleteExactly | apps/server/src/event_hub.rs:222-248 | For every run of emits and every cursor the window's events are exactly all non-ephemeral events after it, in order, if and only if none after it has been dropped; and both limits hold. |
| EventHub.NotEvictedIsComplete | apps/server/src/event_hub.rs:235-241 | When a client that has seen something is not told of eviction, its window is complete. |
| EventHub.FalseAlarmExactly | apps/server/src/event_hub.rs:235-241 | For every run and cursor, a complete window is reported as evicted if and only if the cursor is not 0, nothing after it was dropped, and the oldest event kept is not the next number; then every number in between was spent on a terminal frame or an ephemeral event. |
| EventHub.ReportRightExactly | apps/server/src/event_hub.rs:235-241 | For every run and cursor, eviction is reported exactly when the window is incomplete, if and only if there is no such false alarm and, for a cursor of 0, nothing has been dropped. |
| EventHub.HistoryIsLongest | apps/server/src/event_hub.rs:91-133 | For every run the history is exactly the longest run of the newest kept events that both limits allow: an event is dropped only when it and all after it no longer fit. |
| EventHub.WindowExactly | apps/server/src/event_hub.rs:222-248 | For every run and cursor the window's events, floor, last sequence and report of eviction are exactly those this history gives. |
| EventHub.EvictionUnreportedFromZero | apps/server/src/event_hub.rs:238-241 | A concrete run in which a client that asks from 0 gets an incomplete window and is not told. |
| EventHub.CautiousEviction | apps/server/src/event_hub.rs:235-241 | A concrete run in which eviction is reported although nothing was dropped, because terminal frames take sequence numbers. |
| EventHub.Hub.EmitEvent | apps/server/src/event_hub.rs:91-133 | The event takes the next sequence and, unless ephemeral, the end of a history trimmed from the front to both limits. |
| EventHub.Hub.ReplayWindow | apps/server/src/event_hub.rs:222-248 | The answer is the specified window on every state. |
| Layout.RestoredShowsLive | apps/desktop-gpui/src/model.rs:179-220 | For every saved layout and live list the restored tree shows exactly the live terminals, those the repaired layout lacked exactly once, those it had as often and in the same left-to-right order, and every split has at least two children with positive ratios. |
| LayoutOrder.KeptInOrder | apps/desktop-gpui/src/model.rs:140-175 | For every saved tree, the repaired layout shows a subsequence of its live panes from left to right. |
| LayoutOrder.KeptWholeExactly | apps/desktop-gpui/src/model.rs:140-175 | It shows all of them, in order, if and only if no live pane lies under a rejected split or beside an unusable ratio. |
| LayoutOrder.OrderExactly | apps/desktop-gpui/src/model.rs:179-233 | For every saved layout, live list and two live terminals, which is shown left of the other in the restored layout is decided exactly by the repaired panes, the empty ones among them, and the order listed. |
| LayoutOrder.SavedOrderSurvivesExactly | apps/desktop-gpui/src/model.rs:179-233 | The restored layout keeps the left-to-right order of all saved live terminals if and only if that decision agrees with it for every two of them. |
| LayoutOrder.LosslessOrderSurvives | apps/desktop-gpui/src/model.rs:140-195 | It always does where nothing live was dropped. |
| LayoutOrder.BrokenRatioMovesPane | apps/desktop-gpui/src/model.rs:164-172 | A concrete layout: three panes in a row, the first with a ratio that is not finite, come back with the first one last. |
| Layout.WellFormedKept | apps/desktop-gpui/src/model.rs:140-175 | A saved layout whose splits are all well formed is kept pane for pane, dead terminals becoming empty panes. |
| Layout.IntoLayoutProper | apps/desktop-gpui/src/model.rs:140-175 | Whatever is saved, what is kept of it is proper and shows only live terminals. |
| Layout.FillsFirst | apps/desktop-gpui/src/model.rs:222-233 | Filling replaces exactly the leftmost empty pane, and fails exactly when there is none. |
| Layout.FillFirstEmpty | apps/desktop-gpui/src/model.rs:222-233 | The search over the children computes that tree. |
| Layout.CollectTerminalIds | apps/desktop-gpui/src/model.rs:197-209 | The walk collects exactly the terminals shown. |
| Layout.Restore | apps/desktop-gpui/src/model.rs:180-195 | The insertion loop computes the specified restored tree. |
| LayoutShape.RestoredPanes | apps/desktop-gpui/src/model.rs:140-233 | For every saved layout and live list, pane by pane: what was saved and usable sits in the same splits, directions and ratios as saved, all of it if the layout was well formed; each live terminal it lacks is then added in turn, in the leftmost empty pane where that is, or half and half to the right of everything. |

## Left out

- Network, HTTP, WebSocket, JSON and SQLite plumbing, the runtime's dispatch and the PTY, process, vt100 and rendering code: glue, foreign calls or opaque libraries. Only a checkpoint's sequence is kept; JSON sizes are arguments.
- Counters that saturate at the largest u64 in the code (mailbox order, event sequence, lease generation, revisions) are unbounded here; terminal sequences in stored records and on the wire are u64.
- The hub's weak pointers: a subscriber that has gone away is modelled as one that has detached.
- Serialization failures of replies and notices (close code 1011): the model's messages always serialize.
- Gzip is the identity, and a rename and the eight-byte header write are atomic. A crash is a process crash: completed writes survive, and only the append being written can be torn, at any byte. Writes that fail without a crash are not modelled.
- Records dropped by the seven-day expiry, the total quota over all archives, quarantine of unreadable manifests, idle trimming of staging buffers and deletion of a terminal's history: filesystem policy.
- Barrier, snapshot and shutdown commands to the history owner only repeat steps the protocol already has.
- HistoryOwnerProof.ClosedNeverChanges: for archives no reader loads between their unloading and their marking; what happens to the others is `ClosedGainsLateWritesExactly`, and a run with one is `HistoryOwnerRace.LateReadBreaksClosed`.
- That every close of a terminal is eventually finalized is not claimed: a second close of an archive that has been unloaded waits until something loads it.
- ArchiveCrash.CrashSafe: for runs without a crash inside the quota's window, the exact exception given by `CrashReadableExactly`.
- LiveDeliveryTheorems.NothingLost: terminal ids are shorter than 65536 bytes, as a longer one cannot be put in a frame; the owner emits consecutive sequences and its snapshot is taken after the subscription.
- ReplayRing.AttachIsWhole: states the chunks before and after the archive's 256 KiB tail cut; the cut output is gap-free after the start point exactly as `EndToEnd.ReplyThenLiveIsWhole` says.
- The sum of an attach cursor and one is not wrapped at 64 bits.
- The checkpoint interval's clock is an argument of each output (`due`), and each batched command carries the clock readings its authorization makes.
- Failures of pseudo-terminal writes and resizes, and the commands that only read fixed data (inspect, working directory), are not part of the batch model.
- The lease counter stands for UUIDs; release of a connection gives the terminals it promotes in the same serial, made unique by the terminal in the id.
- Timestamps of catalog records, the machine name and the restart metadata other than the epoch; titles arrive trimmed; a terminal's output is reduced to whether it can be replayed.
- Catalog record lists are kept as an order of creation and a map by id, since ids are unique; `archive_tab` and `archive_terminal`, which the runtime does not call, are left out.
- Commands of the catalog that set the fields of single records are functions; those with loops or several edits have a method of their own, proved equal to a function.
- The layout tree is a value rebuilt along the path to the changed pane; ratios are real numbers or not finite.
- The path inside a working-directory report (scheme, percent decoding) is a parameter of the scanner.
- Library sorting and removal of equal neighbours are functions; the catalog's ids are numbers, so an order is compared as numbers and not as text.
- Attach replies carry, as an annotation no message has, how many notices were queued when the attach began; `AttachReplies.ReplyIsAnswer` says that it is that number.
