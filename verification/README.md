# NVMe host driver: a verified model

A Dafny model of the NVMe host driver of this repository
(`shell/nvme-of_setup/nvme-modified/host`) and proofs about its protocols and
data structures. Each module covers one of them:

- `TcpRecv`, `TcpStream`, `TcpPlacement`, `TcpDigest`: the NVMe/TCP receiver. The specification is an automaton
  that takes single bytes; the driver's buffer-at-a-time code is proved to compute
  it, and it is proved to invert the encoding of PDUs (section 7.4 of NVMe over
  Fabrics 1.1) but for the data offset, which the host does not look at. The digest is any function of the bytes.
- `TcpSend`, `TcpAnswer`: the NVMe/TCP sender against a socket that takes any part of what it is
  offered, with R2T flow control.
- `Prp`: PRP lists, what a controller reads out of them (section 4.3 of NVM Express
  1.4), and their teardown.
- `CompletionRing`, `SubmissionRing`, `Doorbell`: the PCIe queues with phase tags
  (section 4.6 of NVM Express 1.4), the batched tail doorbell, and shadow doorbells
  (section 7.13 of NVM Express 1.3). The device is a process of its own, whose steps
  come between any of the driver's.
- `PathChoice`, `BioFlow`: multipath path selection, failover and requeueing.
- `FcAbort`: the teardown of an FC association, where aborts race with completions.
- `NsScan`: the namespace scan.
- `RdmaCompletion`: the completions and memory regions of RDMA requests.
- `Reconnect`, `Controller`: the reconnect loop and the controller states.
- `QueueSetup`: sharing out I/O queues and interrupt vectors.
- `Arith`, `Options`, `Seqs`, `Wire`: shared definitions.

Code that changes state in place is a class whose methods have the driver's
branches; a method's contract equates the new state with a function of the old one,
and lemmas prove what that function means over all inputs and runs. Concurrent code
is cut at the points where another thread or the device can come in; a run is any
sequence of the resulting steps.

Where the code falls short of what it is for, the model keeps the code, and a lemma
gives the exact condition under which it does what it should:

- `TcpStream.InertExact`, `CutsAfterError`, with `RefusedHeaderWrites`: the receiver goes on after an error.
- `TcpStream.StreamMeaning` with `EmptySuccessWaits`: an empty data PDU waits for the byte after it.
- `TcpPlacement.TransferExact` with `WrongPlace`: the offset a data PDU announces is not looked at.
- `TcpDigest.HdgstContained`: a header length that points behind the PDU buffer.
- `TcpSend.DdgstExact`: a digest sent in parts. `TcpSend.GiveUpExact`, `GivenUpStream`: a PDU given up half sent.
- `TcpAnswer.R2tAnswered`, `AnswerEnds`: an R2T that skips data, and one that asks for none.
- `CompletionRing.RunExact` with `DoorbellNotEnough` and `TagsNotEnoughForTwo`: completions are read after the doorbell is rung.
- `Prp.PointersFit`: room for the pointers to list pages. `Prp.NpagesBound` is about a formula whose result is not used.
- `NsScan.FallbackExact` with `FailedListScan`: the fallback after a failed list scan.
- `NsScan.SortExact` with `SortMisorders`: ids far apart.
- `RdmaCompletion.CompletionMeaning` with `WrongKeyLeft`: a wrong remote invalidation.
- `Reconnect.AttemptsExact` with `GivenUpNever`: an attempt torn down without an error. `Reconnect.InTimeExact`: very long delays.

## Model

| member | source | states |
|---|---|---|
| `TcpRecv.RecvQueue.RecvSkb` | shell/nvme-of_setup/nvme-modified/host/tcp.c:750-781 | For every buffer and every state of the queue, one left by an error included, the buffer-at-a-time loop ends, and leaves the queue where the byte-at-a-time automaton `Run`, set going again from the same fields, is after the same bytes: same PDU in assembly, same bytes left of each stage, same request memory, same hash, same events, same error. An error clears rd_enabled, and nothing sets it again. |
| `TcpRecv.RecvQueue.RecvPdu` | shell/nvme-of_setup/nvme-modified/host/tcp.c:576-624 | The header stage takes at most what is left of the header and, when it is whole, handles it: unknown types, digests missing or wrong, and header lengths end in the errors of the automaton. |
| `TcpRecv.RecvQueue.RecvData` | shell/nvme-of_setup/nvme-modified/host/tcp.c:633-709 | The data stage fills the bios in order, moves on past full bios, and is refused with -EIO when no bio is left, in agreement with single bytes, whatever its fields hold. |
| `TcpRecv.RecvQueue.RecvDdgst` | shell/nvme-of_setup/nvme-modified/host/tcp.c:711-748 | The digest stage takes the four bytes in any pieces and goes on as the automaton does; what that comes to is `DigestExact`. |
| `TcpStream.DigestExact` | shell/nvme-of_setup/nvme-modified/host/tcp.c:711-748 | For an accepted data PDU that fits and any four bytes behind its data: it ends in -EIO, its request not ended, if and only if these are not the digest of the data; else the request is ended exactly with SUCCESS. |
| `TcpRecv.RecvQueue.CallHandleC2HData` | shell/nvme-of_setup/nvme-modified/host/tcp.c:446-478 | C2HData for an unknown tag is -ENOENT, for a request without payload -EIO, SUCCESS without LAST a protocol error; otherwise data is due as announced. |
| `TcpRecv.RecvQueue.CallHandleComp` | shell/nvme-of_setup/nvme-modified/host/tcp.c:480-500 | A response completes its command, or is an asynchronous event on the admin queue; an unknown tag is -EINVAL. |
| `TcpRecv.RunConcat` | shell/nvme-of_setup/nvme-modified/host/tcp.c:750-781 | Running the automaton on a concatenation is running it on the parts in turn, from any state. |
| `TcpStream.ChunkIndependence` | shell/nvme-of_setup/nvme-modified/host/tcp.c:750-781 | Two ways of cutting the same stream into socket buffers, with requests queued between the same bytes, lead to the same state, memory and events when the first error comes, and to the same state if none does. |
| `TcpStream.InertExact` | shell/nvme-of_setup/nvme-modified/host/tcp.c:633-645 | A state in which nothing that may still come in has any effect is exactly one in which data is due for a tag not in use; the driver does not stop at an error otherwise, since only the data-ready callback looks at rd_enabled. |
| `TcpStream.CutsAfterError` | shell/nvme-of_setup/nvme-modified/host/tcp.c:773-776 | So a cut behind the byte an error is found at makes no difference, for whatever follows, if and only if the error left such an inert state. |
| `TcpStream.AfterRefusal` | shell/nvme-of_setup/nvme-modified/host/tcp.c:576-624 | Where a PDU refused upon its header leaves the queue: a response or an R2T at the next header; any other in the data stage, with what it announced still due exactly if only its flags were at odds. |
| `TcpStream.RefusedHeaderWrites` | shell/nvme-of_setup/nvme-modified/host/tcp.c:576-606 | For every header refused for its digest: the byte after it, handed over in another buffer, is put into the memory of the request the refused header names. |
| `TcpDigest.HdgstContained` | shell/nvme-of_setup/nvme-modified/host/tcp.c:293-329 | Checking a header's digest leaves everything behind the PDU buffer alone, and gives a verdict of the header alone, whatever lies behind, if and only if the digest goes inside the buffer and the word compared lies inside too or differs inside; the place is taken from the header length, which is not compared with the size of the buffer. |
| `TcpStream.OnePdu` | shell/nvme-of_setup/nvme-modified/host/tcp.c:576-748 | One encoded PDU, of any type, flags, lengths and digests, right or wrong, arriving at a boundary, has exactly the effect of delivering it whole to flat per-request buffers, in full or up to the error it deserves, unless it is accepted data of no bytes without a data digest: that one takes effect with the byte after it, which is to be seen exactly if it says SUCCESS. |
| `TcpStream.StreamMeaning` | shell/nvme-of_setup/nvme-modified/host/tcp.c:576-781 | For every list of PDUs, of any types, flags, digests and announced offsets, right or wrong, the receiver fed their encoding delivers them in order, every byte at the next free position of its request, up to the first refused PDU, which ends in the error its header, tag, data or digest deserve: but for the offset, decoding inverts encoding. The state reached is the settled one, at a boundary, if and only if the list does not end in accepted data of no bytes without a data digest; the view of it is that of the delivery if and only if it does not end in such a PDU with SUCCESS. |
| `TcpPlacement.TransferExact` | shell/nvme-of_setup/nvme-modified/host/tcp.c:446-478 | However a controller cuts a transfer into data PDUs that fit: the memory of the request ends up as the announced offsets have it, whatever the data, if and only if each PDU with data announces the place where the data before it ended. The host accepts the others all the same. |
| `TcpPlacement.OffsetIgnored` | shell/nvme-of_setup/nvme-modified/host/tcp.c:446-478 | Whatever offsets they announce, PDUs that fit are accepted and their data stored one after another from the fill position on. |
| `TcpPlacement.OnePieceExact` | shell/nvme-of_setup/nvme-modified/host/tcp.c:446-478 | Non-empty data that are accepted and fit land at their announced offset, whatever they are, if and only if it is the fill position of the request when they arrive. |
| `TcpPlacement.WrongPlace` | shell/nvme-of_setup/nvme-modified/host/tcp.c:446-478 | A PDU announcing place 1 of two is accepted and its byte stored at place 0. |
| `TcpStream.EmptySuccessWaits` | shell/nvme-of_setup/nvme-modified/host/tcp.c:757-763 | A SUCCESS told by an empty last data PDU does not end its request until another byte arrives. |
| `TcpStream.PutAllFills` | shell/nvme-of_setup/nvme-modified/host/tcp.c:633-709 | Data spread over bios lands at consecutive positions of the request memory seen as one buffer, for any segmentation. |
| `TcpSend.AdvanceReqMoves` | shell/nvme-of_setup/nvme-modified/host/tcp.c:237-248 | Advancing by any number of bytes of the current segment list moves the iterator to the data position that far on, across segments and bios; what was passed over are the data bytes there. |
| `TcpSend.SendQueue.QueueRq` | shell/nvme-of_setup/nvme-modified/host/tcp.c:2102-2176 | Queues a command PDU with the data inline exactly when a write fits the capsule, behind the PDUs queued before. |
| `TcpSend.CmdReads` | shell/nvme-of_setup/nvme-modified/host/tcp.c:2102-2152 | A peer reads off a command PDU its type, length and digests, and its inline data, by the flags, the header length and the data offset in it. |
| `TcpSend.SendQueue.HandleR2t` | shell/nvme-of_setup/nvme-modified/host/tcp.c:548-574 | Unknown tag: -ENOENT. Refused with -EPROTO exactly when the transfer would pass the end of the data or starts before the bytes sent; then nothing is queued. Else one H2CData PDU is queued whose offset is the number of bytes sent and whose body is the data from there, R2Ts for no data or of a read included; the queue invariant is kept for data of a write. |
| `TcpSend.DataReads` | shell/nvme-of_setup/nvme-modified/host/tcp.c:502-546 | The same for an H2CData PDU, which says that it is the last one. |
| `TcpAnswer.R2tAnswered` | shell/nvme-of_setup/nvme-modified/host/tcp.c:502-546 | Whatever the data, the body of the answer is the slice the R2T names if and only if its offset is the number of bytes sent; a larger offset is accepted all the same. |
| `TcpAnswer.AnswerEnds` | shell/nvme-of_setup/nvme-modified/host/tcp.c:846-892 | The answer to an accepted R2T for a write can come to its end, for some behaviour of the socket, if and only if the R2T asks for at least a byte; one that asks for none stays current, and no other PDU is sent. |
| `TcpSend.SendQueue.TrySendCmdPdu` | shell/nvme-of_setup/nvme-modified/host/tcp.c:894-927 | Whatever part the socket takes, the wire grows by just that part of header and header digest, and the request moves on to its inline data or is done. |
| `TcpSend.SendQueue.TrySendDataPdu` | shell/nvme-of_setup/nvme-modified/host/tcp.c:929-958 | The same for the header of an H2CData PDU, which always goes on to data; the request is as `OneCall` has it after that many bytes. |
| `TcpSend.SendQueue.SendSegment` | shell/nvme-of_setup/nvme-modified/host/tcp.c:849-890 | One piece of a segment, as much as the socket takes: the iterator and the digest follow just the bytes taken; the last piece goes on to the digest or ends the PDU. |
| `TcpSend.SendQueue.TrySendData` | shell/nvme-of_setup/nvme-modified/host/tcp.c:846-892 | The data loop ends, and sends the PDU body byte for byte; with digests it goes on to a digest over exactly those bytes. |
| `TcpSend.SendQueue.TrySendDdgst` | shell/nvme-of_setup/nvme-modified/host/tcp.c:960-981 | Whatever part the socket takes, that part of what is offered goes out; taken whole the digest completes the PDU; taken in part the wire is still a prefix of the queued PDUs, and the next call offers what lies that many words, not bytes, further on. |
| `TcpSend.DdgstExact` | shell/nvme-of_setup/nvme-modified/host/tcp.c:965-968 | Over all its calls the bytes sent are the digest, whatever it is and whatever lies behind it, if and only if the first call that takes anything takes all four bytes. |
| `TcpSend.SendQueue.TrySend` | shell/nvme-of_setup/nvme-modified/host/tcp.c:983-1021 | Keeps the queue invariant for every behaviour of the socket but that of taking a digest in part, up to which the wire is exact; a positive result is exactly one more whole PDU on the wire; while PDUs are queued, a socket ready to take anything gets bytes; an empty queue sends nothing. When the last call of the socket took nothing, its answer is the result, but for -EAGAIN, which is 0; without a whole PDU the request stays current. |
| `TcpSend.SendQueue.IoWorkSend` | shell/nvme-of_setup/nvme-modified/host/tcp.c:1049-1065 | A negative result is the last answer of the socket, and comes exactly when that was an error other than -EAGAIN while a PDU was queued; then the current request is given up, and the queue is a proper one again if and only if the wire then ends with the last finished PDU. |
| `TcpSend.GiveUpExact` | shell/nvme-of_setup/nvme-modified/host/tcp.c:1052-1064 | That is so if and only if no byte of the PDU given up had been taken. |
| `TcpSend.GivenUpStream` | shell/nvme-of_setup/nvme-modified/host/tcp.c:1052-1064 | Whatever PDUs follow, a peer that cuts the stream by the announced lengths sees these and the finished ones, and nothing else, if and only if no byte of the one given up had been taken. |
| `TcpSend.Queue.StreamMeaning` | shell/nvme-of_setup/nvme-modified/host/tcp.c:250-274 | In every valid state the wire is a prefix of the queued PDUs concatenated in queueing order, and a peer that cuts it by the announced lengths sees exactly the finished PDUs; when the queue is idle, all of them. |
| `TcpSend.FramesOfPdus` | shell/nvme-of_setup/nvme-modified/host/tcp.c:846-1021 | Cutting a concatenation of PDUs, and part of one more, by their length fields gives back the PDUs. |
| `TcpSend.SendQueue.TransferMeaning` | shell/nvme-of_setup/nvme-modified/host/tcp.c:502-574 | For each request the transfers so far carry a prefix of its data, each byte once, never past its length; at rest the prefix is what data_sent counts. |
| `TcpSend.TransfersCarryPrefix` | shell/nvme-of_setup/nvme-modified/host/tcp.c:502-574 | Transfers that follow one another without gap concatenate to a prefix of the data. |
| `Prp.Iod.SetupPrps` | shell/nvme-of_setup/nvme-modified/host/pci.c:585-676 | Unless a pool refuses, a transfer of more than two pages is accepted if and only if its segments end on pages as `AcceptedExact` has it, a shorter one always. For a scatterlist conforming to the page boundary, the controller reading prp1, prp2 and the chained pages (section 4.3 of NVM Express 1.4) then transfers exactly its bytes in order. The pages are as many as needed, one short page exactly for up to 32 entries. In every outcome the pages taken can be found again. |
| `Prp.Iod.FillList` | shell/nvme-of_setup/nvme-modified/host/pci.c:637-664 | The loop ends, with the entries of the whole transfer in a well-linked list, or refused by a pool, or with a bad list, and never loses a page. |
| `Prp.Iod.ChainPage` | shell/nvme-of_setup/nvme-modified/host/pci.c:640-649 | Linking in a further page moves the last entry over and keeps all entries in order. |
| `Prp.WalkMeaning` | shell/nvme-of_setup/nvme-modified/host/pci.c:618-663 | The reading of a finished list, of any number of chained pages, is the scatterlist byte for byte. |
| `Prp.WalkChain` | shell/nvme-of_setup/nvme-modified/host/pci.c:638-650 | Reading on from any slot of any page of a chain yields the entries from there, links skipped. |
| `Prp.EmitCovers` | shell/nvme-of_setup/nvme-modified/host/pci.c:638-663 | On a conforming list the entries emitted cover the rest of the transfer page by page. |
| `Prp.ConformingAccepted` | shell/nvme-of_setup/nvme-modified/host/pci.c:656-675 | bad_sgl is reached only with a list that does not conform. |
| `Prp.AcceptedExact` | shell/nvme-of_setup/nvme-modified/host/pci.c:637-675 | Wherever the segments lie, a list that needs a PRP list is built if and only if every segment but the last ends on a page of the transfer or inside its last page; else it is bad_sgl. |
| `Prp.ShortMeaning` | shell/nvme-of_setup/nvme-modified/host/pci.c:601-616 | Transfers of at most two pages, where prp2 is unused or the second page itself, mean the scatterlist too. |
| `Prp.Iod.SetupPrpSimple` | shell/nvme-of_setup/nvme-modified/host/pci.c:758-775 | One segment within two pages is described exactly; a failed mapping is BLK_STS_RESOURCE. |
| `Prp.Iod.UnmapData` | shell/nvme-of_setup/nvme-modified/host/pci.c:524-569 | Frees every list page once, to the pool it came from and at the address it was allocated at, recovered from first_dma and the links; nothing for a directly mapped segment. |
| `Prp.Iod.MapPrps` | shell/nvme-of_setup/nvme-modified/host/pci.c:795-844 | When the setup fails at any allocation, or the list is bad, all pages taken by then are freed once; when it succeeds none is. |
| `Prp.PagesNeeded` | shell/nvme-of_setup/nvme-modified/host/pci.c:638-650 | A chain filled as the driver does has just the pages its entries need, one slot of each but the last lost to the link. |
| `Prp.NpagesEnough` | shell/nvme-of_setup/nvme-modified/host/pci.c:337-347 | nvme_npages is at least the number of list pages of any payload at any offset, with 4 KiB kernel pages. Its result is not used: the only caller asks for SGLs. |
| `Prp.NpagesBound` | shell/nvme-of_setup/nvme-modified/host/pci.c:337-347 | It bounds every payload exactly when the kernel page size, a multiple of the controller's 4 KiB, is 4 KiB. |
| `Prp.PointersFit` | shell/nvme-of_setup/nvme-modified/host/pci.c:2819-2824 | The size asked for at probe, which is counted for SGL descriptors, has room for the pointers to the list pages of any transfer up to 4 MiB exactly when it has fewer than 127 segments or needs no chained page. |
| `CompletionRing.PendingExact` | shell/nvme-of_setup/nvme-modified/host/pci.c:925-929 | In any round the phase test accepts exactly the entries posted but not yet taken. |
| `CompletionRing.HandleReads` | shell/nvme-of_setup/nvme-modified/host/pci.c:947-975 | What is read for an entry when it is handled is that entry exactly while no more than a round was posted since; otherwise it is a later entry of the same slot. |
| `CompletionRing.RunInOrder` | shell/nvme-of_setup/nvme-modified/host/pci.c:977-1012 | Over every run of one context at a time, with any number of wraps, if the device completes only commands holding one of depth - 1 tags, the completions handled are those posted, once each and in posting order. |
| `CompletionRing.RunExact` | shell/nvme-of_setup/nvme-modified/host/pci.c:977-1012 | Whatever the device posts within the doorbell, command ids repeated or not, and with any number of contexts completing ranges beside one another: over every run, each handling reads the entry it is for if and only if none comes after more than a round was posted on top of it. |
| `CompletionRing.EachEntryOnce` | shell/nvme-of_setup/nvme-modified/host/pci.c:1051-1074 | With any number of contexts and their ranges in flight: every entry the doorbell was rung for is in just one range or was handled just once. |
| `CompletionRing.DoorbellNotEnough` | shell/nvme-of_setup/nvme-modified/host/pci.c:996-1012 | Keeping merely to the doorbell does not suffice, since it is rung before the entries are handled: a run of a queue of depth 3, command ids below 3, in which an entry is overwritten and another command ended in its place. |
| `CompletionRing.TagsNotEnoughForTwo` | shell/nvme-of_setup/nvme-modified/host/pci.c:1051-1074 | Nor do the tags suffice when nvme_poll_irqdisable completes its range beside an interrupt: a run within depth - 1 tags in which the context that is behind reads a later entry. |
| `CompletionRing.CompletionQueue.ProcessCq` | shell/nvme-of_setup/nvme-modified/host/pci.c:996-1012 | Ends although the device goes on posting; takes all entries posted by then, finds as many as there are of the tag asked for, or all, hands out the range taken, which is empty exactly when nothing was taken, and rings the doorbell for them. |
| `CompletionRing.CompletionQueue.TakePending` | shell/nvme-of_setup/nvme-modified/host/pci.c:1002-1006 | The loop takes every entry posted up to its end. |
| `CompletionRing.CompletionQueue.UpdateCqHead` | shell/nvme-of_setup/nvme-modified/host/pci.c:986-994 | Moves head and phase to the next entry in the ring. |
| `CompletionRing.CompletionQueue.CompleteCqes` | shell/nvme-of_setup/nvme-modified/host/pci.c:977-984 | Handles exactly the range, in order, while more entries come in. |
| `CompletionRing.CompletionQueue.HandleCqe` | shell/nvme-of_setup/nvme-modified/host/pci.c:947-975 | Handles the oldest unhandled entry: its request is ended exactly if its command id is below the depth and, on the admin queue, below the tags of requests; on the admin queue the other ids below the depth are asynchronous events; ids from the depth on are dropped. |
| `CompletionRing.DispatchMeaning` | shell/nvme-of_setup/nvme-modified/host/pci.c:947-975 | Over any completions: on an I/O queue the requests ended are those posted with ids below the depth, in order, and there is no event; on the admin queue they are those below both bounds, and the events are those between the two. |
| `CompletionRing.CompletionQueue.Irq` | shell/nvme-of_setup/nvme-modified/host/pci.c:1014-1037 | Every completion posted before the interrupt has been handled once when it returns, the requests ended and the events passed on being those posted, in order; it reports having handled some exactly if it did or another context did since. |
| `SubmissionRing.SubmitValid` | shell/nvme-of_setup/nvme-modified/host/pci.c:453-486 | With a tag left, a submission overwrites no command the device may still fetch; unannounced commands stay below depth - 1, and the doorbell is rung exactly when asked or when the next command would wrap onto the announced tail. |
| `SubmissionRing.CommitValid` | shell/nvme-of_setup/nvme-modified/host/pci.c:488-496 | The tails are equal exactly when nothing is unannounced; after a commit nothing is. |
| `SubmissionRing.SeesWorkExact` | shell/nvme-of_setup/nvme-modified/host/pci.c:453-468 | The device sees work exactly while announced commands are unfetched. |
| `SubmissionRing.FullLooksEmpty` | shell/nvme-of_setup/nvme-modified/host/pci.c:2280-2281 | Head and tail tell work from none exactly while fewer commands than slots are outstanding, hence the tag less. |
| `SubmissionRing.RunMeaning` | shell/nvme-of_setup/nvme-modified/host/pci.c:453-496 | Over every run the device fetches a prefix of what was submitted, in order and unaltered; a last request or a commit leaves everything announced. |
| `SubmissionRing.Drains` | shell/nvme-of_setup/nvme-modified/host/pci.c:453-496 | A device left alone fetches exactly what was announced. |
| `SubmissionRing.SubmissionQueue.SubmitCmd` | shell/nvme-of_setup/nvme-modified/host/pci.c:476-486 | The code does the specified submission. |
| `SubmissionRing.SubmissionQueue.WriteSqDb` | shell/nvme-of_setup/nvme-modified/host/pci.c:453-468 | Rings exactly when asked or when the next command would wrap, in 16-bit arithmetic. |
| `SubmissionRing.SubmissionQueue.CommitRqs` | shell/nvme-of_setup/nvme-modified/host/pci.c:488-496 | The code does the specified commit, after which every submitted command is announced. |
| `Doorbell.NeedEventExact` | shell/nvme-of_setup/nvme-modified/host/pci.c:301-304 | The test modulo 2^16 holds exactly when the event index lies in the cyclic interval from the old index up to the new one. |
| `Doorbell.NeedEventCounts` | shell/nvme-of_setup/nvme-modified/host/pci.c:301-304 | For a ring of any size up to 2^16, less than a round apart: exactly when the event index is the index of some count from the old up to the new one. |
| `Doorbell.NoLostDoorbell` | shell/nvme-of_setup/nvme-modified/host/pci.c:306-335 | In every interleaving of driver and device no state has the device asleep on entries it has not seen without a register write made, due, or about to be found due. |
| `Doorbell.ShadowDoorbell.UpdateAndCheckEvent` | shell/nvme-of_setup/nvme-modified/host/pci.c:306-335 | The doorbell is stored, and a register write asked for exactly when there is no shadow doorbell or the event index is met on the way. |
| `PathChoice.NsHead.FindPath` | shell/nvme-of_setup/nvme-modified/host/multipath.c:265-276 | Returns a live path; under the NUMA policy the cached one, whatever its flags, as long as it is live and optimized; else an optimized one if there is one neither waiting for its ANA state nor being removed, else the nearest such non-optimized one; none exactly when there is neither. Round-robin moves to the next enabled optimized path after the cached one. |
| `PathChoice.NsHead.SlowFindPath` | shell/nvme-of_setup/nvme-modified/host/multipath.c:177-214 | The enabled optimized path of the nearest node, the first of several, and under round-robin the first at all; failing that the non-optimized one so chosen; it is cached. |
| `PathChoice.NsHead.RoundRobinPath` | shell/nvme-of_setup/nvme-modified/host/multipath.c:226-257 | The walk ends, and returns the first good path met behind the old one, else the last non-optimized one met; a lone path only if enabled. |
| `PathChoice.SeekMeets` | shell/nvme-of_setup/nvme-modified/host/multipath.c:226-257 | What the walk finds is the first good path it meets, none exactly if it meets none. |
| `PathChoice.FallbackMeets` | shell/nvme-of_setup/nvme-modified/host/multipath.c:226-257 | What it falls back to is the last enabled non-optimized path it meets. |
| `PathChoice.VisitsCycle` | shell/nvme-of_setup/nvme-modified/host/multipath.c:226-276 | With path states unchanged successive calls go round the enabled optimized paths in list order. |
| `PathChoice.RoundVisitsEach` | shell/nvme-of_setup/nvme-modified/host/multipath.c:226-276 | As many calls as there are enabled optimized paths return each of them just once. |
| `PathChoice.NsHead.AvailablePath` | shell/nvme-of_setup/nvme-modified/host/multipath.c:278-294 | True exactly if some controller is live, resetting or connecting. |
| `PathChoice.NsHead.ClearCurrentPath` | shell/nvme-of_setup/nvme-modified/host/multipath.c:138-155 | No node caches the path any more; other nodes keep theirs; reports whether any did. |
| `BioFlow.EachBioOnce` | shell/nvme-of_setup/nvme-modified/host/multipath.c:67-115 | In every run of submissions, completions, failovers and requeue work, in any interleaving, each bio sent to the node is in exactly one of path requests, requeue list, the work's own list and the ended ones, once; with nothing under way each has been ended once. |
| `BioFlow.NextConserved` | shell/nvme-of_setup/nvme-modified/host/core.c:281-305 | Each single step, with any verdict of nvme_complete_rq, keeps that. |
| `BioFlow.MpathNode.MakeRequest` | shell/nvme-of_setup/nvme-modified/host/multipath.c:296-337 | The bio goes onto a live path, as a request of its own or at the end of the one it is merged into; or onto the end of the requeue list if no path is usable but some controller may come back; or is failed if none can. |
| `BioFlow.MpathNode.SendBio` | shell/nvme-of_setup/nvme-modified/host/multipath.c:296-337 | A new bio comes under the conservation. |
| `BioFlow.MpathNode.CompleteRq` | shell/nvme-of_setup/nvme-modified/host/core.c:254-305 | A success ends its bios as ok. A failure that may be retried (neither the request nor the status forbids it, and the budget is left) moves its bios to the requeue list and schedules the work if and only if it is a path error; otherwise the request is tried once more if and only if the queue is not dying. Every other failure ends its bios as failed. |
| `BioFlow.MpathNode.FailoverReq` | shell/nvme-of_setup/nvme-modified/host/multipath.c:67-115 | All bios of the request are at the end of the requeue list, none ended; after an ANA or path error just that path is cached by no node, and disabled after an ANA error with a log; any other error resets the controller and leaves the rest as it is. |
| `BioFlow.MpathNode.RequeueWork` | shell/nvme-of_setup/nvme-modified/host/multipath.c:339-360 | Takes the whole list and resubmits every bio; none is lost or ended twice, and with a usable path all are on it afterwards. |
| `FcAbort.AbortAccounting` | shell/nvme-of_setup/nvme-modified/host/fc.c:1498-1551 | In every interleaving, whenever the lock is free inside a TERMIO window iocnt is the number of exchanges taken from active to aborted and not yet through the teardown check; no decrement takes it below zero. |
| `FcAbort.WaitMeaning` | shell/nvme-of_setup/nvme-modified/host/fc.c:2816-2820 | The wait ends if and only if no aborted exchange is outstanding; while it sleeps one is, and it is woken by the check of the last one and no other. |
| `FcAbort.TeardownMeaning` | shell/nvme-of_setup/nvme-modified/host/fc.c:2758-2820 | With no new starts, and every active op aborted, no exchange at all is with the LLDD when the window closes. |
| `FcAbort.NextInv` | shell/nvme-of_setup/nvme-modified/host/fc.c:1498-1551 | Every step, including a restore of the op state that races with the completion handler, keeps the invariant. |
| `FcAbort.FcCtrl.AbortOpExchange` | shell/nvme-of_setup/nvme-modified/host/fc.c:1504-1505 | First half of the abort, under the lock: takes the op state. |
| `FcAbort.FcCtrl.AbortOpFinish` | shell/nvme-of_setup/nvme-modified/host/fc.c:1506-1521 | Second half: counts an active op, puts any other state back; asks the LLDD to abort exactly for an active one. |
| `FcAbort.FcCtrl.ChkTeardowns` | shell/nvme-of_setup/nvme-modified/host/fc.c:1537-1551 | Decrements only for an aborted op in a window, never below zero, and wakes exactly at zero. |
| `FcAbort.FcCtrl.Returns` | shell/nvme-of_setup/nvme-modified/host/fc.c:1605 | Completion, or a refused start, takes the op state as the abort does. |
| `FcAbort.FcCtrl.StartFcpOp` | shell/nvme-of_setup/nvme-modified/host/fc.c:2279-2288 | A start makes the op active and hands the exchange over. |
| `FcAbort.FcCtrl.SetIdle` | shell/nvme-of_setup/nvme-modified/host/fc.c:2391-2397 | The op is idle once its request has been completed. |
| `FcAbort.FcCtrl.OpenWindow` | shell/nvme-of_setup/nvme-modified/host/fc.c:2767-2770 | The window opens with a count of zero, no exchange of an earlier one being outstanding. |
| `FcAbort.FcCtrl.Wait` | shell/nvme-of_setup/nvme-modified/host/fc.c:2817-2820 | The window closes exactly when no aborted exchange is outstanding. |
| `NsScan.FindExact` | shell/nvme-of_setup/nvme-modified/host/core.c:3435-3452 | The lookup finds an id exactly if it is on the list with nothing larger before it. |
| `NsScan.FindAgrees` | shell/nvme-of_setup/nvme-modified/host/core.c:3435-3452 | On an ascending list with other ids appended it agrees with a full search for every id not appended. |
| `NsScan.MidFind` | shell/nvme-of_setup/nvme-modified/host/core.c:3664-3676 | Hence every lookup of a scan by the controller's list is exact although new namespaces are appended out of order. |
| `NsScan.NsCtrl.FindGetNs` | shell/nvme-of_setup/nvme-modified/host/core.c:3435-3452 | The loop computes the lookup. |
| `NsScan.NsCtrl.ValidateNs` | shell/nvme-of_setup/nvme-modified/host/core.c:3615-3626 | A namespace found is kept if it validates and else removed; one not found is appended if it can be allocated. |
| `NsScan.ScanIdsMid` | shell/nvme-of_setup/nvme-modified/host/core.c:3657-3680 | At every listed id of a scan from a sorted list: up to there the list is reconciled, from there on it is as it was; ids that were there stand first in order, those added behind them in order. |
| `NsScan.NsCtrl.ScanId` | shell/nvme-of_setup/nvme-modified/host/core.c:3668-3676 | The code computes one step of that: the id validated, the gap before it removed. |
| `NsScan.NsCtrl.ScanNsList` | shell/nvme-of_setup/nvme-modified/host/core.c:3646-3685 | For any ascending active list served in pages, fails exactly if a page it gets to cannot be had; the list it leaves is that of the scanned steps, and, from a sorted list without such a failure, exactly the first nn listed ids whose validation succeeded and that are not dead, once each. |
| `NsScan.NsCtrl.RemoveInvalidNamespaces` | shell/nvme-of_setup/nvme-modified/host/core.c:3628-3644 | Keeps, in order, exactly the ids not beyond the limit and not dead. |
| `NsScan.NsCtrl.ScanNsSequential` | shell/nvme-of_setup/nvme-modified/host/core.c:3687-3695 | Validates every id from 1 to nn in turn, then cleans up. |
| `NsScan.NsCtrl.ScanWork` | shell/nvme-of_setup/nvme-modified/host/core.c:3722-3755 | From a sorted list, whatever ids are dead by the clean-up: scanned by the controller's list, exactly the listed valid ids that are not dead remain; scanned by number, exactly the valid ids up to nn that are not; by number after a failed list scan, exactly these if and only if no such id was overtaken. A right list of ids near enough to one another is sorted for the next scan. |
| `NsScan.SequentialExact` | shell/nvme-of_setup/nvme-modified/host/core.c:3687-3695 | The sequential scan leaves exactly the valid ids that are not dead, exactly when no id it asks for that is not dead stands behind a larger one. |
| `NsScan.FallbackExact` | shell/nvme-of_setup/nvme-modified/host/core.c:3743-3748 | The fallback after a list scan that failed at any page leaves exactly the valid ids that are not dead if and only if no such id the failed scan added lies below one that was there and is still. |
| `NsScan.FailedListScan` | shell/nvme-of_setup/nvme-modified/host/core.c:3743-3748 | It does go wrong: 2000 active ids, the second page failing, id 2000 already there. |
| `NsScan.NsCmpExact` | shell/nvme-of_setup/nvme-modified/host/core.c:3427-3433 | The comparison orders two ids as numbers exactly when their difference fits an int. |
| `NsScan.SortExact` | shell/nvme-of_setup/nvme-modified/host/core.c:3752-3754 | Whatever sublists list_sort merges: every arrangement of a set of ids is sorted ascending if and only if no two of them are more than 2^31 - 1 apart. |
| `NsScan.SortMisorders` | shell/nvme-of_setup/nvme-modified/host/core.c:3427-3433 | Two ids more than 2^31 apart are sorted the wrong way round, and the smaller one is not found again. |
| `RdmaCompletion.CompletionMeaning` | shell/nvme-of_setup/nvme-modified/host/rdma.c:1431-1447 | In every interleaving of send, response and local-invalidate completions, whatever keys the responses name: a request ends once for each start, not before its send completed, with the status it was answered with; each memory region is in the pool or with one request, never both; and the key of an ended request is invalid if and only if its own response named none or some response since its start named it. |
| `RdmaCompletion.RightKeysMeaning` | shell/nvme-of_setup/nvme-modified/host/rdma.c:1570-1598 | With a peer that names no key but the request's own, no region in the pool and no ended request has a valid key, in any run. |
| `RdmaCompletion.WrongKeyLeft` | shell/nvme-of_setup/nvme-modified/host/rdma.c:1572-1579 | With another it happens: a run in which a region goes back to the pool with its key still valid. |
| `RdmaCompletion.StuckForever` | shell/nvme-of_setup/nvme-modified/host/rdma.c:1581-1593 | A request whose local invalidate could not be posted never ends, in any run: only the error recovery that is started then can end it. |
| `RdmaCompletion.NextInv` | shell/nvme-of_setup/nvme-modified/host/rdma.c:1215-1268 | Every step keeps the accounts of references, keys, regions and ends. |
| `RdmaCompletion.RdmaQueue.QueueRq` | shell/nvme-of_setup/nvme-modified/host/rdma.c:1366-1417 | Started exactly if its segments could be mapped, a region was to be had and filled if it needs one, and the work requests were posted; it then has a region, the first of the pool with a key counted up, if and only if it has segments, is not a write that fits the capsule, and is not one segment under the global key. Else the request holds nothing and its region is back in the pool. |
| `RdmaCompletion.KeysRepeat` | shell/nvme-of_setup/nvme-modified/host/rdma.c:1344 | A key counted up stays that of its region and comes back after 256 registrations, no sooner. |
| `RdmaCompletion.RdmaQueue.ProcessNvmeRsp` | shell/nvme-of_setup/nvme-modified/host/rdma.c:1550-1598 | The response drops the reference itself, or, when the peer did not invalidate, leaves that to the local invalidate it posts, the request not ending; a wrong key, or a local invalidate that cannot be posted, starts error recovery. |
| `RdmaCompletion.RdmaQueue.SendDone` | shell/nvme-of_setup/nvme-modified/host/rdma.c:1431-1447 | The send completion drops a reference, ending the request if it is the last. |
| `RdmaCompletion.RdmaQueue.InvRkeyDone` | shell/nvme-of_setup/nvme-modified/host/rdma.c:1215-1229 | The invalidate completion makes the key invalid and drops the reference. |
| `RdmaCompletion.RdmaQueue.CompleteRq` | shell/nvme-of_setup/nvme-modified/host/rdma.c:1248-1268 | The region goes back to the pool. |
| `Reconnect.MaxReconnectsIs` | shell/nvme-of_setup/nvme-modified/host/fabrics.c:884-888 | For all values the options can have the unsigned division is exact: max_reconnects delays reach the loss timeout, and one less does not; -1 exactly for a negative timeout. |
| `Reconnect.AttemptsExact` | shell/nvme-of_setup/nvme-modified/host/tcp.c:1829-1902 | From a lost connection, whatever each attempt meets: the controller is given up if and only if max_reconnects attempts meet an error, after just that many and as many delays; it is live if and only if the first that meets none is ready; and it is left connecting, with no attempt to come, if and only if that one met an icdoff, whose attempt is torn down but counted a success. |
| `Reconnect.LeftConnecting` | shell/nvme-of_setup/nvme-modified/host/tcp.c:1838-1841 | A controller left so stays so, in every run in which no other party changes its state. |
| `Reconnect.GivenUpNever` | shell/nvme-of_setup/nvme-modified/host/tcp.c:1838-1841 | Such a run, of a controller with a loss timeout of 20 seconds. |
| `Reconnect.InTimeExact` | shell/nvme-of_setup/nvme-modified/host/tcp.c:1821-1822 | The time waited is at least ctrl_loss_tmo and less than one reconnect_delay longer, for every ctrl_loss_tmo, exactly when the delay in ticks fits 32 bits. |
| `Reconnect.NeverTooMany` | shell/nvme-of_setup/nvme-modified/host/tcp.c:1880-1902 | Over any run no more than max_reconnects attempts follow one another without success. |
| `Reconnect.NeverGivenUp` | shell/nvme-of_setup/nvme-modified/host/fabrics.c:474-481 | Without a limit no run gives the controller up, and while it is connecting an attempt is always scheduled, unless one met an icdoff. |
| `Reconnect.DeletedForGood` | shell/nvme-of_setup/nvme-modified/host/tcp.c:1809-1827 | Once the controller is being deleted, no run makes it live or schedules an attempt. |
| `Controller.TerminalExact` | shell/nvme-of_setup/nvme-modified/host/core.c:404-419 | The terminal states are exactly those from which no sequence of requested state changes leads to live. |
| `Controller.AdmitsExact` | shell/nvme-of_setup/nvme-modified/host/core.c:323-398 | Every pair of states: admitted exactly if it is one of the eleven transitions of the state machine. |
| `Reconnect.TcpCtrl.ChangeCtrlState` | shell/nvme-of_setup/nvme-modified/host/core.c:323-398 | Changes the state to the one asked for if that is one of the transitions, else not at all, and says which. |
| `Reconnect.TcpCtrl.SetupCtrl` | shell/nvme-of_setup/nvme-modified/host/tcp.c:1829-1878 | Without error exactly for an icdoff and for queues set up on a controller that may become live, which it then is. |
| `Reconnect.TcpCtrl.ReconnectCtrlWork` | shell/nvme-of_setup/nvme-modified/host/tcp.c:1880-1902 | One attempt: no error resets the count, an error schedules the next or deletes. |
| `Reconnect.TcpCtrl.ReconnectOrRemoveCtrl` | shell/nvme-of_setup/nvme-modified/host/tcp.c:1809-1827 | Schedules an attempt within the limit, else deletes; nothing unless connecting. |
| `Reconnect.TcpCtrl.DeleteCtrl` | shell/nvme-of_setup/nvme-modified/host/core.c:186-193 | Deletes once; busy if the state does not admit it or deletion is under way. |
| `Reconnect.TcpCtrl.ErrorRecoveryWork` | shell/nvme-of_setup/nvme-modified/host/tcp.c:1904-1924 | Recovery starts the loop unless the controller is being deleted. |
| `QueueSetup.SharesOut` | shell/nvme-of_setup/nvme-modified/host/pci.c:2030-2062 | Default and read queues share out the vectors, one queue if there is none; at least one default queue; read queues exactly when more than one vector and write queues are there. |
| `QueueSetup.NvmeDev.SetupIrqs` | shell/nvme-of_setup/nvme-modified/host/pci.c:2064-2100 | One vector is asked for each queue not polled and one for the admin queue, or just one if no more can be had or all are polled; default, read and poll queues together never exceed the queues asked for, and use them up if all vectors are had; reads have queues of their own exactly when write queues are asked for and a vector is left. |
| `QueueSetup.NvmeDev.CreateIoQueues` | shell/nvme-of_setup/nvme-modified/host/pci.c:1729-1764 | As many queues come up as have memory and are created before the first that fails; an error is returned exactly if there is memory for none or creating one ends in an error, and a status of the controller is none. When all are up the interrupt-driven ones come first, each with its own vector unless there is only one, and just the poll queues are polled. |
| `QueueSetup.NvmeDev.SetupIoQueues` | shell/nvme-of_setup/nvme-modified/host/pci.c:2108-2196 | The first round asks for the most queues whose doorbells fit, each further one, in which some but not all had come up, for as many as had; there are no more rounds than queues granted. On success all of max_qid queues are up, are the sum of the shares, at least one default, and of the right kinds; if nothing fails these are all the queues granted; without the admin queue's interrupt none comes up and its error is returned. |
| `QueueSetup.MapMeaning` | shell/nvme-of_setup/nvme-modified/host/pci.c:419-448 | The queue map puts every queue under just one kind: the default queues first, then those for reads, then the polled ones. |

## Left out

Parts of the driver:

- The netCAS splitter and monitor the repository's README describes: their source is not part of this model.
- SGL descriptors (`nvme_pci_setup_sgls`, `nvme_setup_sgl_simple`): one descriptor a segment; their chained form is not reached with 127 segments.
- Sizing of the memory pools other than the list page pointers, host memory buffer, controller memory buffer, metadata mapping: allocation and device calls.
- Asynchronous event requests racing with FC teardown, and the release of FC queues after it.
- Sysfs, ioctl, tracing, LightNVM, module and option-string handling, log messages.
- The variants of the RDMA file and the unmodified tree: near copies.
- The throughput and latency counters in `nvme_rdma_complete_rq`: they only accumulate.
- Constants of `linux/nvme.h` and `linux/nvme-tcp.h` are those of the specifications; the headers are not part of this model.

What is taken for granted of the surroundings:

- Interleavings are sequentially consistent; RCU, memory barriers and DMA visibility are not modelled.
- TcpRecv.RecvQueue.RecvSkb: a bio list at its end is dereferenced by the code, and the model stops there with the error `NullBio`; after an error any bytes may come next, those of the refused buffer among them; the receive hash is taken to hold just the bytes hashed since it was last started. Request tags come from a fixed set, copying out of a socket buffer does not fail, a header digest looked for outside the buffer counts as wrong (`TcpDigest` says when that matters), and the counter of completions for polling is left out. The send side's acceptance of an R2T is a parameter.
- TcpStream.StreamMeaning: the PDUs have a header length of 24, zeros in the reserved fields and fields that fit their width; types, flags, offsets, lengths and digests are arbitrary. Other header lengths are covered by `RecvSkb` and `ChunkIndependence` only.
- TcpSend.SendQueue.TrySendDdgst: the stream is not followed beyond a digest taken in part; what its calls send is, in `DdgstExact`.
- TcpSend.SendQueue.HandleR2t: one R2T is outstanding at a time, as the host advertises; what is sent of an answer for a read is not followed. PDU lengths stay below 2^32.
- TcpSend.SendQueue.IoWorkSend: the receive half of `nvme_tcp_io_work` and its time limit; a request given up is no longer the send side's, whether the driver ends it or the recovery does.
- TcpSend.SendQueue.QueueRq: bios and their segments are not empty, and no special payload replaces them.
- Prp.Iod.SetupPrps: the DMA lengths sum to the payload and are not zero; pool memory has the pool's alignment and no two live pages overlap. List pages are values addressed by their position, as the driver's pointer array addresses them.
- CompletionRing.CompletionQueue.Irq: the code is that of one context at a time; contexts beside one another are runs of the automaton, in `RunExact` and `EachEntryOnce`.
- SubmissionRing.SubmissionQueue.SubmitCmd: the write of the doorbell is the register's or the shadow's; when the register must follow the shadow is `Doorbell`.
- PathChoice.NsHead.FindPath: the cached path is on the head's list, given by its position there, the list and policy do not change during a call, and distances are below INT_MAX.
- BioFlow.EachBioOnce: splitting of bios and requests sent to a path device directly are left out; the status word is taken as decoded.
- FcAbort.AbortAccounting: an op is not started while the abort holds it, as its queue is quiesced; aborts happen only inside the window, as in the code.
- NsScan.NsCtrl.ScanNsList: which ids validate is the same for every attempt during one scan, ids and nn are below 2^32 - 1 (with that nn the scan by number would not end), reference counts of listed namespaces are not zero, and nothing else removes namespaces meanwhile.
- RdmaCompletion.CompletionMeaning: no transport error, one response per command, and a key named only in the response to a request that has one, as the code reads it without a check.
- Reconnect.AttemptsExact: what sets a queue up is reduced to whether it fails; ticks per second are a parameter; the RDMA and FC loops are not modelled.
- QueueSetup.NvmeDev.SetupIoQueues: the PCI core grants no more vectors than asked for and last calls the sharing function with one less; deleting queues before a retry succeeds.
