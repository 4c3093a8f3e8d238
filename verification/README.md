# A verified model of the Winsock layer for Linux

The library maps the Winsock interface onto POSIX calls. Most of it forwards arguments; this
project models the parts that hold state, loops, layout arithmetic or interleavings, and
proves what they keep.

| file | what it models |
|---|---|
| `EventProtocol.dfy` | event objects: the atomic Boolean an application expects (`EventSpec`), and the code as single accesses of any number of threads (`EventProtocol`) |
| `EventObjects.dfy` | the same calls as methods over event objects and kernel counters, and `WSAWaitForMultipleEvents` with its loops |
| `EventSelect.dfy` | what the socket registration list means (`RegistrationTable`), and the linked list with `WSAEventSelect` (`EventSelectList`) |
| `Monitors.dfy` | `WSAEventSelect` calls, monitor threads and event calls interleaving (`RegistrationProtocol`) |
| `AsyncRequests.dfy` | asynchronous lookups: list critical sections and workers interleaving (`AsyncProtocol`), and the linked list (`AsyncRequestList`) |
| `AddrInfo.dfy` | `GetAddrInfoW` and `FreeAddrInfoW` with a ledger of live allocations |
| `AddressText.dfy` | `WSAAddressToStringA` and `WSAStringToAddressA` |
| `ControlMessages.dfy` | the `CMSG_` macros (section 5 of RFC 3542) on 64-bit words |
| `SocketSet.dfy` | the array-backed `fd_set` |
| `StreamIo.dfy` | `WSASend` and `WSARecv` over a byte stream, and both calls in any order on one stream (`StreamLink`) |
| `Extensions.dfy` | `AcceptEx`, `GetAcceptExSockaddrs`, `TransmitPackets` |

Interleavings are modelled as deterministic functions of a sequence of moves: a move says which
thread makes its next access and what the environment answers, `Enabled` says when it can
happen, `After` what it does, and `Legal`/`Exec` run a sequence. A statement about `Exec(Start, moves)`
for every legal `moves` is therefore a statement about every reachable state. Memory is
sequentially consistent. Fields named `log`, `signals`, `saved` and `intended` are history that no
step reads to decide what to do.

System calls are environment choices with these contracts: an eventfd write fails only when the
counter would overflow, and a read takes the whole counter or fails at zero; `select` may fail, sees
all its descriptors at one instant, and with no timeout returns only with something ready;
`epoll_wait` returns up to 10 events, a timeout or an error; `readv`, `writev`, `recv`, `send` and
`sendfile` move any part of what they are offered or fail; `malloc` and `pthread_create` may fail
at any call.

## Where the code does less than it seems

These are properties of the code as it is. Each comes with an input or a run that shows it,
and with the exact condition under which the expected behaviour does hold.

- Cancelling a lookup by the handle that was returned: the handle is a counter, but the cancel
  loop compares node addresses, so it hits the request if and only if the counter happens to be
  its address (`AsyncProtocol.CancelByOwnHandleIff`, `AsyncProtocol.CancelledLookupRunsOn`,
  `AsyncProtocol.ReturnedHandlesCancelNothing`). The repository's README.md lists
  `WSACancelAsyncRequest()` as cancelling an operation; the model follows the code.
- The rollback after a failed worker creation removes only its own request if and only if that
  request is still at the head of the list, or was already gone with its successor at the head
  (`AsyncProtocol.RollbackExactIff`). Of two failed requests on the list, the order
  of their rollbacks decides: the older one first leaves a list that runs into freed memory; the
  newer one first leaves exactly what was below the older, which loses the requests between them
  (`AsyncProtocol.OverlappingOrder`, `AsyncProtocol.OverlappingRollbacksDangle`).
- Walking control messages does not end for every nonzero `cmsg_len`: a length that wraps to zero when aligned
  keeps the cursor in place forever (`ControlMessages.NonzeroLengthMayLoop`, `ControlMessages.StuckIff`);
  a walk only moves forward inside the buffer if and only if every header it leaves is honest
  (`ControlMessages.WalkForwardIff`).
- `TransmitPackets` ignores short transfers. It stops at the first failing element; what went out
  is everything if and only if each transfer before that element was full and no byte was left
  from there on, and a reported success is complete if and only if every transfer was full
  (`PacketTransmission.CompleteIff`, `PacketTransmission.SuccessCompleteIff`,
  `PacketTransmission.ShortSendGoesUnnoticed`).
- Registering a socket again changes its event and mask but never the epoll interest, which stays
  that of the first mask; it is the interest of the latest mask if and only if both masks ask for
  the same epoll flags (`RegistrationTable.InterestCurrentIff`, `RegistrationTable.StaleInterest`).
- `fWaitAll` is ignored. A wait for all events keeps its promise, whatever is set, if and only if
  all its handles are the same; for any two different ones some run answers with a success
  while one is clear (`EventSpec.WaitAllIff`, `EventProtocol.WaitAllMissed`).
- An address text without a port is taken as one if and only if it has no colon and at most
  45 characters (`AddressText.WholeTextIff`). So IPv4 texts are read with port zero
  (`AddressText.PlainQuadParses`), but an IPv6 text loses what follows its last colon: the call
  succeeds if and only if the rest is readable, and takes what was cut off as the port
  (`AddressText.ColonTextParses`, `AddressText.PortlessTextIsMisread`, `AddressText.MappedTextIsMisread`).

## Model

| member | source | states |
|---|---|---|
| EventProtocol.EventsAreAtomic | wsa_events.c:114-237 | every interleaving of create, set, reset and wait has the same observable history, failed selects included, and the same final state as a run of one atomic Boolean per handle, each call taking effect once between its invocation and return |
| EventProtocol.RunRefines | wsa_events.c:114-237 | the same simulation from any state satisfying the invariant, with the atomic actions given explicitly |
| EventProtocol.CopiesAgree | wsa_events.c:126-167 | in every reachable state the counter is 0 or 1, and equals `signaled` whenever the mutex is free |
| EventProtocol.SetNeverFails | wsa_events.c:130-134 | the failure branch after the eventfd write is unreachable for a valid event |
| EventProtocol.SetWriteRefines | wsa_events.c:128-136 | the eventfd write is the instant at which a set takes effect |
| EventProtocol.SetCheckRefines | wsa_events.c:128 | setting an event that is already set takes effect at the flag check |
| EventProtocol.ResetRefines | wsa_events.c:158-163 | a reset takes effect at its first successful read, or at the flag check when nothing is set; further reads, the flag store and the unlock are invisible |
| EventProtocol.WaitObservesBits | wsa_events.c:206-236 | the answer of a wait is the one the atomic Booleans give at the instant of its unlocked select, a failure only if select failed |
| EventProtocol.WaitAnswersExactly | wsa_events.c:214-236 | with good arguments a wait ends with the failure if and only if select failed, else with the timeout if and only if no event it names is set, else with the index of the first set one |
| EventProtocol.OnlyLocksBlock | wsa_events.c:126-214 | a call is held up only by another thread's event mutex, or by a select without a timeout that nothing ends |
| EventProtocol.HolderGoesOn | wsa_events.c:126-167 | the holder of an event mutex can always step, and within at most five own steps frees it with its call successful |
| EventObjects.SetEvent | wsa_events.c:114-142 | without interference a set leaves flag and counter at one, a NULL handle changes nothing |
| EventObjects.ResetEvent | wsa_events.c:144-169 | without interference the drain loop ends with flag and counter at zero |
| EventObjects.CollectFds | wsa_events.c:191-204 | the set holds exactly the handles' descriptors, none above max_fd, or a NULL handle was found |
| EventObjects.FirstInSet | wsa_events.c:226-233 | the least index whose descriptor select left in the set |
| EventObjects.TimevalOf | wsa_events.c:209-210 | the timeout is exactly 1000 times the milliseconds, with less than a million microseconds in the second field |
| EventObjects.WaitForMultipleEvents | wsa_events.c:171-237 | for any count and array, a NULL array, NULL handles and duplicates included: argument errors, select failure, least ready index, or timeout only when nothing is ready; the timeout passed to select; `fWaitAll` and `fAlertable` change nothing |
| EventSpec.WaitAllIff | wsa_events.c:183-230 | a success of a wait for all events means all are set, for every state of the events, if and only if all handles are the same |
| EventProtocol.WaitAllMissed | wsa_events.c:183-230 | for every handle list with two different handles, a run from the start whose wait for all answers with index 0 while an event is clear |
| RegistrationTable.Interest | wsa_events.c:328-341 | each network event is watched through exactly its epoll flag and no other flag is requested |
| RegistrationTable.RegisterFaithful | wsa_events.c:303-361 | one successful call keeps the table faithful to the log of calls |
| RegistrationTable.TableIsFaithful | wsa_events.c:293-361 | after any calls: one entry per registered socket, its latest event and mask, the epoll interest of its first mask |
| RegistrationTable.InterestCurrentIff | wsa_events.c:303-341 | an entry is watched for what its latest mask asks if and only if its first mask asked for the same epoll flags |
| RegistrationTable.StaleInterest | wsa_events.c:303-341 | registering for reading and then for writing leaves the socket watched for reading only |
| EventSelectList.EventSelectList.Find | wsa_events.c:295-301 | the scan finds the entry of the socket or reaches the end |
| EventSelectList.EventSelectList.Insert | wsa_events.c:354-372 | push at the head; when the thread cannot be created the list is the old one again |
| EventSelectList.EventSelectList.EventSelect | wsa_events.c:284-389 | for every outcome of malloc, epoll and thread creation: the answer, the list contents as one Register, and no change to the list on failure; the list stays acyclic |
| RegistrationProtocol.ListIsTable | wsa_events.c:284-376 | in every reachable state of interleaved calls and monitors the list is acyclic, and with the mutex free it is exactly the table of the registrations that took effect; every call that reported success is among them |
| RegistrationProtocol.RollbackRestoresList | wsa_events.c:360-371 | in every reachable state the rollback inside the critical section restores the list and table from before the push |
| RegistrationProtocol.PointersSpellList | wsa_events.c:348-371 | in every reachable state, inside critical sections too, the head and next pointers have no cycle and lead through exactly the entries of the list, the rollback being a store of the entry's next pointer |
| RegistrationProtocol.MonitorsSignalOwnSocket | wsa_events.c:273-278 | every event a monitor ever signals was registered for its own socket, although the event field is read twice without a lock |
| RegistrationProtocol.MonitorsOnlySetOwnEvents | wsa_events.c:273-278 | in every reachable state a monitor's thread is outside event calls or inside WSASetEvent of an event registered for its own socket |
| RegistrationProtocol.ReportedReadinessSignals | wsa_events.c:265-279 | from any reachable state at epoll_wait, for every report of readiness while the entry has an event: once the monitor is past it the event is set, unless a reset took effect or the entry got a new event meanwhile |
| RegistrationProtocol.ReadyIterationSignals | wsa_events.c:273-279 | the same from the start of the event loop behind the report |
| RegistrationProtocol.SignalsWithinReports | wsa_events.c:265-279 | in every run a monitor calls WSASetEvent at most once for each event its epoll_wait reported |
| RegistrationProtocol.NullEventIsSilent | wsa_events.c:274-278 | while its entry has a NULL event a monitor signals nothing, whatever is reported |
| RegistrationProtocol.MonitorEnds | wsa_events.c:257-271 | a monitor starts at the top of its loop, and stops if and only if its own epoll_wait fails for another reason than an interrupt |
| RegistrationProtocol.MonitorsKeepRunning | wsa_events.c:257-271 | in every run a started monitor has stopped only after such a failure |
| RegistrationProtocol.RoundGoesOn | wsa_events.c:273-279 | each move of a monitor in its event loop brings it nearer to the top, where it looks again |
| RegistrationProtocol.MonitorCanMove | wsa_events.c:257-279 | a running monitor always has a move, or is inside WSASetEvent |
| RegistrationProtocol.SuccessIsEffect | wsa_events.c:293-376 | in every interleaving a WSAEventSelect call reports success if and only if it registered, and then exactly once |
| RegistrationProtocol.SelectGoesOn | wsa_events.c:293-376 | a call waits only for the list mutex, comes nearer to its end with each step, and leaves the mutex free |
| RegistrationProtocol.FailureIsShortage | wsa_events.c:311-376 | in every interleaving a call reports failure if and only if it could not have memory, an epoll instance or a thread |
| RegistrationProtocol.RegistrationRunsThrough | wsa_events.c:293-376 | from any state with the list mutex free, a first registration left to itself succeeds, with its entry in front and its monitor started |
| RegistrationProtocol.DeliveryRunsThrough | wsa_events.c:256-279 | from any state, a monitor left to itself with its socket ready runs once through its loop and leaves its event set |
| AsyncProtocol.SafeRunsKeepList | wsa_events.c:505-514 | as long as every rollback is safe, the list is exactly the requests pushed and neither rolled back nor cancelled, newest first |
| AsyncProtocol.RollbackExactIff | wsa_events.c:512-514 | a rollback removes its own request and nothing else if and only if the request is at the head, or is already unlinked and its next pointer is the head |
| AsyncProtocol.RollbackDrops | wsa_events.c:512-514 | a rollback drops its own request and every request pushed after it |
| AsyncProtocol.RollbackAfterPushes | wsa_events.c:505-514 | from any linked list, even one an earlier rollback shortened, with only pushes and workers in between: the rollback resets the list to its value before the push, and removes its own request alone if and only if nobody pushed |
| AsyncProtocol.OverlappingOrder | wsa_events.c:505-516 | of two failed requests with any others between them on the list: rolling back the older first, and only that order, leaves a list that runs into freed memory; the newer first leaves exactly what was below the older, which is right if and only if nothing was between them |
| AsyncProtocol.OverlappingRollbacksDangle | wsa_events.c:511-516 | a run in which the older of two failed creations is rolled back first and the list head ends on freed memory |
| AsyncProtocol.CancelUnlinks | wsa_events.c:605-620 | the cancel pointer updates leave a linked list without the matching node and with all others in order |
| AsyncProtocol.WorkerWritesOnce | wsa_events.c:464-483 | in every interleaving a request's buffer is written at most once, only after a second check that saw a result and no cancellation, and never once a cancel came first |
| AsyncProtocol.FinishedWorkersDelivered | wsa_events.c:464-483 | in every run a finished worker that was not cancelled has made its second check, and has written its buffer exactly once if and only if that check saw a result and no cancellation |
| AsyncProtocol.FoundResultArrives | wsa_events.c:475-480 | from the lookup on, in every interleaving: a result that was found is in the buffer when the worker has finished, unless the request was cancelled; one that was not found never is |
| AsyncProtocol.CancelledEarlyNeverLooks | wsa_events.c:471-473 | a request cancelled before its first check never gets to the second |
| AsyncProtocol.LookupRunsThrough | wsa_events.c:464-520 | from any state a lookup left to itself runs to its end and writes its result |
| AsyncProtocol.WorkerGoesOn | wsa_events.c:464-520 | until it has finished a request always has a move, and each brings it nearer to its end |
| AsyncProtocol.CancelHitsIff | wsa_events.c:605-620 | a cancel flags a request if and only if the request is listed and its address is the number given |
| AsyncProtocol.CancelByOwnHandleIff | wsa_events.c:506-609 | cancelling a listed request by the handle its lookup returned flags it if and only if that counter equals its address |
| AsyncProtocol.CancelledLookupRunsOn | wsa_events.c:505-620 | a lookup started, cancelled by its handle, and still listed, unflagged and running |
| AsyncProtocol.ReturnedHandlesCancelNothing | wsa_events.c:506-609 | in every run that cancels by handles returned so far, with memory above the last handle, no request is ever cancelled |
| AsyncProtocol.HandlesCancelNothing | wsa_events.c:506-609 | the same for any numbers below all node addresses |
| AsyncProtocol.CancelByHandleIsNoOp | wsa_events.c:605-620 | such a cancel leaves the whole state unchanged |
| AsyncRequestList.AsyncRequestList.Push | wsa_events.c:505-509 | the request becomes the head and gets the next handle number |
| AsyncRequestList.AsyncRequestList.Rollback | wsa_events.c:512-514 | the list becomes what follows the request, on the list or already unlinked: everything behind it, or from its old successor on |
| AsyncRequestList.AsyncRequestList.Cancel | wsa_events.c:598-626 | exactly the node at that address is flagged and unlinked in place, the others keep their order and flags; with no match nothing changes |
| AddrInfoSpec.ConvertedCopies | wsa_addr.c:153-179 | converted entries agree with the source in length, order and scalar fields; address and name are the source's, and missing if and only if the source has none or their own malloc failed |
| AddrInfoSpec.NodesFitIff | wsa_addr.c:131-151 | the conversion succeeds if and only if the malloc of every node does |
| AddrInfoList.ConvertEntry | wsa_addr.c:136-181 | one entry and the blocks it adds to the ledger, for any malloc outcomes |
| AddrInfoList.Append | wsa_addr.c:183-189 | tail append keeps the chain and the order |
| AddrInfoList.ConvertList | wsa_addr.c:131-190 | the loop and its clean-up: everything converted, or the ledger as before |
| AddrInfoList.GetAddrInfoW | wsa_addr.c:125-197 | for every result list and malloc pattern: the converted list with the ledger grown by exactly its memory, or out of memory with the ledger as before and the result pointer untouched |
| AddrInfoList.FreeAddrInfoW | wsa_addr.c:204-221 | every node, address and name of the list is freed exactly once and nothing else |
| Decimals.Pton4OfNtop4 | wsa_addr.c:297-413 | IPv4 text reads back as the address, in at most 15 characters |
| Decimals.Pton4Exact | wsa_addr.c:413 | the IPv4 parser accepts exactly the printed texts |
| AddressText.PrintThenParse | wsa_addr.c:294-439 | printing then parsing returns address and port for every IPv4 and IPv6 socket address; flow information and scope come back zero |
| AddressText.ParsedPortBytes | wsa_addr.c:396-425 | the port of a parsed host and port lies in memory with its high byte first |
| AddressText.PrintedPort | wsa_addr.c:294-309 | the printed port is the number whose high byte lies first in memory |
| Decimals.AtoiReads | wsa_addr.c:396 | the port number: white space is skipped, one sign counts, and reading stops at the first other character |
| AddressText.PortColonIsLast | wsa_addr.c:384-396 | the last colon is the port separator whatever colons the address has |
| AddressText.TextFits | wsa_addr.c:280-309 | neither inet_ntop nor snprintf truncates in the local buffer |
| AddressText.ParseAcceptsExactly | wsa_addr.c:383-414 | for every text: an IPv4 parse succeeds with an address if and only if the part before the last colon is that address printed |
| AddressText.BareColonTextIsCut | wsa_addr.c:384-396 | a text with a colon never reaches inet_pton whole, only its part before the last colon |
| AddressText.WholeTextIff | wsa_addr.c:384-402 | a text is taken as an address without port if and only if it has no colon and at most 45 characters |
| AddressText.LastGroupBecomesPort | wsa_addr.c:384-439 | for every host text inet_pton reads, a colon and a number behind it: success, with that host and that port, even if an address without port was meant |
| AddressText.PortlessTextIsMisread | wsa_addr.c:384-439 | the text 1::2:3 is stored as 1::2 with port 3 and success reported |
| AddressText.ColonTextParses | wsa_addr.c:384-439 | for every text with a colon, an IPv6 parse succeeds if and only if the part before the last colon is short and readable, and stores that with the number behind the colon as port |
| AddressText.MappedTextIsMisread | wsa_addr.c:384-439 | the text ::ffff:1.2.3.4 is stored as ::ffff with port 1 and success reported |
| AddressText.PlainQuadParses | wsa_addr.c:384-439 | every text that reads as an IPv4 address is stored with port zero |
| AddressText.AddressToString | wsa_addr.c:275-332 | all error branches, and text, terminator, reported length and untouched rest of the caller's buffer; a rejected length reports one with which the retry succeeds |
| AddressText.StringToAddress | wsa_addr.c:367-440 | all branches: unsupported family, too short a length with the one reported, too long an address part, and on a failed parse an all-zero address with the port stored |
| ControlMessages.AlignAfterHeader | ws2tcpip_old.h:298-305 | aligning a header plus payload is the header plus the aligned payload |
| ControlMessages.WalkReturnsLayout | ws2tcpip_old.h:281-305 | walking any laid out sequence of control messages visits exactly those messages in order, recovers level, type and payload, and stops after the last |
| ControlMessages.NextOfNull | ws2tcpip_old.h:287-288 | CMSG_NXTHDR of NULL gives the first header |
| ControlMessages.NextAdvancesIff | ws2tcpip_old.h:287-293 | the cursor moves forward to a whole header inside the buffer if and only if the length is nonzero and neither it nor the address wraps |
| ControlMessages.StuckIff | ws2tcpip_old.h:287-305 | the cursor stays in place if and only if the length is zero or wraps when aligned |
| ControlMessages.WalkForwardIff | ws2tcpip_old.h:282-293 | every step of a walk that finds a successor moves forward to a whole header inside the buffer if and only if every header left is honest |
| ControlMessages.HonestWalkEnds | ws2tcpip_old.h:282-293 | a walk that leaves only honest headers has strictly increasing offsets, returns only whole headers inside the buffer, and ends within one step per 8 bytes |
| ControlMessages.NonzeroLengthMayLoop | ws2tcpip_old.h:287-305 | a buffer whose only length is nonzero and whose walk never ends |
| SocketSetSpec.RunIsBoundedSet | winsock2_old.h:457-486 | over every operation sequence: no duplicates, at most FD_SETSIZE entries, and exactly the descriptors put in while there was room and not taken out since |
| SocketSetSpec.RunIsInOrder | winsock2_old.h:457-486 | over every operation sequence the descriptors lie in the order in which they came in |
| SocketSetSpec.RemovedKeepsOrder | winsock2_old.h:457-469 | clearing one descriptor keeps the others in order |
| SocketSet.FdSet.Set | winsock2_old.h:471-484 | the in-place scan and append |
| SocketSet.FdSet.Clr | winsock2_old.h:457-469 | the in-place scan and shift remove exactly the first match |
| SocketSet.FdSet.Zero | winsock2_old.h:486 | the set becomes empty |
| StreamSpec.GatherAt | wsa_extended.c:153-158 | byte i of buffer j goes out behind all bytes of the buffers before it, for overlapping buffers too |
| StreamSpec.GatherOfScatter | wsa_extended.c:257-274 | bytes scattered over disjoint buffers are read back in order, and what lies behind them in the buffers is as before |
| StreamSpec.ScatterInOrder | wsa_extended.c:257-274 | buffers are filled one after the other, so that of two that overlap the later one wins |
| StreamSpec.StreamConserves | wsa_extended.c:153-171 | over any calls, buffers and partial counts, bytes received followed by bytes in flight are the bytes reported sent |
| StreamSpec.SplitDoesNotMatter | wsa_extended.c:154-263 | runs that differ only in how bytes are split into buffers have the same outcome |
| StreamIo.CopyBuffers | wsa_extended.c:154-158 | the iovec array equals the buffer array |
| StreamIo.Send | wsa_extended.c:130-175 | all error branches; on success the gathered prefix is appended and its length reported |
| StreamIo.Recv | wsa_extended.c:233-282 | all error branches; on success the front of the stream is scattered over the buffers, its length reported and the flags cleared |
| StreamLink.Link.SendOn | wsa_extended.c:130-175 | one call on a stream pair: the bytes reported sent grow by the reported prefix of the buffers, and received followed by queued stays equal to sent |
| StreamLink.Link.RecvOn | wsa_extended.c:233-282 | the same for receiving: the bytes now in the caller's buffers count as received |
| AcceptBuffer.RegionsHold | ms_extensions.c:58-121 | the local, remote and data regions do not disturb each other, the ranges handed out later are exactly the two addresses, the rest of the buffer is unchanged |
| AcceptBuffer.AcceptEx | ms_extensions.c:18-91 | all error branches with the buffer untouched; on success the three copies and the reported count |
| AcceptBuffer.GetAcceptExSockaddrs | ms_extensions.c:97-122 | whatever AcceptEx left in the buffer for these lengths, the ranges returned read exactly the two stored addresses; each is given when both of its pointers are |
| AcceptBuffer.AcceptAndSplit | ms_extensions.c:18-122 | the two calls in a row return the local and the remote address of the connection |
| PacketTransmission.Payload | ms_extensions.c:290-306 | memory takes precedence over file; a file element stands for its file's bytes from the offset on, as many as the length asks for and the file has |
| PacketTransmission.TransmitElement | ms_extensions.c:290-311 | byte i sent for a file element is byte offset + i of its file, for a memory element byte i of its buffer |
| PacketTransmission.TransmitElements | ms_extensions.c:289-312 | the loop stops at the first failing element, having sent what the elements before it moved |
| PacketTransmission.TransmitPackets | ms_extensions.c:269-316 | the answer for every outcome, and the bytes that went out; they are the elements before the first failure if and only if each of their transfers was full |
| PacketTransmission.CompleteIff | ms_extensions.c:289-312 | the bytes on the wire are all elements' bytes if and only if every transfer before the first failure was full and the elements from there on have no bytes |
| PacketTransmission.FullPrefix | ms_extensions.c:289-312 | the bytes on the wire are exactly the elements before the first failure if and only if each of their transfers was full |
| PacketTransmission.SuccessCompleteIff | ms_extensions.c:289-315 | a reported success sent everything if and only if every transfer was full |
| PacketTransmission.ShortSendGoesUnnoticed | ms_extensions.c:292-315 | a run that reports success and loses a byte |

## Left out

- AddressText.PrintThenParse: IPv6 text is the C library's; the result is for addresses its two functions invert with text of at most 45 characters (section 2.2 of RFC 4291).
- EventProtocol.WaitObservesBits: the system may poll the descriptors of one `select` one after the other; the model has one instant for all of them.
- AddressText.StringToAddress: `atoi` on more digits than an `int` holds is undefined in C and unbounded here, also in `AddressText.LastGroupBecomesPort`.
- AsyncProtocol.WorkerWritesOnce: the bound on `buflen` is not modelled; the code copies a whole `hostent` whatever `buflen` says.
- AsyncProtocol.OverlappingRollbacksDangle: what the code does after it follows a dangling pointer is undefined and not modelled; a cancel step needs a well-formed list.
- EventProtocol.EventsAreAtomic: closing an event that is registered or in use is excluded, as callers must not do it.
- RegistrationProtocol.ListIsTable: the `running` flag of an entry is set once and never cleared by the code, so monitors only end on an epoll error.
- AcceptBuffer.AcceptEx: address lengths above the size of `sockaddr_storage` make the code read past its local variables and are excluded.
- ControlMessages.WalkReturnsLayout: the buffer must not touch the last 32 bytes of the address space.
- `WSAAsyncGetHostByAddr` and its worker differ from the modelled lookup only in the resolver called.
- `WSAEnumNetworkEvents`: reports only connect errors and then calls the modelled reset.
- Wide-character variants and locale conversion: the conversion functions belong to the C library; `GetAddrInfoW` takes the widening of a name as a parameter.
- `__WSA_FD_ISSET` is declared but its definition is not part of this model.
- `WSASendTo`, `WSARecvFrom`, `WSASendMsg`, `WSARecvMsg`: the same buffer loops with different kernel calls.
- `wsock32.c`, `winsock2.c`, `WSAIoctl`, completion ports, protocol enumeration, socket duplication: constant results, simple switches or near copies.
- `WSASocket`, `WSAAccept`, `WSAConnect`, `ConnectEx`, `DisconnectEx`, `TransmitFile`: straight-line forwarding.
