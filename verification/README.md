# A model of the USB/IP bridge firmware

The firmware shares USB devices attached to an ESP32 over the network. This project models its
protocol and concurrency core in Dafny and proves what that core promises: for every input, every
interleaving and every failure of memory, sockets and hardware. `dafny verify dfyconfig.toml` checks it.

Two parts are shared-memory protocols and are modelled as interleaved step systems; their theorems are
about every state of every run.

- **Transfer pool** (`PipePool`, `PipePoolSafety`, `PipePoolPromises`, `PipePoolStatus`,
  `PipePoolDeadlines`, `PipeTable`). Any number of calls of `submit_pipe_request` share N slots through a
  counting semaphore, a mutex, per-slot flags and a per-slot done semaphore; one backend task submits,
  polls, times out and cancels. A step is one access to shared memory or one critical section. A library
  callback may set `completed` on any slot during any pump, and time goes by between any two steps, on a
  32-bit tick counter. `PipeTable` is the code itself, over an array of slots: the object carries, as a
  ghost, the run of the step system that its methods have performed, so that every theorem about runs is
  a theorem about the object.
- **URB stream** (`UrbStream`, `UrbStreamSafety`, `UrbStreamPromises`). The reader of a connection, its
  workers, and the context they share. A step is one access to the table, the counter or a cancel flag: a
  row of `in_flight` is claimed in four steps and freed in three, UNLINK takes two for each row it looks
  at and three more to test, load and follow the pointer it found, and the teardown takes those three
  for each row. A worker may take the row or the item away in between.

The other parts are programs over buffers, arrays and sockets, proved against specifications whose
properties are proved separately.

- **Stream synchronisation** (`Bytes`, `UsbipSocket`, `UrbHeaders`, `UrbReader`, `UrbSubmit`, `UrbSync`,
  `UrbWorker`, `Transfer`): which of a client's requests reach a worker, what the reader takes from the
  byte stream, when it stays in step with its client's PDUs, and what a worker's transfer and reply may
  contain. The wire format is the one of the Linux kernel's "USB/IP protocol" document; requests are
  written, and replies read, with that document's own numbers.
- **Device directory** (`UsbDevice`, `Descriptors`, `BusIds`, `DeviceTable`, `DeviceRecords`,
  `DeviceDirectory`, `DeviceReports`, `UsbipWire`, `UsbipServer`): descriptor walk, slot table, virtual
  registry, listing and lookup, OP_REP_DEVLIST and OP_REP_IMPORT, what a client reads of a device after
  it has been attached, and a client's connection from its request to the end of its URB stream.
- **Config transfer** (`Numerals`, `ChunkedCoding`, `ChunkedWriter`, `QuotedText`, `ConfigText`,
  `ConfigRoundTrip`, `ConfigMisled`, `ConfigServer`, `ConfigTransfer`, `ConfigVersions`,
  `ConfigJson`): HTTP chunked coding (section 7.1 of RFC 9112), the JSON exporter and the
  `strstr`/`strchr` importer. The scanner's text is taken apart at its quotes: a key
  occurs at a quote exactly when a piece between quotes equals it.
- **Log broadcast** (`LogFraming`, `LogServer`): RFC 5424 messages in octet-counted frames (section 3.4.1
  of RFC 6587), and swap-remove during a descending send loop.

Some promises turn out to hold only under a condition, which is proved to be exact:

- the reader stays in step with its client (`UrbSync.StaysInStepExactly`);
- UNLINK finds its target (`UrbStreamPromises.UnlinkFindsExactly`) and cancels no other
  (`UrbStreamPromises.UnlinkHitsOnlyItsTarget`): both fail when a row's last owner clears the number of
  the next one, the second only for an UNLINK of 0, the number that marks a row without one;
- the scan times out what is late and nothing else, as long as the tick counter does not wrap
  (`PipePoolDeadlines.LateExactly`);
- a log client can decode its stream (`LogServer.ClientDecodesExactly`);
- the importer's wire loop reads the exporter's entries (`ConfigMisled.EntriesFoundExactly`): not if a
  board named pin, a hostname wires and a bracket in the board ID make it start too early, unless there
  are no entries, or the first wire is called pin and its label is not;
- an import is a restore, as the comment at main/http_server.c:1173-1175 calls it: exactly when each wire
  returns (`ConfigTransfer.RestoresExactly`).

The comment at main/usbip_server.c:353-356 says that the last worker frees the context; the code has the
reader free it (559-560), which is safe exactly when the drain ended on zero
(`UrbStreamPromises.FreedSafelyExactlyWhenDrained`).

Sockets, the USB host library, memory and the clock are nondeterministic: a receive or a send may be
short or fail, an allocation may fail, a device handle is new at every open, and the hardware never
counts more bytes than it was given. What they answer is an input of the contracts (a socket's ghost
`failed`, the memory that is found, what is plugged in, what the library accepts), so that an operation
may fall short only where one of them has. Error numbers are newlib's. Sizes that the build configures
(number of slots, of devices, the largest transfer, the stream buffer) are arbitrary.

## Model

| member | source | states |
|---|---|---|
| PipePoolPromises.PermitsConserved | main/usb_backend.c:305-315 | in every reachable state, free permits plus calls holding one equal the number of slots, assigned slots never outnumber the holders, and no call is in the -EBUSY branch |
| PipePoolSafety.PermitFindsSlot | main/usb_backend.c:1051-1059 | a call that holds a permit and no slot finds a slot that is not assigned, so the "should never happen" branch is dead |
| PipePoolPromises.ExactlyOnce | main/usb_backend.c:1020-1092 | a call is activated at most once, gets one status write and one token per activation and collects its own token; a call that returned was refused before activation or was completed exactly once with the status it returns |
| PipePoolPromises.SlotMoves | main/usb_backend.c:795-868 | every event moves its slot along free, filling, queued, (in flight,) done, free, under one holder throughout |
| PipePoolPromises.TokenReachesItsCall | main/usb_backend.c:1082-1092 | every token taken was given for that very call on that slot, and nothing happened to the slot in between, however slots are reused |
| PipePoolPromises.BorrowedMemory | main/usb_backend.c:594-735 | the backend follows a pointer into a caller's frame only after that caller's activation and before its token |
| PipePoolPromises.ScanSeesFlag | main/usb_backend.c:821-825 | a scan that reaches an in-flight slot whose cancel flag is up reads the flag as up |
| PipePoolPromises.CancelIsFinal | main/usb_backend.c:848-866 | once a scan has read a raised flag, that slot is still being served or has been answered with -ECONNRESET, with nothing but buffer accesses in between |
| PipePoolPromises.FlagsStayUp | main/usb_backend.c:815-866 | cancel flags are never cleared and calls are never forgotten |
| PipePoolPromises.StatusWasReported | main/usb_backend.c:806-808 | the status a finished call holds is one that was written for that call |
| PipePoolStatus.StatusExplained | main/usb_backend.c:815-866 | every status that is written is the failure of that slot's hand-over, or what one scan made of it: the hardware's status if the callback had run and neither the cancel flag nor the 5000 ms since the hand-over aborted it, -ECONNRESET if it was aborted and the flag is up at the end, -ETIMEDOUT otherwise |
| PipePoolStatus.ResultExplained | main/usb_backend.c:1082-1092 | what a call returns is -ENODEV before its activation or such a status |
| PipePoolStatus.SuccessExactly | main/usb_backend.c:848-858 | a call whose transfer was handed over returns success if and only if the hardware ended it with success before anything aborted it |
| PipePoolStatus.AnsweredInBetween | main/usb_backend.c:801-811 | a slot that was active and is not any more has had its call answered in between, with such a status |
| PipePoolSafety.RunInv | main/usb_backend.c:795-868 | the flags, pointers and program counters of all slots and calls agree with the logged life of each, in every state of every run |
| PipePoolDeadlines.NoneOverdue | main/usb_backend.c:828-831 | in every run, no transfer in flight between two rounds compared as late when the last round read the clock; so its deadline lay ahead then, if and only if the counter had not wrapped past it |
| PipePoolDeadlines.LateExactly | main/usb_backend.c:828-828 | for times less than one turn of the counter apart, the comparison tells whether the deadline has passed if and only if the counter has not wrapped in between |
| PipePoolDeadlines.WrapTimesOutAtOnce | main/usb_backend.c:661-681 | a reachable state in which a transfer handed over just before the wrap is timed out at once |
| PipeTable.Table.constructor | main/usb_backend.c:897-909 | the pool starts in the initial state: every slot idle, one permit per slot |
| PipeTable.Table.AllocPipeLocked | main/usb_backend.c:305-315 | the first unassigned slot is taken; for a holder of a permit there always is one |
| PipeTable.Table.FillAndActivate | main/usb_backend.c:1061-1080 | three fills and the activation are steps of the run, and the call then waits on its active slot |
| PipeTable.Table.TakeDone | main/usb_backend.c:1082-1083 | collecting the token is a step of the run and moves only that call |
| PipeTable.Table.FreeSlot | main/usb_backend.c:1085-1089 | clearing the assignment is a step of the run that keeps everything else |
| PipeTable.Table.ReturnPermit | main/usb_backend.c:1090-1092 | giving the permit back is a step of the run and the call returns its status |
| PipeTable.Table.SubmitScan | main/usb_backend.c:793-811 | after the scan every active slot is in flight and the call of every other that was active has been answered with a status that the run explains |
| PipeTable.Table.CompletionScan | main/usb_backend.c:813-868 | after the scan no slot in flight has its cancel flag up, a deadline that the time read has reached, or had its callback run before; the call of every other that was has been answered with a status that the run explains |
| PipeTable.Table.Round | main/usb_backend.c:778-869 | a whole round reads the clock anew, and then every activated request is in flight, with its flag down and its deadline ahead, or answered with a status that the run explains |
| PipeTable.Table.InFlightIsActive | main/usb_backend.c:661-678 | between slots, a submitted slot is active |
| UrbStreamPromises.CountsInFlight | main/usbip_server.c:238-258 | inflight_count equals the work items counted in and not yet counted out, with pointer, seqnum and counter written in separate steps |
| UrbStreamPromises.FreedSafelyExactlyWhenDrained | main/usbip_server.c:546-561 | once the context is freed, some worker can still touch it if and only if the counter is not zero |
| UrbStreamPromises.DrainedIsTheEnd | main/usbip_server.c:554-561 | when the drain stops on zero, nobody takes another step |
| UrbStreamPromises.OneOwnerPerRow | main/usbip_server.c:245-258 | no row of in_flight has two live owners, and a row's pointer leads to its owner |
| UrbStreamPromises.TeardownCancelsAll | main/usbip_server.c:547-553 | when the drain starts, every SUBMIT that has a row has its cancel flag up, with test, load and store in separate steps |
| UrbStreamPromises.NeverAbandons | main/usbip_server.c:515-525 | the branch that gives up waiting for a row is dead: only the reader tears the connection down, and then it holds no SUBMIT |
| UrbStreamPromises.RepliesConserved | main/usbip_server.c:335-340 | SUBMITs that did not tear down equal reply attempts plus live items without a reply plus the one with the reader; every reply has its own request's seqnum and no SUBMIT has two |
| UrbStreamPromises.OneSender | main/usbip_server.c:335-340 | no two workers are sending at once |
| UrbStreamPromises.UnlinkHitsOnlyItsTarget | main/usbip_server.c:380-387 | no step raises a flag but a store through a row's pointer, and that of the SUBMIT it leads to; the SUBMIT that an UNLINK of x cancels has another number if and only if x is 0 and the row has lost that number |
| UrbStreamPromises.UnlinkHitsAnotherOnlyWhenLost | main/usbip_server.c:260-270 | then the number was cleared by a SUBMIT that had the row before |
| UrbStreamPromises.UnlinkOfZeroHitsAnother | main/usbip_server.c:260-270 | a reachable state in which an UNLINK of 0 has cancelled a running SUBMIT 2 |
| UrbStreamPromises.StoreReachesUnlessGivenUp | main/usbip_server.c:384-387 | a store through a row's pointer, by UNLINK or the teardown, raises the flag of the SUBMIT that the row led to when it was tested, unless that SUBMIT has replied and given the row up since |
| UrbStreamPromises.StoreCanMiss | main/usbip_server.c:384-387 | reachable states in which the pointer to be stored through has been cleared, or the item behind it freed, since the test |
| UrbStreamPromises.UnlinkFindsExactly | main/usbip_server.c:380-387 | the search for the number of a SUBMIT with a row, 0 included, takes that row if and only if the number has not been lost there |
| UrbStreamPromises.LostToLastOwner | main/usbip_server.c:238-258 | a row loses its owner's number only to a SUBMIT that had the row before and was caught between giving it up and clearing the number |
| UrbStreamPromises.UnlinkReachesUnlessLate | main/usbip_server.c:380-387 | an answered UNLINK has cancelled the one SUBMIT that had a row under that number when it began, unless it has been answered, or has lost its number so, or the number is 0 and the search stopped at a row whose number had been cleared |
| UrbStreamPromises.UnlinkCanMiss | main/usbip_server.c:238-243 | a reachable state with one row in which UNLINK has missed a running SUBMIT |
| UrbStreamPromises.FlagsStayUp | main/usbip_server.c:547-553 | cancel flags of SUBMITs only go up |
| UrbStreamPromises.TearsDownExactly | main/usbip_server.c:371-457 | a step of the reader begins the teardown if and only if the stream broke off or its answer could not be sent |
| UrbStreamPromises.TornDownByFailure | main/usbip_server.c:546-561 | a connection that is being torn down has such a failure in its past |
| UrbStreamPromises.UnlinkIsAnswered | main/usbip_server.c:380-392 | an UNLINK comes nearer to its end with every step of the reader and is left only by being answered |
| UrbStreamPromises.ProbedInUse | main/usbip_server.c:245-258 | a SUBMIT passes by no free row |
| UrbStreamSafety.RunInv | main/usbip_server.c:272-348 | table, counter, mutex, stages and replies agree in every state of every run of reader and workers |
| UsbipSocket.Socket.ReadExact | main/usbip_server.c:32-49 | the next len bytes of the stream however it is cut up, or false |
| UsbipSocket.Socket.DiscardExact | main/usbip_server.c:68-87 | exactly len bytes are skipped, or false |
| UsbipSocket.Socket.WriteAll | main/usbip_server.c:51-66 | all of the data is sent, or false and a proper prefix of it |
| UrbReader.Admit | main/usbip_server.c:459-543 | an admitted SUBMIT's data is the stream's next bytes, or memory ran out and its data has been taken all the same |
| UrbReader.HandlePdu | main/usbip_server.c:378-543 | what is taken from the stream, answered and handed over for one PDU, under every failure |
| UrbReader.HandleStream | main/usbip_server.c:371-544 | given memory for its context, the loop goes on until the socket fails or a PDU is not gone on after; it leaves a trace in which each header follows the data taken for the one before, and its answers are sent in order, all but the last in full |
| UrbSubmit.SubmitReads | main/usbip_protocol.h:32-47 | the reader finds every field of a SUBMIT where a client that writes the protocol's layout has put it |
| UrbSubmit.ServedExactly | main/usbip_server.c:403-457 | for all fields, a SUBMIT reaches a worker if and only if its size is allowed, it is IN or OUT, for the imported device, not isochronous, to endpoint 0 only in its setup packet's direction, and memory is found; with its data or room for its answer |
| UrbSubmit.RefusedBecause | main/usbip_server.c:412-457 | otherwise each answer has its condition on the fields, and so has the data taken with it; only an unknown direction ends the connection |
| UrbSubmit.WorkersGet | main/usbip_server.c:486-511 | a worker is handed what the client asked for |
| UrbSubmit.UnlinkHandled | main/usbip_server.c:380-392 | an UNLINK is for the SUBMIT that it names, and is answered |
| UrbSubmit.OtherCommands | main/usbip_server.c:394-397 | any other command ends the connection |
| UrbSubmit.SubmitInStep | main/usbip_server.c:441-457 | what follows a SUBMIT on the wire, and when it makes the reader lose step, in terms of its fields |
| UrbSync.SkipsItsData | main/usbip_server.c:412-457 | what is taken for a PDU is what the protocol puts behind its header if and only if it is not isochronous and not an EP0 direction clash with data; data and room of an accepted SUBMIT add up to the requested length |
| UrbSync.StepInStep | main/usbip_server.c:371-376 | a header read in step is the client's, its data reaches the work item byte for byte, and the next is in step exactly when this one does not lose the step |
| UrbSync.StaysInStepExactly | main/usbip_server.c:371-544 | for any PDUs, cuts and memory failures, all headers are read in step if and only if no PDU the server went on after loses the step |
| UrbSync.DataReachesWorkers | main/usbip_server.c:459-508 | as long as no PDU loses the step, accepted OUT data reach the work items byte for byte and in order |
| UrbSync.ClashLosesStep | main/usbip_server.c:448-457 | a control transfer to EP0 whose header says OUT and setup says IN is refused with its data left in the stream |
| UrbHeaders.ReplyReadsBack | main/usbip_server.c:150-187 | a client reads a RET_SUBMIT, command 3, back whole, under its request's seqnum, and stops at its end |
| UrbHeaders.UnlinkReplyReadsBack | main/usbip_server.c:189-203 | the same of RET_UNLINK, command 4 |
| UrbWorker.SendRetSubmit | main/usbip_server.c:150-187 | header and data in one piece, or the header alone, or a prefix on failure |
| UrbWorker.Obstacle | main/usb_backend.c:594-678 | a transfer reaches the hardware if and only if device, claim, size, memory and submission allow it; -EMSGSIZE exactly when size is the first that does not |
| UrbWorker.Transact | main/usb_backend.c:1004-1093 | the hardware is reached exactly when nothing stands in the way, and the status is that of the obstacle, of the abort or of the hardware; OUT data reach it as they are, IN data are what it left, never more than the capacity |
| UrbWorker.RunUrb | main/usbip_server.c:274-348 | what goes to the hardware and what comes back is what the SUBMIT asks for (InItsOwnTerms); the reply has the transfer's status and its data; the client reads it back; it is not sent in full only if the socket or the memory for it fails |
| UrbWorker.InItsOwnTerms | main/usbip_server.c:303-333 | the hardware is addressed at the endpoint with bit 7 for IN, endpoint 0 is given the setup packet, OUT data arrive as they are, an IN asks for whole packets; the status is 0 exactly for a transfer completed unaborted, and then the payload of an IN is the first min(received, requested) bytes that came in |
| Transfer.LeastMultiple | main/usb_backend.c:622-631 | a rounded IN length is the least multiple of the packet size not below the request |
| Transfer.Pipe.Prepare | main/usb_backend.c:594-682 | 0 exactly when device, claim, size, memory and submission are right; the buffer then holds setup packet and OUT data; the length is the rounded one |
| Transfer.Pipe.Complete | main/usb_backend.c:687-735 | the status, and a copy that is the smaller of received and capacity, takes from behind the setup packet and leaves the rest of the caller's buffer |
| Transfer.Errno | main/usb_backend.c:549-565 | 0 exactly for a completed transfer, and the error number of each other end |
| Descriptors.SplitIsPrefix | main/usb_backend.c:206-212 | the walk takes a prefix of the blob apart into well-formed descriptors |
| Descriptors.SplitIsLongest | main/usb_backend.c:206-212 | no other way of taking a prefix apart goes on any longer |
| Descriptors.SplitConcat | main/usb_backend.c:206-228 | a list of descriptors is recovered from its bytes |
| Descriptors.ParseDescriptors | main/usb_backend.c:195-232 | the loop stays inside the total length and leaves the first 8 interfaces and first 16 endpoints of the longest well-formed prefix |
| Descriptors.WrittenReadBack | main/usb_backend.c:214-225 | writing any descriptor list and walking it recovers its interface and endpoint records |
| BusIds.BusidInjective | main/usb_backend.c:476-477 | equal bus IDs come from the same bus and number |
| BusIds.MatchesItself | main/usb_backend.c:249-254 | a stored bus ID is its own lookup key |
| DeviceTable.StepInv | main/usb_backend.c:422-526 | attach, detach and register keep one slot per devnum and per handle, the handle balance and the registry's numbering |
| DeviceTable.RunInv | main/usb_backend.c:528-538 | so does every run of events |
| DeviceTable.HandlesConserved | main/usb_backend.c:381-398 | every opened handle is in exactly one slot and not closed, or in none and closed exactly once, on every path |
| DeviceTable.ListedOnce | main/usb_backend.c:947-971 | the listed bus IDs are distinct if and only if no virtual device object has been registered twice |
| DeviceTable.LookupAgrees | main/usb_backend.c:973-998 | a lookup finds a device if and only if that device is listed and its own bus ID is the one looked up |
| DeviceTable.FoundAsListedExactly | main/usb_backend.c:249-254 | a listed device is found under the field it is listed with if and only if nothing is left in the field behind its bus ID, as in a physical one |
| DeviceTable.DevidTellsApart | main/usbip_server.c:89-92 | listed devices have one device ID if and only if they have one bus ID |
| DeviceTable.AttachLists | main/usb_backend.c:470-497 | an attached device is put in a slot if and only if it is no hub and a slot is free or holds its address |
| DeviceTable.DetachDrops | main/usb_backend.c:511-526 | a detach drops exactly the device with that handle and closes it once |
| DeviceRecords.MadeReports | main/usb_backend.c:446-478 | the record of an attached device has the descriptor's vendor, product, release, class triple and configuration count, the active configuration, bus 1, the address, the protocol's speed number, bus ID, path, and the first 8 interfaces and 16 endpoints of the longest well-formed prefix; it is a hub if the descriptor or one of these interfaces says so |
| DeviceReports.AttachPlaces | main/usb_backend.c:470-497 | it gets a slot if and only if it is no hub and a slot is free or has its address, and no slot of another address changes |
| DeviceReports.AttachedIsRead | main/usb_backend.c:446-497 | then a client that reads the listing reads all that, and so does one that imports it under the bus ID it has read there |
| DeviceReports.RegisteredIsRead | main/virtual_device.c:13-40 | a registered device is read last, as its driver describes it, under bus 2 and its number, and is found under the text of its bus ID; no other device changes but earlier entries of the same object |
| DeviceDirectory.Directory.FindSlot | main/usb_backend.c:256-303 | the first slot that answers, or the length |
| DeviceDirectory.Directory.CloseSlotLocked | main/usb_backend.c:381-398 | a slot in use is closed and cleared, a free one left alone |
| DeviceDirectory.HubCheck | main/usb_backend.c:234-247 | a hub is a device of the hub class or with an interface of it |
| DeviceDirectory.Probe | main/usb_backend.c:422-477 | a handle that was opened is handed on, with all the fields that the descriptors and the host library tell, exactly when these are read and tell of no hub; or else closed |
| DeviceDirectory.Directory.ExportNewDevice | main/usb_backend.c:422-509 | exactly the attach event of what is plugged in happens to the directory; AttachedIsRead says what clients see of it |
| DeviceDirectory.Directory.RemoveGoneDevice | main/usb_backend.c:511-526 | one detach event happens to the directory |
| DeviceDirectory.Directory.Register | main/virtual_device.c:13-40 | one register event happens, exactly when there is a device with operations and there is room; whatever stood in its bus ID and path before |
| DeviceDirectory.Directory.GetDevices | main/usb_backend.c:947-971 | as much of the listing as there is room for, in order |
| DeviceDirectory.Directory.GetDeviceByBusid | main/usb_backend.c:973-998 | the loops over slots and registry compute the lookup |
| DeviceDirectory.Directory.FindVirtualDevice | main/virtual_device.c:42-58 | the loop finds the first entry whose bus ID matches, or none |
| DeviceDirectory.Directory.HandleDevlist | main/usbip_server.c:564-601 | a client that reads the reply learns of every listed device; it is complete exactly when there was memory and the socket held |
| DeviceDirectory.Directory.HandleImport | main/usbip_server.c:603-640 | the reply is about the device the lookup finds |
| UsbipServer.HandleClient | main/usbip_server.c:644-676 | what is asked for is what is answered, unless the socket fails: the listing, or the device listed under the bus ID followed by its own URB stream, which starts right behind the request and goes on to the end; nothing only if nothing was asked for |
| UsbipServer.RequestsAsked | main/usbip_server.c:652-676 | the requests with codes 0x8005 and 0x8003 under version 0x0111 are understood, and no other |
| UsbipServer.NumbersAgree | main/usbip_server.c:89-92 | a PDU under the number that the client makes of the reply's busnum and devnum is never answered -ENODEV, and no other is taken |
| UsbipServer.Import | main/usbip_server.c:603-642 | the reply is sent first, and only a listed physical device gets a stream, under the number that the reply gives it |
| UsbipWire.DevlistReadsBack | main/usbip_server.c:94-147 | a client reading the count, each 312-byte descriptor and its interfaces consumes the whole reply and recovers every exported field in order |
| UsbipWire.ImportReadsBack | main/usbip_server.c:616-641 | an import's client recovers the device and knows where the URB stream starts |
| UsbipWire.SendDevice | main/usbip_server.c:115-137 | descriptor and interfaces in full, or cut short |
| UsbipWire.SendDevlist | main/usbip_server.c:581-600 | the reply in full, decodable, or a proper prefix of it |
| ChunkedCoding.BodyDecodes | main/http_server.c:112-163 | for any writes, the decoder of RFC 9112 section 7.1 returns their concatenation from the emitted body |
| ChunkedCoding.WriteKeeps | main/http_server.c:112-141 | a write never makes a chunk of size zero or overfills the buffer, and adds exactly its data |
| ChunkedWriter.SendAll | main/http_server.c:56-75 | all data is sent through short and interrupted sends, or the sticky error is set and a proper prefix is |
| ChunkedWriter.Stream.constructor | main/http_server.c:84-98 | a stream starts empty behind its header |
| ChunkedWriter.Stream.Flush | main/http_server.c:100-110 | the buffer becomes one chunk; what the peer has stays a prefix of the fault-free body |
| ChunkedWriter.Stream.Write | main/http_server.c:112-141 | the data is added; what the peer has stays a prefix, and is all of it while nothing failed |
| ChunkedWriter.Stream.End | main/http_server.c:155-163 | without a failure the peer's body decodes to everything written; in any case it is a prefix of the fault-free body |
| QuotedText.FindKey | main/http_server.c:556-560 | strstr for a quoted key stops at the quote before the next piece that equals the key |
| QuotedText.FindChar | main/http_server.c:560-564 | strchr passes whole pieces that do not have the character |
| ConfigText.FindValue | main/http_server.c:556-568 | json_str_after finds the piece after the next colon behind the key |
| ConfigRoundTrip.VersionFound | main/http_server.c:1089-1101 | the version is read back from the exported text |
| ConfigRoundTrip.HostnameFound | main/http_server.c:1146-1154 | so is the hostname |
| ConfigRoundTrip.BoardIdFound | main/http_server.c:1156-1168 | so is the board ID |
| ConfigMisled.ScanExactly | main/http_server.c:1179-1212 | what the wire loop visits in the exported text, for all names without quotes |
| ConfigMisled.EntriesFoundExactly | main/http_server.c:1179-1212 | it visits the exported entries in order and nothing else if and only if it does not start too early, or there are no entries, or the first wire is called pin and the first label is not |
| ConfigServer.Bridge.ExportConfig | main/http_server.c:1103-1127 | the pieces written are the document of the exported state, each cut to the 2047 characters of stream_printf |
| ConfigServer.DocumentExactly | main/http_server.c:143-153 | the document is the JSON text of that state if and only if every piece fits |
| ConfigServer.Bridge.VisitPin | main/http_server.c:1184-1211 | one turn applies or skips one item, and the scan position strictly advances within the text |
| ConfigServer.Bridge.ImportWires | main/http_server.c:1179-1212 | the loop ends for every body, and applied plus skipped equals the pins visited |
| ConfigServer.Bridge.ImportConfig | main/http_server.c:1129-1219 | the settings after an import, for every body |
| ConfigTransfer.RoundTrip | main/http_server.c:1103-1219 | importing the exact exported text on any prior state gives hostname, board ID and, for each pin, its own wire if the loop reads it and it is carried, the one wire that a misled loop puts there, or none |
| ConfigTransfer.RestoresExactly | main/http_server.c:1173-1177 | on the same board the import restores every wire if and only if every pin's wire returns |
| ConfigTransfer.ReturnsWhenCarried | main/http_server.c:1188-1195 | where the loop reads right, a wire returns if and only if it is empty or the importer carries it |
| ConfigTransfer.MisledLoses | main/http_server.c:1180-1186 | where it does not, the first entry's wire is lost, unless that entry is listed twice or the stray item lands on its pin |
| ConfigTransfer.ReexportIsIdentical | main/http_server.c:1103-1127 | exporting again after such an import prints the very same text |
| ConfigTransfer.WireCalledPinIsLost | main/http_server.c:1188-1195 | a wire called pin does not come back |
| ConfigTransfer.Transfer | main/http_server.c:1103-1219 | export in chunks, decoding by the client, import on another board, in one: the settings are those of an import of the document, unless the connection fails |
| ConfigVersions.VersionDecides | main/http_server.c:1134-1144 | a document of version 1 is taken and one of any other version changes nothing |
| ConfigVersions.NoVersionIsTaken | main/http_server.c:1134-1137 | a document without a version is taken |
| ConfigVersions.UnlistedPinsEndUpCleared | main/http_server.c:1173-1177 | each pin that no item of the document gives a wire to ends up without one |
| ConfigVersions.NamesTaken | main/http_server.c:1146-1168 | a hostname is taken if it is neither empty nor too long, a board ID if it is not too long |
| ConfigVersions.CaseIgnored | main/http_server.c:221-227 | a pin is known by its label in letters of either case |
| ConfigJson.DocumentParsed | main/http_server.c:1103-1127 | a JSON parser reads the exported document as one object with exactly the exporter's values |
| Numerals.ReadPrint | main/http_server.c:105-105 | a number printed in decimal or hexadecimal reads back |
| Bytes.BigEndian | main/usbip_server.c:150-187 | numbers go over the network most significant byte first |
| LogFraming.FramesDecode | main/log_server.c:109-120 | octet-count decoding of any frames recovers the messages |
| LogFraming.DecodesOnlyFrames | main/log_server.c:109-120 | no other text decodes to them |
| LogFraming.FrameInPlace | main/log_server.c:105-120 | the message moves up and its frame stands in the buffer, or it is dropped exactly when cut short or too long for its frame |
| LogFraming.StrippedIs | main/log_server.c:77-80 | what is left ends in no newline or carriage return and what is cut is nothing else |
| LogFraming.Hook | main/log_server.c:58-126 | a line is queued if and only if 1 to 459 characters are left of it, as the frame of its RFC 5424 message |
| LogFraming.MessageReads | main/log_server.c:84-103 | an RFC 5424 reader recovers facility and severity of the level letter, the time of day, and the line |
| LogServer.Server.RemoveClient | main/log_server.c:128-132 | the last client takes the removed one's place |
| LogServer.Server.AcceptClient | main/log_server.c:176-185 | a new client is appended while there is room |
| LogServer.Server.Broadcast | main/log_server.c:187-197 | each client connected at the start is sent the message exactly once, from the last down, and exactly those whose send did not fail remain |
| LogServer.TurnDone | main/log_server.c:128-132 | swap-remove in a descending loop neither skips nor repeats a client |
| LogServer.ClientDecodesExactly | main/log_server.c:190-196 | a client recovers the messages sent to it if and only if no send took only part of a frame |
| LogServer.WhatClientSees | main/log_server.c:187-197 | the same of every connected client of a running server |

## Left out

- UrbStreamPromises.StoreReachesUnlessGivenUp: what a store that misses does to memory is not modelled, only that it raises no flag. An item is gone from the step that counts it out.
- UrbStreamPromises.DrainedIsTheEnd: the drain gives up after 50 waits; a time-out with workers alive is characterised by FreedSafelyExactlyWhenDrained, not excluded.
- UrbStreamPromises.RepliesConserved: counts reply attempts; a reply whose send fails, or finds no memory for its buffer, is not delivered. Replies of the reader are not under write_mutex, so nothing is claimed about whole replies not being interleaved.
- UrbReader.HandleStream: physical devices only; after the first URB of a virtual device the reader's own task is deleted (main/usbip_server.c:530-531 and 347).
- UrbSync.SkipsItsData: an isochronous OUT transfer is taken to carry its whole transfer buffer, padding included.
- PipePoolStatus.StatusExplained: the callback that had run is one of that slot since the hand-over; the library may fire it late, for a transfer that a forced abort has given up on the same slot.
- PipePoolDeadlines.NoneOverdue: a tick is 10 ms, FreeRTOS's default; how long a round takes is not bounded.
- DeviceTable.HandlesConserved: a close that the host library refuses still counts as the one close; claims of interfaces, which a partial failure does not undo, are not modelled.
- DeviceTable.ListedOnce: a virtual device's driver does not change its descriptor once it is registered.
- UsbipServer.HandleClient: the directory does not change during the request, and the stream of a virtual device is not followed.
- ConfigTransfer.RoundTrip: hostname not empty and, like the board ID, shorter than 64; names without quotes; pins told apart by the keys under which the store keeps their wires; storing a wire does not fail.
- ChunkedWriter.Stream.Printf: formatting itself is not modelled; it is given the text.
- LogFraming.Hook: the text that vsnprintf makes of its arguments is given; a full queue drops frames; the uptime in seconds fits 31 bits.
- ConfigJson.DocumentParsed: names without quotes, backslashes and control characters, which the exporter does not escape.
- UrbWorker.InItsOwnTerms: endpoint numbers below 128; what larger ones do is stated by RunUrb in terms of the address they are cut to.
- Body truncation in handle_connection, HTTP parsing, HTML pages and other endpoints.
- Virtual device drivers, device naming, discovery, LEDs, GPIO, expanders, Wi-Fi and Ethernet bring-up.
- Contents of transfers beyond the copies: what a USB device does with its data.
