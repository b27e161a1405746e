# IO-Link master port: a verified model

The program is an IO-Link master (IO-Link Interface and System Specification V1.1.5): one port
engine per device, an ISDU transport and an event readout on top of it, parameter services, and a
controller that drives many ports from one clock. This project models that code in Dafny and proves
what its protocol engines promise, for every input and every run.

## How the model is built

Two layers share every rule.

- **Transitions on values.** `IsduTransport`, `EventMemory`, `ParameterBlock` and `Port` define what
  each operation does to the state it works on, with the program's branches, constants, integer
  widths and error results. The properties are proved about these functions: about one call, about a
  stream of octets, about a lock-step exchange with a device, or about a whole run of ticks.
- **Classes that update in place.** `IsduChannel.Channel`, `EventReader.Reader`,
  `BlockServer.ParameterServer`, `MasterPort.MasterPort` and `Controller.Controller` hold buffers and
  fields as the program does. Each method's `ensures` equates its new state and results with the
  function on the old state, so the properties carry over to the imperative code.

The modules:

- `Wrappers` and `Status`: the option type and the results all modules share.
- `Octets` exclusive or, CHKPDU and the six-bit message checksum; `Frames` the message layer.
- `IsduCodec`, `IsduTransport`, `IsduReassembly`, `IsduExchange`, `IsduChannel`: the ISDU service,
  from encoding to a composition with a conformant device.
- `DataStorage`, `ParameterBlock`, `BlockServer`: record images, and the four-step block write.
- `EventMemory`, `EventReader`: the Table 58 readout; `EventImage`: that memory as a device lays it out.
- `DeviceParameters`: Direct Parameter page 1, capability selection and validation; `DevicePage`: the page as a
  device lays it out, and when a configuration fits it.
- `Port`, `MasterPort`: the port engine and its timed tick. `PortMoves` shows that any run is a
  sequence of twelve kinds of guarded moves on the link; `ComLost`, `OperateGate`, `Pacing`, `Tallies`,
  `Establish` and `Timing` prove their laws on those moves and so for all runs. `Commissioning` builds
  runs against a device that answers. `Schedule`, `PortServices`, `PortExchange` and `Controller` cover
  the scheduler hint, frames and replies, the services carried by a port and the fan-out over ports.

The PHY is an environment: a value `Env` holds the answers of its callbacks during one tick
(received octets, receive fault, results of flush, mode, rate, wake-up, prepare and send) and the real
time of the tick, of which the port sees the low 32 bits. `Link.log` records what happened on the line
with real times, and `phyRate` and `phyMode` follow the PHY. A run is a list of rounds: ticks with any
event, ticks as the controller gives them, and the application changing services, output data or
stored device information between ticks.

The ISDU buffer size stays symbolic, between 16 and 256 octets.

## What is proved

- **End to end.** A write the master accepts, exchanged with a conformant device whatever it did before
  and with any finite number of busy polls, ends OK after exactly the exchanges its octets need; a read
  then returns exactly the data written. The same holds on a port in PREOPERATE or OPERATE, tick by
  tick, exactly as far as the port takes the device's replies (see below), and such runs exist.
- **Reassembly** of every octet stream, cut anyhow, equals one independent reference decoder; the buffer
  bound holds and the payload length never goes below zero.
- **Service results**: for every stream of device octets, cut anyhow, what a read or write call returns.
- **Runs of a port**: commissioning at whichever rate the device answers; COMLOST exactly at the third failure in
  a row; OPERATE only after an acknowledged DeviceOperate, sent with validation configured only to a device whose
  page fits the configuration octet by octet; cycle spacing in real time across clock wrap; one M-sequence at a
  time; the exact wake-up script against a silent device; the startup delays and the response timeout of cyclic
  frames in real time; every frame well formed and of its own channel.
- **Scheduler hint**: nothing happens before the named time, and the tick at that time acts, for a port in every
  run; and exactly when not.
- **Services**: event readout with exact access sequence, delivering exactly the events of the device's memory;
  order-independent Data Storage verification; the parameter block's order of services, and its completion
  against a device; calls for another object during a service refused without touching it.

Properties the code does not have, with the exact condition:

- A port without process data in OPERATE, and any port in PREOPERATE, waits for an OD octet and CKS even
  after a write, which a device answers with CKS alone (Figure A.5, as the comment at
  `src/master_port.c:1046-1048` says). A round on such a port is one exchange of the transport exactly
  when its frame is a read or the reply to the write carries one OD octet that does not begin a response
  (`PortExchange.ShortRoundIsExchangeExactly`). Against CKS-only answers any two request frames in a
  row cost a checksum failure, and every request takes at least three
  (`PortExchange.TwoRequestFramesFail`, `PortExchange.RequestsAreLonger`). Reading page 1 for validation
  is such a service.
- A negative response, to a read or a write, is reported as a device error exactly when its ErrorType is
  not zero. With ErrorType 0 a refused write is reported as done
  (`IsduReassembly.RefusedWriteReportedDone`), and a read hands its caller the raw response as data
  (`IsduReassembly.NegativeResponseIsReported`).
- A response with the reserved length 0, or one that overruns the buffer, ends the service without
  telling the device (`IsduReassembly.SilentFailureExactly`).
- A write whose stream would be 16 octets is refused although the extended form could carry it
  (`IsduCodec.SixteenIsRefusedButEncodable`). A parameter block with such data gets its download start out
  and then stays latched for good, every later call of the service failing; a started transfer can be
  cleared exactly when the encoder accepts its data (`ParameterBlock.RefusedDataWedges`,
  `ParameterBlock.RefusedBlockIsLatched`, `ParameterBlock.StartedTransferCanEndExactly`).
- A block addressed to the object of the download commands fails its verification, unless its data is the
  last of them (`ParameterBlock.TransferCompletes`).
- The hint is unsound for a paced port whose clock has wrapped since its last cycle
  (`Schedule.HintIsUnsoundExactly`).
- A port in OPERATE stays silent at the hinted time, and from then on, exactly while its clock reads less than a
  send gate armed in STARTUP, which after a wrap of the clock can be days, or while its next cycle is due only
  after the clock wraps (`Schedule.HeldBack`, `Schedule.HintedTickActs`).
- A wake-up retry limit of 255 is never passed, so a silent device is never reported
  (`Establish.ReportedExactly`).
- COMLOST by checksum failures does not space the next wake-up by T_DWU; by timeout it does
  (`Timing.ChecksumComLostIsNotSpaced`, `Timing.TimeoutComLostIsSpaced`), and there are runs in which the
  wake-up follows at once (`Commissioning.WakeWithoutTDwu`). The comment above
  `iolink_master_restart_establish` says the wake-up waits whenever a clock is available; the code
  called from reply handling passes none.
- ERROR is not entered when the retry budget is exhausted, as `include/iolinki_master/master.h:52` has it:
  the port goes back to STARTUP, and ERROR is left to PHY and validation failures
  (`OperateGate.RestartRecord`).
- An acknowledge call that collects a readout begun by another service returns OK although the device's
  memory was never confirmed (`EventMemory.AcknowledgeConfirmsExactly`).
- A caller with room for no events still gets one when an event is active
  (`EventMemory.OverrunsExactly`).
- A selected configuration drives a different OPERATE code than the device advertised for codes 4, 6, 7
  and for 1 without ISDU (`DeviceParameters.DrivenCodeIsAdvertisedExactly`).

## Assumptions

- The checksum, frame encoders and reply decoder of the sibling library are not part of this repository.
  They follow A.1.6 and `tests/test_master_isdu_wire.c:24-44`; an OPERATE reply is [OD][PD-in] CKS with the event flag in bit 7
  and PD-invalid in bit 6, and a reply of another length is a frame error.
- Startup and response timing is proved while no armed delay wraps 2^32 ticks; pacing needs no such assumption.
- Lock-step properties let each reply arrive before the next send, as the program expects of ISDU and
  event frames, which set no response deadline.
- In PREOPERATE, port-level rounds are those of ports with one OD octet.

## Model

| member | source | states |
|---|---|---|
| IsduCodec.RequestRoundTrip | src/master_isdu.c:460-594 | every accepted request parses back to itself, its length field is its length, its octets XOR to zero |
| IsduCodec.CanonicalIsEncoded | src/master_isdu.c:460-594 | every canonical octet stream is the encoding of the request it parses to |
| IsduCodec.EncodeInjective | src/master_isdu.c:460-594 | different accepted requests have different encodings |
| IsduCodec.WriteAcceptedExactly | src/master_isdu.c:540-551 | a write is accepted exactly when the data fits the guard and the plain total is at most 15 or in 17..237 |
| IsduCodec.SixteenIsRefusedButEncodable | src/master_isdu.c:547-551 | a plain total of 16 is refused although its extended form is a well-formed stream |
| IsduTransport.PayloadNeverUnderflows | src/master_isdu.c:240-283 | a complete response that XORs to zero is never shorter than its header and CHKPDU, even for ExtLength 0, 1, 2 |
| IsduTransport.ServicesKeepWf | src/master_isdu.c:434-594 | read and write calls keep the transport well formed |
| IsduTransport.OtherCallsAreRefused | src/master_isdu.c:434-538 | while a service is in progress or uncollected, a call of another direction, index or subindex is ERR_BUSY and changes nothing; without communication any call is ERR_INVALID_STATE |
| IsduTransport.OwnCallsPoll | src/master_isdu.c:434-538 | the call that began a service is pending, and changes nothing, exactly until it is done |
| IsduTransport.RefusedForRoomKeepsData | src/master_isdu.c:89-115 | a read refused for lack of room names the room needed and keeps the data for a later call |
| IsduTransport.ErrorIsCollectedOnce | src/master_isdu.c:34-132 | a latched error is returned and recorded once, an unsent ABORT survives it, and the same call then starts afresh |
| IsduReassembly.ReassemblyIsReference | src/master_isdu.c:285-358 | octet-by-octet reassembly of any stream ends in the reference decoder's state |
| IsduReassembly.SegmentationIndependent | src/master_isdu.c:285-358 | any cutting of any stream into replies ends in the same state up to FlowCTRL |
| IsduReassembly.ResponseIsDecoded | src/master_isdu.c:240-358 | idle octets, a well-formed response and padding, cut anyhow, end in that response decoded |
| IsduReassembly.EveryStreamIsSafe | src/master_isdu.c:240-358 | for every stream the buffer bound holds, OK means a cancelling response and its payload, a response that does not cancel latches ABORT |
| IsduReassembly.NegativeResponseIsReported | src/master_isdu.c:89-132 | any well-formed negative response is reported to a read or write exactly when its ErrorType is not zero |
| IsduReassembly.RefusedWriteReportedDone | src/master_isdu.c:117-132 | a write answered with the negative response 44 00 00 44 returns OK |
| IsduReassembly.CorruptionIsNoticed | src/master_isdu.c:240-253 | corrupting any one octet of a response that keeps its declared length is reported as an error and latches ABORT |
| IsduReassembly.CallerIsTold | src/master_isdu.c:89-358 | for every stream, what a read or write call returns: pending, device error, or the data |
| IsduReassembly.SilentFailureExactly | src/master_isdu.c:306-358 | neither IDLE nor ABORT is latched exactly for reserved length 0 and buffer overrun, both error 81 |
| IsduExchange.RequestIsCounted | src/master_isdu.c:176-232 | request frames are as few as the width allows, and frame k carries START or k mod 16 |
| IsduExchange.RequestIsConserved | src/master_isdu.c:176-232 | the OD octets of the request frames concatenate to the request and zero padding |
| IsduExchange.ReadsCarryFlow | src/master_isdu.c:176-232 | reads carry START until the response begins, then 1, 2, .. 15, 0, .. |
| IsduExchange.PositiveService | src/master_isdu.c:176-398 | an accepted request with a positive answer completes with its payload after exactly the exchanges its octets need |
| IsduExchange.WriteCompletes | src/master_isdu.c:512-594 | an accepted write runs to OK and leaves the data in the device |
| IsduExchange.ReadCompletes | src/master_isdu.c:434-487 | a read of an object the device holds runs to OK and returns it |
| IsduExchange.IdleConcludes | src/master_isdu.c:400-415 | the concluding IDLE read changes nothing but its latch |
| IsduExchange.WriteThenReadReturnsData | src/master_isdu.c:434-594 | write then read returns exactly the data written, for every width, length and polling |
| IsduChannel.Chkpdu | src/master_isdu.c:135-145 | the loop computes the XOR of the buffer's prefix |
| IsduChannel.Channel.FillOd | src/master_isdu.c:176-232 | in-place OD filling is the transport's FillOctets and Fill |
| IsduChannel.Channel.DecodeResponse | src/master_isdu.c:240-283 | in-place decoding and compaction is the transport's Decode |
| IsduChannel.Channel.OnOd | src/master_isdu.c:285-358 | the receive loop, with its early exits, is the transport's OnOd |
| IsduChannel.Channel.ChannelAccess | src/master_isdu.c:360-398 | direction and FlowCTRL of the next M-sequence |
| IsduChannel.Channel.TakeIdle | src/master_isdu.c:400-415 | the IDLE latch is taken once |
| IsduChannel.Channel.TakeAbort | src/master_isdu.c:417-432 | the ABORT latch is taken once |
| IsduChannel.Channel.FinishRead | src/master_isdu.c:89-115 | collection of a read: error, room too small, or the data |
| IsduChannel.Channel.Read | src/master_isdu.c:434-487 | the read service on buffers is the transport's Read |
| IsduChannel.Channel.Write | src/master_isdu.c:512-594 | the write service on buffers is the transport's Write |
| DataStorage.NextRecord | src/master_isdu.c:636-655 | the cursor advances by the whole record in front of it, or not at all |
| DataStorage.ImageIsValid | src/master_isdu.c:704-724 | the loop accepts exactly the images that parse |
| DataStorage.ImageContainsRecords | src/master_isdu.c:659-701 | the nested loops compute containment |
| DataStorage.ValidExactly | src/master_isdu.c:704-724 | valid images are exactly the concatenations of well-formed records, each in one way |
| DataStorage.ContainsExactly | src/master_isdu.c:659-701 | between valid images containment is inclusion of records in any order |
| DataStorage.ContainsIsTransitive | src/master_isdu.c:659-701 | containment is transitive |
| DataStorage.VerificationIgnoresOrder | src/master_isdu.c:726-756 | reordering or repeating records changes no verdict |
| DataStorage.ExactReadbackVerifies | src/master_isdu.c:726-756 | an exact readback of any image, valid or not, verifies |
| DataStorage.LostRecordIsNoticed | src/master_isdu.c:726-756 | a readback that loses an expected record never verifies |
| DataStorage.VerifiesExactly | src/master_isdu.c:726-756 | a readback verifies exactly if both are record images and the expected records are all in it, or it is the same octets |
| ParameterBlock.CallKeepsTrack | src/master_isdu.c:1106-1180 | a call keeps the completed services in step, never moves the step back except by clearing, and returns OK only for a whole transfer |
| ParameterBlock.OkMeansWholeTransfer | src/master_isdu.c:1106-1180 | in every run OK means the requests completed since the call began, read back, are the start command, the data to its object, the end command and a read whose data equals the block or, for the Data Storage object, holds its records |
| ParameterBlock.ReadbackDecides | src/master_isdu.c:726-756 | a collected readback returns OK exactly if it agrees with the block |
| ParameterBlock.VerificationIsRecorded | src/master_isdu.c:1155-1180 | whatever ends the verification is the last result, and clears the block |
| ParameterBlock.OtherArgumentsAreRefused | src/master_isdu.c:1090-1131 | a call with other arguments is ERR_BUSY, recorded as the last result, and leaves the transfer as it is |
| ParameterBlock.RefusedDataWedges | src/master_isdu.c:1118-1151 | data the guard admits and the encoder refuses gets a download start out and is then latched at its write step |
| ParameterBlock.RefusedBlockIsLatched | src/master_isdu.c:1123-1151 | such a block is never cleared, and every later call with any arguments is an error |
| ParameterBlock.StartedTransferCanEndExactly | src/master_isdu.c:1106-1180 | past download start a transfer can be cleared exactly when the encoder accepts its data |
| ParameterBlock.TransferCompletes | src/master_isdu.c:1106-1180 | against a conformant device every block the encoder accepts is transferred in four services, to OK unless addressed to the download commands' own object with other data |
| BlockServer.ParameterServer.VerifyStep | src/master_isdu.c:611-756 | readback and verdict on the channel are ParameterBlock's Verify |
| BlockServer.ParameterServer.WriteParameterBlock | src/master_isdu.c:1106-1180 | the block service in place is ParameterBlock's WriteBlock |
| EventMemory.CaptureIsPrefix | src/master_isdu.c:816-868 | the collected octets are a prefix of the device's memory, with addr equal to len and at most 19 |
| EventMemory.ReadoutIsExact | src/master_isdu.c:786-879 | the accesses are exactly the reads needed and, when asked to confirm, one write to address 0 after them |
| EventMemory.ReadoutDelivers | src/master_isdu.c:773-1055 | a lock-step readout takes ceil(needed / width) reads and delivers the events of the device's memory |
| EventMemory.ReportRuns | src/master_isdu.c:910-970 | a code or acknowledge call begins a readout, an acknowledge's with a confirmation; the first call after it returns the code of the device's first event, the next begins anew |
| EventMemory.ReportWaits | src/master_isdu.c:910-970 | calls during a readout are pending, or ERR_INVALID_STATE without communication, and change nothing |
| EventMemory.ActiveSlotsExactly | src/master_isdu.c:1015-1030 | the slots delivered are exactly the active ones |
| EventMemory.ActiveSlotsAscend | src/master_isdu.c:1015-1030 | active slots are delivered in ascending order |
| EventMemory.AcknowledgeConfirmsExactly | src/master_isdu.c:943-970 | a collected acknowledge returns OK and the code; the memory was confirmed exactly if an acknowledge began the readout |
| EventMemory.OverrunsExactly | src/master_isdu.c:1018-1037 | the caller's room is exceeded exactly when it is zero and an event is active |
| EventMemory.StrayRepliesAreIgnored | src/master_port.c:1201-1217 | replies before the first diagnosis read are never captured |
| EventImage.NeededIsUsed | src/master_isdu.c:773-868 | the octets called for by a StatusCode end with the last occupied slot |
| EventImage.DetailsAreEvents | src/master_isdu.c:893-908 | a memory laid out from six optional events decodes to exactly those events, cut to the caller's room, and the first one's code |
| EventImage.ReadoutDeliversEvents | src/master_isdu.c:773-1055 | a lock-step readout of such a memory delivers exactly its events in slot order and reports the first one's code |
| EventImage.SlotExample | src/master_isdu.c:893-908 | slot octets 54 40 10 are the notification 4010 |
| EventReader.Reader.OnOd | src/master_isdu.c:816-868 | the capture loop in place is EventMemory's OnOd |
| EventReader.Reader.FirstCodeOf | src/master_isdu.c:893-908 | the loop finds the code of the lowest active slot |
| EventReader.Reader.Report | src/master_isdu.c:910-970 | begin, poll and collect of the code and acknowledge services |
| EventReader.Reader.Deliver | src/master_isdu.c:1015-1037 | the loop stores the active events in order, cut to the caller's room |
| EventReader.Reader.ReadEventDetails | src/master_isdu.c:988-1055 | begin, poll and collect of the details service |
| DeviceParameters.PdLengthIsLegal | src/master_parameters.c:70-107 | a legal descriptor names at most 32 octets, bit lengths rounded up |
| DeviceParameters.MinCycleIsMonotonic | src/master_parameters.c:17-37 | over the defined bases the decoded time grows strictly with the octet |
| DeviceParameters.SelectionIsCoherent | src/master_parameters.c:208-379 | a selected configuration passes initialisation and validates exactly when revision, cycle time and identity allow |
| DeviceParameters.DrivenCodeHasItsWidth | src/master_parameters.c:117-206 | for every type the OPERATE code driven is one the type serves, with the OD octets the port carries |
| DeviceParameters.DrivenCodeIsAdvertisedExactly | src/master_parameters.c:117-206 | the OPERATE code driven equals the one advertised exactly for codes 0, 5 and 1 with ISDU |
| DevicePage.PageParsesBack | src/master_parameters.c:39-206 | a page laid out from a device's values parses back to them, lengths of process data in and out apart |
| DevicePage.ValidatesExactly | src/master_parameters.c:208-344 | a page is parsed exactly if it is readable, and validation accepts a configuration exactly if it fits the octets of the page |
| DevicePage.RefusalNamesFirst | src/master_parameters.c:294-344 | a refusal names the first requirement of the page that fails |
| DevicePage.SelectionAdoptsPage | src/master_parameters.c:346-379 | selection adopts the page's lengths, its cycle time up to 25.5 ms and the type of its code |
| Frames.McRoundTrip | src/master_parameters.c:39-67 | direction, channel and address of MC round trip both ways |
| Frames.TypedRoundTrip | src/master_port.c:250-288 | a typed message fits the buffer, passes the receiver's check and decodes to its parts |
| Frames.AcceptedIsBuilt | src/master_port.c:250-288 | only messages built this way pass the receiver's check |
| Frames.ReplyRoundTrip | src/master_port.c:1336-1345 | a conformant reply decodes to what the device sent |
| Frames.ReplyOkExactly | src/master_port.c:33-38 | a reply checks out exactly if it is the conformant one for its octets and flags |
| Frames.TwoCksNeverCheck | src/master_port.c:33-38 | two replies of CKS alone never pass as one reply of OD and CKS |
| Port.InitialIsWf | src/master_port.c:602-677 | every configuration the argument check admits starts in a well-formed state |
| Port.FixedFramesSuit | src/master_port.c:975-1050 | the test message is the checked TYPE_0 read of page address 2, the command the checked write of 99 to page address 0 |
| Port.FixedFramesAre | tests/test_master_establish.c:20-45 | the test message is A2 00, the command 20 06 99, a reply with MinCycleTime 1E is 1E 28: checksums included |
| Port.InitRefusesExactly | src/master_port.c:602-625 | initialisation refuses exactly process data that does not fit a frame or its type, leaving the port alone; any other configuration becomes the port's |
| Port.InitTellsFirstRefusal | src/master_port.c:627-677 | an admitted configuration's initialisation returns what the PHY first refuses, in its order of calls, with the port in ERROR exactly if it refuses anything |
| PortMoves.TickMoves | src/master_port.c:522-600 | every tick changes the link by a sequence of guarded moves |
| PortMoves.RunMoves | src/master_port.c:522-600 | so does every run, in time order; silent runs have no receive moves, driven runs only due timeouts |
| PortMoves.OnRxMoves | src/master_port.c:1219-1386 | a received reply is one move or changes nothing |
| PortMoves.SendLogs | src/master_port.c:183-242 | a sending move logs what it puts on the line and leaves the failure counters alone |
| ComLost.ComLostOnThirdFailure | src/master_port.c:795-914 | the retry counter is the failures since the last accepted reply or restart, at most two; COMLOST is exactly the third |
| OperateGate.RestartRecord | src/master_port.c:795-813 | COMLOST leads to STARTUP and the wake-up, or to ERROR exactly when the PHY refuses the rate |
| OperateGate.StateFollowsLog | src/master_port.c:938-1386 | the log determines the state; OPERATE is entered only by a checked acknowledgement of a DeviceOperate command sent since PREOPERATE |
| OperateGate.ErrorIsFinal | src/master_port.c:938-1111 | ERROR is never left by ticking and nothing is sent in it |
| OperateGate.CommandIsVetted | src/master_port.c:1006-1053 | with validation configured the command is sent only with valid, passing device information stored |
| OperateGate.TickKeepsPage | src/master_isdu.c:489-510 | whatever a tick does, stored device information that stems from a page still does |
| OperateGate.CommandFitsDevice | src/master_port.c:1006-1053 | with validation configured the command is sent only with the information of a page stored that the configuration fits octet by octet |
| OperateGate.StoredPageDecides | src/master_port.c:1006-1053 | with page information stored a cycle commands a device that fits or need not be checked, and ends in ERROR for any other |
| OperateGate.ReadPageDecides | src/master_port.c:1006-1053 | a page just read brings the command exactly if it is whole, readable and fits, else ERROR |
| Pacing.OneSequenceAtATime | src/master_port.c:560-600 | after a cyclic frame or test message nothing is sent until acceptance, timeout or COMLOST |
| Pacing.CyclesAreSpaced | src/master_port.c:430-475 | cyclic frames keep the minimum cycle time in real time across clock wrap; slips, last jitter and its peak are exact |
| Tallies.EveryLossIsCounted | src/master_port.c:183-242 | in every run the timeout counter is the number of missed replies and the failure counter that of reported wake-up sequences; a send error is counted at most once, and only in ERROR |
| Tallies.RefusalIsCountedExactly | src/master_port.c:183-242 | a send error is counted exactly when the PHY does not take a frame or wake-up |
| Tallies.ChecksumErrorIsCountedExactly | src/master_port.c:1219-1386 | a reply is counted as a checksum error exactly when it is answered so, and touches no other counter |
| Establish.PhyFollowsPort | src/master_port.c:602-873 | the PHY of an IO-Link port runs at the port's rate and sleeps exactly in the T_SD wait; any other port stays inactive with its PHY in SIO or inactive |
| Establish.EveryRunFollowsScript | src/master_port.c:773-1003 | in every run a port in STARTUP has followed the script of wake-ups, rates and reports since its last restart |
| Establish.SilentDeviceScript | src/master_port.c:825-1003 | against a silent device the port stays in STARTUP and the line carries exactly the script |
| Establish.SilentProgress | src/master_port.c:825-1003 | every round whose time has come takes the script a step further |
| Establish.ReadyRoundsExist | src/master_port.c:825-1003 | rounds whose time has come exist in any number |
| Establish.ReportedExactly | src/master_port.c:850-873 | silence is reported exactly when the configured limit is at most 254 |
| Timing.TicksRoundUp | src/master_port.c:76-81 | conversions to ticks round up by less than one tick |
| Timing.ConstantsConform | src/master_port.c:62-134 | bit times match the rates, default delays lie in the ranges of Table 42, and each deadline is the fewest ticks that cover its bit times and configured minimum |
| Timing.EstablishIsInTime | src/master_port.c:761-1003 | in every driven run without wrap each startup act waits for the delay its predecessor calls for, and a cyclic reply is missed only at its deadline |
| Timing.EveryDelayPasses | src/master_port.c:587-1003 | in real time: T_REN and T_DMT before a test message, 58 bit times for its answer, T_DWU or T_SD before a wake-up, 21 bit times and the configured timeout before a cyclic reply is missed |
| Timing.HintIsTheDelay | src/master_port.c:477-518 | and no longer: in such a run the hint is exactly the end of the delay the port waits for |
| Timing.WindowIsWaitedOut | src/master_port.c:123-134 | the next rate or wake-up waits for the whole 58 bit-time window and the delay after it |
| Timing.ChecksumComLostIsNotSpaced | src/master_port.c:1266-1357 | after COMLOST by checksum failures the send gate is what it was before |
| Timing.TimeoutComLostIsSpaced | src/master_port.c:889-899 | after COMLOST by timeout the gate holds for T_DWU |
| Schedule.HintIsNotPast | src/master_port.c:477-518 | the hint is never before now |
| Schedule.HintIsSound | src/master_port.c:477-600 | until the hint a controller tick without input changes nothing |
| Schedule.HintIsUnsoundExactly | src/master_port.c:515-518 | a tick before the hint sends exactly when it precedes the last cycle and the due time did not wrap |
| Schedule.WrappedClockExample | src/master_port.c:515-518 | a wrapped clock with hint 110 at which the tick at 50 sends |
| Schedule.HintedTickActs | src/master_port.c:477-600 | after any run the driven tick at the hinted time of a port in STARTUP or OPERATE sends or handles a missed reply, exactly unless a wrapping clock holds it back |
| Schedule.MissedReplyTick | src/master_port.c:875-900 | a cyclic reply missed at its deadline: partial octets dropped, counted and tolerated twice, then COMLOST, or ERROR by the PHY; with the result returned |
| Schedule.UnansweredTestTick | src/master_port.c:825-914 | a test message unanswered at its deadline: next rate, another wake-up, or report and sleep, or ERROR by the PHY; with the result returned |
| PortServices.EveryFrameChecks | src/master_port.c:183-426 | in every run every frame fits 64 octets, passes the receiver's check and is what its kind says: test message, command, process, ISDU or diagnosis channel |
| PortServices.SplitReplyIsHandledOnce | src/master_port.c:1113-1191 | any split of an awaited reply over polls is handled as that reply, once |
| PortServices.ValidInputIsWhole | src/master_port.c:1358-1386 | in every run process data is called valid only once all its octets have arrived |
| PortServices.OtherFramesLeaveTransport | src/master_port.c:1006-1111 | event frames, in PREOPERATE and OPERATE, and cyclic frames leave the ISDU transport alone |
| PortServices.IsduFrameCarriesRequest | src/master_port.c:250-350 | an ISDU frame, typed or not, is accepted as a read with address ABORT while an ABORT is latched, else with address IDLE while an IDLE is, else with the service's FlowCTRL and exactly the next request octets; in OPERATE with the process data |
| PortServices.EventFrameNamesAccess | src/master_port.c:360-408 | a diagnosis frame names the access the readout asks for, carries the process data, and zeros when confirming |
| PortServices.CyclicFrameCarriesProcessData | src/master_port.c:1064-1104 | a cyclic frame decodes to a process-channel write with the process data and idle OD |
| PortServices.StrayRepliesAreDropped | src/master_port.c:1201-1217 | octets that arrive before a readout's first access, in any number of replies, reach neither service |
| PortExchange.ReplyIsRouted | src/master_port.c:1285-1386 | a reply of the expected form is accepted and its OD octets are routed, on every kind of port |
| PortExchange.WantedIsHeard | src/master_port.c:298-350 | what a device hears in the frame sent is what the transport asks for, ABORT and IDLE included |
| PortExchange.AccessIsHeard | src/master_port.c:360-408 | what a device hears in a diagnosis frame is the access the readout asks for |
| PortExchange.TicksAreExchange | src/master_port.c:298-350 | sending a frame and receiving a reply the port takes is one exchange of the transport with a device that takes direction, FlowCTRL and OD from the octets sent |
| PortExchange.ShortRoundIsExchangeExactly | src/master_port.c:1136-1155 | on a port without process data or in PREOPERATE that holds exactly for reads and for writes answered with an idle OD octet |
| PortExchange.TwoRequestFramesFail | src/master_port.c:1136-1155 | two request frames answered with CKS alone cost such a port a checksum failure |
| PortExchange.RequestsAreLonger | src/master_isdu.c:460-591 | every request has at least three octets, so such a port always meets it |
| PortExchange.LockStepIsExchangeRun | src/master_port.c:522-600 | a port in lock-step with a device that hears its frames runs the transport's exchanges |
| PortExchange.LockStepIsPossible | src/master_port.c:522-600 | every service that completes in n exchanges can be carried in lock-step in n rounds |
| PortExchange.PortWriteThenRead | src/master_port.c:522-1386 | a write and a read carried by a port in PREOPERATE or OPERATE return the data written |
| PortExchange.TicksAreEventExchange | src/master_port.c:360-426 | two ticks are one exchange of the event readout |
| PortExchange.EventLockStepIsPossible | src/master_port.c:360-426 | every readout can be carried in lock-step |
| PortExchange.PortReadoutDelivers | src/master_port.c:360-426 | a readout carried by a port delivers the events of the device's memory |
| Commissioning.ReachesRate | src/master_port.c:825-1003 | two rounds per silent rate bring the port to the test message at the k-th rate |
| Commissioning.AnsweringDeviceIsCommissioned | src/master_port.c:938-1283 | an answer in time and an acknowledgement take the port to OPERATE at that rate; with validation configured it starts reading page 1 |
| Commissioning.CommissioningRun | src/master_port.c:522-1283 | for every rate there is a driven run in time order that reaches OPERATE |
| Commissioning.WakeWithoutTDwu | src/master_port.c:1336-1357 | there is a driven run in which a wake-up follows COMLOST at once |
| MasterPort.MasterPort.RestartEstablish | src/master_port.c:795-813 | COMLOST restart in place |
| MasterPort.MasterPort.EstablishAttemptFailed | src/master_port.c:825-873 | next rate, next wake-up or failed sequence in place |
| MasterPort.MasterPort.OnTimeoutAt | src/master_port.c:875-914 | timeout handling in place |
| MasterPort.MasterPort.SendFull | src/master_port.c:183-221 | one frame from the transmit buffer to the PHY, with its failures |
| MasterPort.MasterPort.BuildFrame | src/master_port.c:250-288 | the octets built in the transmit buffer are the message of their parts |
| MasterPort.MasterPort.SendIsdu | src/master_port.c:298-350 | the ISDU frame that is due, built and sent |
| MasterPort.MasterPort.SendEvent | src/master_port.c:360-426 | the diagnosis frame that is due, built and sent |
| MasterPort.MasterPort.ReadDeviceInfo | src/master_isdu.c:489-510 | page 1 read, stored and validated |
| MasterPort.MasterPort.ProcessAt | src/master_port.c:938-1111 | the state machine step in place |
| MasterPort.MasterPort.PollRx | src/master_port.c:1113-1191 | the receive loop assembles replies and stops at the first error |
| MasterPort.MasterPort.RouteOd | src/master_port.c:1201-1217 | OD octets go to the engaged readout, else to the transport |
| MasterPort.MasterPort.OnRx | src/master_port.c:1219-1386 | reply handling by state in place |
| MasterPort.MasterPort.TickAt | src/master_port.c:522-600 | the timed tick in place |
| MasterPort.MasterPort.GetNextTickTime | src/master_port.c:477-518 | the scheduler hint |
| Controller.ControllerHintIsSound | src/master_controller.c:127-182 | until the controller's hint no tick without input changes any port |
| Controller.Controller.Init | src/master_controller.c:16-44 | no port is an invalid argument; ports are initialised in order up to the first failure, the rest untouched |
| Controller.Controller.TickAt | src/master_controller.c:127-151 | every managed port gets its tick whatever the others return, and the first error is reported |
| Controller.Controller.GetNextTickTime | src/master_controller.c:153-182 | the loop computes the earliest time any port wants a tick |
| Controller.InitResult | src/master_port.c:602-677 | initialisation succeeds only with the started state, PHY mode by port mode and rate set for IO-Link only; a PHY failure leaves the port in ERROR |

## Left out

- Untimed entry points (`iolink_master_tick`, `iolink_master_process`, `iolink_master_on_timeout`, `iolink_master_controller_tick_events`): runs are driven by `iolink_master_tick_at` or the controller.
- Null-pointer checks, opaque storage and struct sizes: artefacts of the C interface.
- PHY callbacks themselves: their results are the environment's answers; optional hooks that are absent behave like hooks that answer OK.
- DI, DQ and deactivated ports beyond initialisation and staying inactive: one-branch wrappers.
- `src/master_sio.c`, `src/master_gateway.c`, the PHY contract check, getters and the link-quality formula: they would only add easy members.
- User event callbacks: foreign calls without a result.
- A watchdog on ISDU polling: the configuration field is not used by the code.
- ISDU and event behaviour under lost, duplicated or pipelined replies: the code does not resend, so lock-step is assumed.
- ISDU writes in PREOPERATE with more than one OD octet: transport properties are proved for every width, port-level rounds in PREOPERATE for one octet.
- Upload and store system commands: further one-octet writes like the two modelled.
- Overflow of diagnostic counters other than their 32-bit wrap, and device status and voltage diagnostics.
- Controller.Controller.TickAt: the ports are values in an array that each tick replaces; that a port in place computes the same tick is MasterPort.MasterPort.TickAt.
