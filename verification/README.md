# Device daemon: what its protocols keep

A Dafny model of the daemon that sits between an application and a device controller, and proofs about it. Every
callback of the main loop is one step. Components that change state are classes whose methods are proved against pure
step functions; the properties of whole runs are lemmas about those functions.

| file | what it models |
|---|---|
| `Polynomial`, `LinearRegister`, `CrcTable`, `Crc32`, `CrcNumber`, `CrcValues` | the checksum: bit-by-bit division, the table, the loop, what the checksum detects, the checksum as a number, and its bits and bytes as numbers |
| `SerialMessage` | splitting a message into frames and putting it together |
| `SerialRx`, `SerialFrame` | the byte automaton and the frame format |
| `SerialStation`, `SerialInterfaceHandler` | one end of the serial link, as step functions and as an object |
| `SerialRetransmission`, `SerialCounters`, `SerialStall` | how often a frame is repeated, what gives the repetitions back, and where progress ends |
| `SerialWrites` | which frames and answers a station writes, and what it delivers, read off the events |
| `SerialLossless`, `SerialBytes` | two stations over loss-free lines, frame by frame and byte by byte |
| `SerialLossy`, `SerialLimits` | two stations over lines that lose and damage frames, and where the guarantees end |
| `Procedure`, `ProcedureRecovery`, `ProcedureReply`, `ProcedureOutcome`, `ProcedureHandover`, `CoreFunctionProcedure` | procedures that survive reboots, what they report at the end, which of them can succeed, and what one leaves to the next |
| `Scheduler`, `XmlProcessor` | the three request lanes |
| `Query`, `QueryClientSerial` | queries and their completions |
| `StateVariable`, `StateVariableObject` | publication of state, and the ready barrier |
| `NulSplitter`, `GioIstreamAdapter` | the stream splitter and the reader of its lists |
| `UsbFraming`, `UsbInterfaceHandler` | frames with a length in front, and the queue behind them |
| `Monitor`, `MonitorManager` | alarms with hysteresis, the raised log level, and what alarms leave in the logs |
| `LogRing`, `LogHandler` | the ring of log entries |
| `Bytes`, `Arithmetic` | sequences and remainders |

Findings, each a lemma with the exact condition or a concrete run:

- Messages of more than one frame can be delivered in pieces once a frame is damaged; this is safe exactly for messages
  that fit in one frame (`FaithfulIffSingleFrame`).
- An acknowledgement that is 1000 messages late completes a message that was never delivered (`StaleAckCompletes`); an
  acknowledgement is for the current message exactly if it is younger than that (`AckIsForCurrent`).
- Giving a message up for one reason does not give back what the other has used up: after four bad confirmations the next
  message has as many timeouts left as the last (`CountersAre`). Only an acknowledgement does (`AckRestores`).
- A procedure resumed at an update of the device controller shows line 1 of the display instead of the line it stopped at
  (`ReplayAgrees`), and the retry is not set back from step to step (`LastChance`). With assertions compiled in, a
  procedure interrupted in its last step is never taken up again (`AssertBlocksLastStep`); before it they make no
  difference (`AssertsHarmless`).
- A procedure with a limit below 1 that crashes on its first execution is refused by the next boot, with its results left on
  disk (`LeavesResultsIff`). The next procedure, whichever it is, takes them for its own if it crashes in its first step
  (`ForeignResults`); if nothing was left behind, all procedures that follow are complete, and only then (`CompleteIff`).
- A procedure requested without a limit of executions cannot succeed unless an earlier request with a limit put its id on
  the list: the count cannot be raised, and the success becomes a failure. Which procedures can succeed at all is
  `CanSucceedIff`. One with a limit below 1 is executed once all the same (`LimitKept`).
- An empty message ends the program when it is its turn, and so does an empty frame from the other side (`EndsIff`).
- When a message is given up while others wait, nothing starts the others: no timer runs, and they stay until an unrelated
  message or frame makes the sender look at its queue (`StallsIff`, `StallLasts`). Silence of the other side is enough
  (`SilenceStalls`).
- A third guiIO call, with one running and one waiting, ends the program (`EndsExactlyWhen`).
- After a failed write to the USB line every later message is written one send late (`LagIsFailures`). The length of a frame
  is written once, however much of it the channel takes; what is sent is read exactly if every frame is taken whole and is
  short enough (`ReadAsSentIff`).
- A failed reply loses requests in two ways: one repeated afterwards is swallowed, and one that waited behind the failed
  query is dropped (`LostRequests`). Once nothing is under way, the latest request is confirmed exactly if the last reply
  since was a success, or none was and it had been confirmed already (`ConfirmedIff`, `GetsThroughIff`).
- Once all have submitted, every success of another variable asks the master to be `ready` again; it is sent at once exactly
  if the master was last asked for something else and no query of its own is under way (`EverySuccessAsksAgain`).
- A list of chunks is read back in full exactly if no chunk after the first begins with 0xFF, where `char` is signed
  (`ReadsBackIff`).
- USB frames get through exactly if each is shorter than 2^32 - 4 bytes (`RoundTripIff`).

The documentation in `monitor.cc:10-15` says that hysteresis is planned and not implemented; the code implements it, and
the model follows the code.

## Model

| member | source | states |
|---|---|---|
| CrcTable.TableIsDivision | crc32.cc:49-93 | each of the 256 table entries is its index after eight steps of the division by the reflected polynomial |
| Crc32.TurnIsDivideByte | crc32.cc:103-104 | one turn of the table loop is the division of one byte, bit by bit |
| Crc32.Crc32 | crc32.cc:95-107 | for every start value and buffer the loop computes the checksum defined by bit-by-bit division |
| Crc32.ChecksumConcat | serial_interface_handler.cc:484-487 | a checksum continued over a second buffer is the checksum of both together |
| Crc32.DivideByteInjective | crc32.cc:103-104 | the update for a byte never maps two registers to one |
| Crc32.DivideByteSeparates | crc32.cc:103-104 | the update of a register never maps two bytes to one |
| Crc32.BurstDetected | crc32.cc:95-107 | buffers of one length that differ only inside four consecutive bytes have different checksums; one byte is a special case |
| CrcNumber.NumberInjective | serial_interface_handler.cc:496-497 | different checksums are written as different numbers |
| CrcNumber.NumberBits | serial_interface_handler.cc:496-497 | each of the 32 bits of the checksum is in its place in the number written: bit 4 j + b is place b of hexadecimal digit j |
| CrcValues.EntersAsNumber | crc32.cc:103-104 | a byte enters the register as the number it is |
| CrcValues.ZeroByte | crc32.cc:95-107 | the checksum of a single zero byte is 0xD202EF8D |
| CrcValues.LeadingZeroCounts | crc32.cc:95-107 | a zero byte in front changes the checksum, whatever follows |
| SerialMessages.SerialMessage.Discard | serial_message.cc:50-58 | nothing is left of the message |
| SerialMessages.SerialMessage.InitSenderMessage | serial_message.cc:71-79 | the message holds the text and the number of frames it takes |
| SerialMessages.SerialMessage.InitReceiverMessage | serial_message.cc:82-86 | an empty message that expects the announced number of frames |
| SerialMessages.SerialMessage.PopFrame | serial_message.cc:92-111 | takes the first fragment, at most the frame size, and reports when there was none |
| SerialMessages.SerialMessage.PushFrame | serial_message.cc:118-126 | appends a fragment and counts it |
| SerialMessages.FragmentsOf | serial_message.cc:71-111 | the fragments join to the text, are as many as announced, and only the last may be shorter than the frame size |
| SerialMessages.RoundTrip | serial_message.cc:71-151 | moving a text frame by frame gives it back, and both sides see its end at the last frame and not before |
| SerialRx.ChunkingIrrelevant | serial_interface_handler.cc:296-359 | what the receive automaton finds does not depend on the portions in which bytes arrive |
| SerialRx.RxFrames | serial_interface_handler.cc:302-347 | frames one after the other are found one after the other, and the automaton waits for the next start byte |
| SerialRx.EveryStreamRead | serial_interface_handler.cc:302-347 | any byte stream is, in one way only, frames and bytes outside of them, and a frame that breaks off; that is what the automaton finds |
| SerialFrames.ReadEncoded | serial_interface_handler.cc:461-589 | the receiver reads back mid, index, number and content of a written frame, with a matching checksum |
| SerialFrames.FrameLayout | serial_interface_handler.cc:461-499 | every byte of a frame in its place: start, type, three numbers in four decimal places, content, checksum in eight hexadecimal places, stop |
| SerialFrames.ReadRaw | serial_interface_handler.cc:542-589 | any raw frame is header, content and footer, or header and content when it is too short; it is intact exactly if the checksum of all but the last nine bytes is the number read |
| SerialFrames.DamageDetected | serial_interface_handler.cc:542-589 | damage inside four consecutive bytes of header and content never passes for an intact frame, whether or not the numbers of the header can still be read |
| SerialFrames.CodecRoundTrip | serial_interface_handler.cc:296-589 | any frames the format can carry, empty ones included, written in a row and read in any portions, arrive as they are and in order |
| SerialInterface.SerialInterfaceHandler.MidHandler | serial_interface_handler.cc:205-214 | mids run from 0 to 999 and start over |
| SerialInterface.SerialInterfaceHandler.Envelope | serial_interface_handler.cc:469-499 | header and footer make the content a frame, although the checksum is computed in two calls |
| SerialInterface.SerialInterfaceHandler.SendFrame | serial_interface_handler.cc:461-526 | exactly the bytes of the frame are written; a payload frame is kept for a repetition and starts the timer, an empty one ends the program |
| SerialInterface.SerialInterfaceHandler.SendConfirmFrame | serial_interface_handler.cc:384-404 | writes the confirmation of the frame last received and leaves both state machines alone |
| SerialInterface.SerialInterfaceHandler.SendPayloadFrame | serial_interface_handler.cc:410-416 | writes the frame under a new mid and expects its acknowledgement |
| SerialInterface.SerialInterfaceHandler.SendPayloadFrameFromMessage | serial_interface_handler.cc:661-670 | the next fragment of the message goes out |
| SerialInterface.SerialInterfaceHandler.ResendPayloadFrame | serial_interface_handler.cc:442-456 | the last payload frame goes out again, byte for byte |
| SerialInterface.SerialInterfaceHandler.ErrorInConfirmation | serial_interface_handler.cc:418-435 | three repetitions, then the message is given up |
| SerialInterface.SerialInterfaceHandler.FrameConfirmed | serial_interface_handler.cc:709-735 | the next frame, or completion and the next message |
| SerialInterface.SerialInterfaceHandler.RunSender | serial_interface_handler.cc:679-743 | the sender's half of the loop for every state |
| SerialInterface.SerialInterfaceHandler.RunReceiver | serial_interface_handler.cc:747-810 | the receiver's half: deliver and acknowledge, acknowledge, or refuse and forget |
| SerialInterface.SerialInterfaceHandler.SendLoop | serial_interface_handler.cc:674-817 | both halves, the sender's first |
| SerialInterface.SerialInterfaceHandler.DigestIntactPayload | serial_interface_handler.cc:600-620 | an intact payload frame is taken in; an empty one ends the program |
| SerialInterface.SerialInterfaceHandler.DigestDamagedPayload | serial_interface_handler.cc:593-599 | a damaged payload frame is refused |
| SerialInterface.SerialInterfaceHandler.DigestConfirmation | serial_interface_handler.cc:622-655 | a confirmation moves the sender; a damaged one is ignored |
| SerialInterface.SerialInterfaceHandler.ParseFrame | serial_interface_handler.cc:542-589 | numbers, content and intactness of a raw frame, also of one shorter than header and footer |
| SerialInterface.SerialInterfaceHandler.DigestFrame | serial_interface_handler.cc:533-657 | a raw frame has the effect of the frame it encodes |
| SerialInterface.SerialInterfaceHandler.SendMessage | serial_interface_handler.cc:948-961 | the message is queued and the send loop runs once, which starts the oldest message if the sender is idle; an empty one then ends the program |
| SerialInterface.SerialInterfaceHandler.ConfirmationTimeoutHandler | serial_interface_handler.cc:833-855 | four repetitions, then the message is given up |
| SerialInterface.SerialInterfaceHandler.FtoTimeoutHandler | serial_interface_handler.cc:856-866 | a refusal is written |
| SerialInterface.SerialInterfaceHandler.HandleByteOutside | serial_interface_handler.cc:304-323 | a start byte begins a frame, any other byte is refused |
| SerialInterface.SerialInterfaceHandler.HandleInputData | serial_interface_handler.cc:296-359 | the byte loop has the effect of the station hearing the bytes one by one, and writes the same bytes |
| SerialStation.ActSettles | serial_interface_handler.cc:418-456 | between two events the timer runs exactly while a confirmation is awaited, and the counters are within 0..3 and 0..4 |
| SerialRetransmission.ActEffect | serial_interface_handler.cc:674-855 | every event leaves the current frame alone, repeats it at the cost of one repetition, replaces it by the next fragment or the next message, or ends it |
| SerialRetransmission.AtMostEightWrites | serial_interface_handler.cc:418-456 | over any run no payload frame is written more than eight times |
| SerialRetransmission.BudgetCanBeUsed | serial_interface_handler.cc:418-855 | the bound is exact: from every waiting station a run uses up all its repetitions |
| SerialRetransmission.EightWritesReached | serial_interface_handler.cc:418-855 | some run writes the first frame of a message eight times |
| SerialCounters.CountersAre | serial_interface_handler.cc:418-435 | over any run the counters are the bad confirmations and the timeouts since the last acknowledgement, each starting over when it gives a message up |
| SerialCounters.AckRestores | serial_interface_handler.cc:709-710 | the acknowledgement awaited gives all repetitions back: a frame under way afterwards has seven left |
| SerialCounters.AckedFrameEightTimes | serial_interface_handler.cc:709-735 | after any run: a frame started by an acknowledgement is, on some continuation, written exactly eight times |
| SerialCounters.GivenUpIsOver | serial_interface_handler.cc:418-435 | what was given up is not written again, whatever happens |
| SerialCounters.WritesApart | serial_interface_handler.h:173-174 | under silence alone a frame is written five times, under refusals alone four times |
| SerialWrites.FrameIsFragment | serial_interface_handler.cc:661-735 | over any run: the frame a station waits for is fragment k of the message it took last, numbered k of as many as there are, its mid the count of frames modulo 1000; the messages behind it wait in order |
| SerialWrites.AnswersAre | serial_interface_handler.cc:384-404 | over any run: the confirmations written are an acknowledgement of an intact payload frame, or a refusal with the code CS, NF or FTO, under the numbers of the frame that came in last |
| SerialWrites.DeliveredIsGathered | serial_interface_handler.cc:593-620 | over any run, whatever comes in: delivered is what was gathered from intact payload frames since the last with index 1, when as many are there as announced; a damaged one undoes it |
| SerialStall.StallsIff | serial_interface_handler.cc:418-435 | over any run, messages wait with nothing under way exactly if a message was given up while others waited, at the fifth timeout or the fourth bad confirmation, and nothing has made the send loop run since |
| SerialStall.StallLasts | serial_interface_handler.cc:674-695 | in a stall no payload is written, however long; what makes the send loop run starts the oldest message waiting, unless it ends the program |
| SerialStall.SilenceStalls | serial_interface_handler.cc:833-855 | from every station that waits with others in its queue, silence leads to a stall with the queue as it was |
| SerialStall.EndsIff | serial_interface_handler.cc:503-620 | over any run, the program has ended exactly if an empty payload frame arrived or an empty message was the next to be sent, given at rest or after waiting |
| SerialLossless.FrameArrives | serial_interface_handler.cc:600-801 | the one frame of a direction arrives: taken in, delivered if it was the last, acknowledged |
| SerialLossless.AckArrives | serial_interface_handler.cc:704-736 | the one acknowledgement of a direction arrives: the next frame is under way, or the next message, or nothing is left |
| SerialLossless.StepKeeps | serial_interface_handler.cc:674-817 | every event keeps the invariant of the link: at most one frame of a direction on the lines, and it is the one awaited |
| SerialLossless.Lossless | serial_interface_handler.cc:533-817 | in every reachable state, both ways: what is delivered is a prefix of what was submitted, and all of it once the lines are empty |
| SerialLossless.EverythingGetsThrough | serial_interface_handler.cc:533-817 | from any reachable state, arrivals in any order empty the lines after a number of arrivals fixed beforehand, with everything delivered |
| SerialBytes.ActFits | serial_interface_handler.cc:469-499 | a station given texts the format can carry writes only frames the format can carry, whatever happens to it |
| SerialBytes.HearRefines | serial_interface_handler.cc:296-359 | a byte is a step inside a frame, or the arrival of the whole frame |
| SerialBytes.LosslessBytes | serial_interface_handler.cc:296-817 | the promise of the link byte by byte, for any division of the bytes into portions |
| SerialLossy.ActDoes | serial_interface_handler.cc:591-817 | on every event the sender writes at most the current message's frame, and the receiver delivers and acknowledges exactly intact payload frames |
| SerialLossy.AckIsForCurrent | serial_interface_handler.cc:701-711 | an acknowledgement under the right mid is for the current message exactly if it is less than 1000 messages old |
| SerialLossy.LossyDelivery | serial_interface_handler.cc:591-742 | lines that lose or visibly damage frames, any timers, both ways: what is delivered are the messages given to the other side in order, each any number of times |
| SerialLossy.CompletedWereDelivered | serial_interface_handler.cc:701-722 | both ways: every message completed was itself delivered, none is completed twice, and those reported as sent are the own requests among them, if no acknowledgement is 1000 messages old |
| SerialLimits.StaleAckCompletes | serial_interface_handler.cc:205-214 | a run in which an acknowledgement 1000 messages old completes a message never delivered |
| SerialLimits.FragmentRun | serial_interface_handler.cc:802-806 | a run in which a message of several frames, damaged once, is delivered in part |
| SerialLimits.FaithfulIffSingleFrame | serial_interface_handler.cc:602-609 | a message is never delivered other than whole, over all runs with loss and damage, exactly if it fits in one frame |
| Procedures.UninterruptedPlace | core_function_procedure.cc:135-174 | without a reboot step s shows line s - d + 1, d being the last update of the device controller before it, or line s |
| Procedures.ReplayAgrees | core_function_procedure.cc:47-91 | the place found after a reboot is the place left, except the display line at an update of the device controller |
| Procedures.AgreesAfterwards | core_function_procedure.cc:260-268 | after that step the places agree in any case |
| ProcedureRecovery.StepKeeps | core_function_procedure.cc:113-441 | every event, crashes and boots included, with or without assertions, keeps file, engine, results, display line and starts consistent |
| ProcedureRecovery.RecordsAreTrue | core_function_procedure.cc:113-328 | the starts, results and resumptions the other properties speak of are those that happened in the run |
| ProcedureRecovery.SuccessIsComplete | core_function_procedure.cc:113-257 | a procedure that succeeds has, over any reboots, one good result per step, in order, the one returned last |
| ProcedureReply.FailureIsReported | core_function_procedure.cc:118-127 | over any run: a step that returned something other than 200 ends the procedure with 500 and one result for each step up to it, as the steps returned them, the failed one last |
| ProcedureReply.EndIsReported | core_function_procedure.cc:118-257 | over any run: status and results of the reply for every way a procedure ends: a failed step, a call that cannot be created, too many retries, a request refused as a whole, all steps done, counted or not, a step without description |
| ProcedureRecovery.SuccessIsCounted | core_function_procedure.cc:212-228 | the count of executions rises by one with every success, and with nothing else |
| ProcedureRecovery.LimitKept | procedure_step_handler.cc:203-257 | over any run, crashes included, a procedure succeeds no more often than its limit says, but once in any case |
| ProcedureRecovery.ResumesWhereInterrupted | core_function_procedure.cc:32-93 | after a crash the same step is next, with the results before it, one retry later |
| ProcedureRecovery.NotedNotStarted | procedure_step_handler.cc:187-193 | a step noted but not shown yet is taken up with retry 1, whatever the retry before |
| ProcedureRecovery.UpdateGoesOn | procedure_step_handler.cc:62-80 | after a step that updates this device the next boot goes on with the step after it, with its result and retry 1 |
| ProcedureRecovery.RequestBegins | core_function_procedure.cc:361-394 | a request begins with the first step and retry 0; the first with a limit lists the procedure, even when it has no description |
| ProcedureRecovery.StartsBounded | core_function_procedure.cc:306-347 | the starts rise in step and retry; no step starts more than four times; without assertions resumptions are bounded |
| ProcedureRecovery.StepForward | core_function_procedure.cc:32-43 | the pair of step and retry on disk never falls, and rises with every resumption |
| ProcedureRecovery.LastChance | core_function_procedure.cc:336-347 | a process that runs with the last retry keeps it from step to step: whichever step it comes to is given up at its first crash |
| ProcedureRecovery.ReadStepKeeps | procedure_step_handler.cc:62-80 | the result an update left behind counts as that of the step under way, and is read once |
| ProcedureRecovery.AssertBlocksLastStep | core_function_procedure.cc:40-43 | with assertions, every boot in the last step ends the program |
| ProcedureRecovery.AssertsMatterIff | core_function_procedure.cc:34-59 | assertions make a difference for an event exactly if it is a boot and no step follows the one noted: then they end the program that would run without them |
| ProcedureRecovery.AssertsHarmless | core_function_procedure.cc:34-59 | a run without such a boot is the same with and without assertions |
| ProcedureOutcome.CanSucceedIff | core_function_procedure.cc:331-441 | some run succeeds exactly if the request is well-formed and not used up, its success can be counted, and each step has a description or follows an update of the device controller |
| ProcedureHandover.LeavesResultsIff | core_function_procedure.cc:361-381 | some run of a procedure comes to an end with results left on disk exactly if its limit is below 1, it is not on the list, and its well-formed request begins with a described step |
| ProcedureHandover.ForeignResults | procedure_step_handler.cc:145-176 | a procedure requested after that, crashed in its first step and taken up again succeeds with the results of the other before its own |
| ProcedureHandover.CompleteIff | xml_request.cc:30-47 | what is requested next is complete if it succeeds, for every procedure and run, exactly if nothing was left on disk |
| ProcedureHandover.SessionsComplete | core_function_procedure.cc:113-257 | over any number of different procedures that leave nothing behind, each that succeeds has one good result for each of its own steps |
| CoreFunctionProcedures.StepFile.NoteCurrentProcStep | procedure_step_handler.cc:145-176 | notes step and retry, and forgets the results when the procedure is over |
| CoreFunctionProcedures.StepFile.NoteStepAndResults | procedure_step_handler.cc:187-193 | notes a new step with the results so far and retry 0 |
| CoreFunctionProcedures.StepFile.GetCurrentProcStep | procedure_step_handler.cc:21-98 | returns the step to continue with, or -1, and takes in the result of an update |
| CoreFunctionProcedures.StepFile.CheckExecExceeded | procedure_step_handler.cc:203-257 | whether the procedure was executed often enough; one not listed is put on the list and goes ahead |
| CoreFunctionProcedures.StepFile.IncrementExecAttribute | procedure_step_handler.cc:265-296 | one more execution, unless the procedure is not on the list |
| CoreFunctionProcedures.CoreFunctionProcedure.Resume | core_function_procedure.cc:32-93 | with or without assertions, a new process continues, or ends, as the specification of the constructor says |
| CoreFunctionProcedures.CoreFunctionProcedure.SkipTo | core_function_procedure.cc:47-91 | the loop over the steps done finds the place again |
| CoreFunctionProcedures.CoreFunctionProcedure.ShutdownProcedure | core_function_procedure.cc:212-241 | the file says that no procedure runs; a success is counted, or turned into a failure when it cannot be |
| CoreFunctionProcedures.CoreFunctionProcedure.StartCall | core_function_procedure.cc:331-441 | gives up after too many retries, refuses a request without id or description, with a limit that is no number or with a used up one, asks the display, or shuts down when nothing is left |
| CoreFunctionProcedures.CoreFunctionProcedure.GuiQueryFinished | core_function_procedure.cc:292-328 | the start is noted before the call begins; a refused call shuts down |
| CoreFunctionProcedures.CoreFunctionProcedure.ProcStepFinished | core_function_procedure.cc:113-209 | remembers the result and goes on, restores the display, or shuts down |
| CoreFunctionProcedures.CoreFunctionProcedure.DcUpdateGuiRestoreQueryFinished | core_function_procedure.cc:260-289 | goes on after an update of the device controller |
| Scheduler.LessIsStrictOrder | xml_processor.cc:17-28 | the comparator is a strict total order on priority and time stamp |
| Scheduler.TopIsGreatest | xml_processor.cc:133-135 | the request taken is greater than all others waiting |
| Scheduler.StartsMostUrgent | xml_processor.cc:126-148 | in every reachable state the end of a request moves its own lane on, and no other: the most urgent of those waiting starts, the first among equals |
| Scheduler.NobodyBlocked | xml_processor.cc:69-95 | an empty slot has an empty queue; no guiIO call and no request of the device controller waits behind the running script, and nothing else runs beside it |
| Scheduler.ArrivalGoes | xml_processor.cc:69-95 | in every reachable state: a request that is no guiIO call starts at once in the main lane whenever it is free; where the others start or wait; no other lane is touched |
| Scheduler.AcceptedIsArrived | xml_processor.cc:38-96 | while the program runs, the requests accepted are exactly those that arrived, under the time stamps of their arrival |
| Scheduler.ExactlyOnce | xml_processor.cc:93-157 | every request that arrived is at all times in exactly one place, waiting, running or finished, and nothing else is |
| Scheduler.StartedInOrder | xml_processor.cc:15-29 | in every lane a request that came earlier and is at least as urgent as one started was started earlier |
| Scheduler.GuiStartsAtOnce | xml_processor.cc:72-78 | a guiIO call made while something runs starts at once unless another guiIO call runs |
| Scheduler.EndsExactlyWhen | xml_processor.cc:74 | the program ends exactly when a guiIO call arrives with one running and one waiting |
| XmlProcessors.XmlProcessor.ParseStream | xml_processor.cc:38-96 | a request goes to its lane under its own time stamp and summed priority; one that does not parse only takes the time stamp |
| XmlProcessors.XmlProcessor.ExecuteTopRequest | xml_processor.cc:127-139 | the greatest of the main queue runs |
| XmlProcessors.XmlProcessor.ExecuteNextHighPrioRequest | xml_processor.cc:99-110 | the greatest of the device controller's queue runs |
| XmlProcessors.XmlProcessor.ExecuteNextGuiRequest | xml_processor.cc:113-124 | the waiting guiIO call runs |
| XmlProcessors.XmlProcessor.RequestFinished | xml_processor.cc:142-148 | the next request of the main lane starts |
| XmlProcessors.XmlProcessor.HighPrioRequestFinished | xml_processor.cc:151-157 | the next request of the device controller starts |
| XmlProcessors.XmlProcessor.GuiRequestFinished | xml_processor.cc:160-166 | the next guiIO call starts |
| Queries.RunAsFated | query_client_serial.cc:100-282 | the client's state is what the first completion of each query, read off the events alone, says |
| Queries.RunAsMade | query_client_serial.cc:100-203 | over any run: a query pending is the one made under its id, and the timers running are those started while their query was pending and not stopped by its end; only a query nobody takes leaves its timer running |
| Queries.TimerRunsIff | query_client_serial.cc:181-203 | over any run: the timer of a pending query runs exactly if it was made with a timeout and was sent while pending |
| Queries.EveryQueryAccounted | query_client_serial.cc:100-116 | ids are the odd numbers in turn, and every query made is pending, lost or finished, one of them |
| Queries.FinishedOnce | query_client_serial.cc:206-282 | no query finishes twice, and each with its first completion |
| Queries.RepliesParse | query_client_serial.cc:220-225 | no query is lost unless a reply does not parse |
| Queries.LateChangesNothing | query_client_serial.cc:211-218 | what comes late, or for an even id, changes nothing |
| Queries.FinishesTwiceIff | query_client_serial.cc:173-177 | executing a query while offline finishes it twice exactly if it was finished |
| Queries.NoTimeoutUnlessAsked | query_client_serial.cc:194-203 | a query made without a timeout never times out |
| QueryClients.QueryClientSerial.CreateQuery | query_client_serial.cc:101-116 | a new pending query under the next odd id |
| QueryClients.QueryClientSerial.Execute | query_client_serial.cc:149-178 | a query that cannot be sent finishes and leaves the map |
| QueryClients.QueryClientSerial.OnQuerySent | query_client_serial.cc:181-203 | starts the timeout of a pending query that has one |
| QueryClients.QueryClientSerial.OnResponseReady | query_client_serial.cc:206-226 | finishes a pending query with its reply, or loses it when the reply does not parse |
| QueryClients.QueryClientSerial.OnQueryTimeout | query_client_serial.cc:229-256 | finishes a pending query with a timeout |
| QueryClients.QueryClientSerial.OnQueryError | query_client_serial.cc:259-282 | finishes a pending query with an error |
| StateVariables.AcceptedIsAsked | state_variable.cc:61-106 | the values a variable takes in are those asked of it, read off the events, without repetitions |
| StateVariables.AskedOfMaster | state_variable.cc:66-79 | until all have submitted, the master is asked for what was requested of it but for ready |
| StateVariables.UnknownAtFirst | state_variable.cc:27-29 | at first every value is unknown, and a request for anything else is sent at once |
| StateVariables.Publication | state_variable.cc:61-195 | with successful replies the values sent are a subsequence of those requested (for the master, with ready held back and asked again as the barrier says), no two in a row equal, and the latest is confirmed when none is under way |
| StateVariables.RecoversAfterSuccess | state_variable.cc:137-195 | with any replies the values sent are a subsequence of those requested, and the latest is confirmed once the last reply was a success and none is under way |
| StateVariables.ConfirmedIff | state_variable.cc:61-195 | whatever happened before a request and whatever follows but another: once none is under way, it is confirmed exactly if the last reply since was a success, or none was and it had been confirmed before |
| StateVariables.GetsThroughIff | state_variable.cc:83-195 | the next success confirms a request made at rest exactly unless it repeats the latest, unconfirmed; one made behind a query exactly if that query succeeds or the value was confirmed already |
| StateVariables.LostRequests | state_variable.cc:83-158 | two runs that lose a request: repeated after a failure, and waiting behind a query that fails |
| StateVariables.OneAtATime | state_variable.cc:90-195 | of the values sent all but at most one have been replied to |
| StateVariables.ReadyBarrier | state_variable.cc:66-79 | the master never sends ready before all have submitted, itself included |
| StateVariables.ReadyExactlyOnce | state_variable.cc:197-206 | when all have submitted and the master is asked for nothing else since, ready is its latest value and is sent exactly once |
| StateVariables.EverySuccessAsksAgain | state_variable.cc:197-206 | once all have submitted, every success of another variable makes the master's latest value ready, and sends it exactly if that is a change and none is under way |
| StateVariables.ReplayIsLatest | state_variable.cc:36-59 | told again are the master, last, and before it exactly the variables that had a success; of each at rest after a success the latest value asked of it |
| StateVariableObjects.Barrier.CreateReplayQuery | state_variable.cc:36-59 | all that have submitted, once, and the master as the last, with their confirmed values |
| StateVariableObjects.StateVariable.SetState | state_variable.cc:62-108 | holds back the master's ready, swallows repetitions, queues one value behind a query, or sends |
| StateVariableObjects.StateVariable.OnQueryFinish | state_variable.cc:137-207 | confirms and goes on with the pending value, and lets the master be ready when the last variable has submitted |
| NulSplitter.SplitIsUnique | gio_istream_adapter.cc:97-106 | splitting at zeros is the one way to read a stream as terminated zero-free pieces and a rest |
| NulSplitter.DrainedIsSplit | gio_istream_adapter.cc:102-106 | the lists popped after a read are, joined, the pieces of what was kept with what was read |
| NulSplitter.PortionsIrrelevant | gio_istream_adapter.cc:72-111 | for any division into reads: lists emitted are the pieces, chunks kept are the rest, no chunk is empty or has a zero |
| NulSplitter.EndOfFile | gio_istream_adapter.cc:86-93 | at the end of the file the rest is emitted too |
| NulSplitter.ReadsBackIff | byteslist_istream.cc:20-40 | reading a list gives its concatenation exactly if no later chunk begins with 0xFF, where char is signed |
| NulSplitter.ReadsUpTo | byteslist_istream.cc:20-40 | otherwise a reader gets everything before the first chunk that begins with 0xFF |
| GioIstreamAdapters.GioIstreamAdapter.BytesListCheckZero | gio_istream_adapter.cc:22-42 | the first zero of the last chunk, or -1 |
| GioIstreamAdapters.GioIstreamAdapter.PopBytesList | gio_istream_adapter.cc:47-70 | cuts the list at the zero and keeps what follows it |
| GioIstreamAdapters.GioIstreamAdapter.ReceivedBytes | gio_istream_adapter.cc:72-111 | a read emits every complete list and keeps the rest |
| GioIstreamAdapters.BytesListIStream.Underflow | byteslist_istream.cc:20-40 | goes on to the next chunk or reports the end |
| GioIstreamAdapters.BytesListIStream.ReadAll | byteslist_istream.cc:5-40 | a reader gets what the specification of reading back says |
| UsbFraming.RoundTrip | usbserial_interface_handler.cc:275-308 | payloads written one after the other and read in any portions come out as they went in, with nothing left behind |
| UsbFraming.EncodedAs | usbserial_interface_handler.cc:336-345 | four bytes of length, the most significant first, and the payload |
| UsbFraming.RoundTripIff | usbserial_interface_handler.cc:259-273 | a list of payloads gets through exactly if each is shorter than 2^32 - 4 bytes |
| UsbFraming.ReadAsSentIff | usbserial_interface_handler.cc:336-374 | whatever the channel takes of each frame and in whatever portions it is read: what is read is what was sent exactly if every frame was taken whole and is short enough |
| UsbInterface.LagIsFailures | usbserial_interface_handler.cc:378-395 | no message is lost or overtaken, as many wait as writes have failed, and reported as sent are the own requests written |
| UsbInterface.WrittenAtOnceIff | usbserial_interface_handler.cc:496-527 | a message is written by its own sending exactly if no write has failed |
| UsbInterface.OfflineRefuses | usbserial_interface_handler.cc:500-506 | while offline messages are neither written nor kept nor reported, however many are sent |
| UsbInterface.UsbInterfaceHandler.HandleInputData | usbserial_interface_handler.cc:275-308 | the byte loop emits the frames found and keeps the incomplete one |
| UsbInterface.UsbInterfaceHandler.SendFrame | usbserial_interface_handler.cc:336-374 | written is what the channel takes: the length once, the text until it is through or an error comes; the frame is whole exactly if both are |
| UsbInterface.UsbInterfaceHandler.SendLoop | usbserial_interface_handler.cc:378-395 | the oldest message is written and an own request reported, or it stays when writing fails |
| UsbInterface.UsbInterfaceHandler.SendMessage | usbserial_interface_handler.cc:496-527 | the message is queued and the oldest sent; the caller is told when that fails |
| Monitors.Hysteresis | monitor.cc:114-171 | the last value outside the band decides whether the alarm is on |
| Monitors.MonitorsAreAsWatched | monitor.cc:83-171 | over any run: each monitor has the thresholds and the slope configured last, corrected where they contradict each other, and is in the state that the values since it was added say |
| Monitors.LinesAre | monitor_manager.cc:91-168 | over any run: the file of the manager has every value, and an alarm after it exactly when the state changed |
| Monitors.LogIsRun | monitor_manager.cc:126-168 | over any run: the log gets exactly these entries, warnings, levels and flushes; so what holds of the log handler holds of it |
| Monitors.AlarmAccounting | monitor_manager.cc:126-155 | the counter is the number of monitors in alarm, and each monitor's alarms alternate from appear on |
| Monitors.LevelRaisedAndRestored | monitor_manager.cc:141-155 | while a monitor is in alarm the level is DEBUG and no entry waits, unless the level was set or configured since; afterwards it is the one last set without an alarm |
| Monitors.NobodyInterferes | monitor_manager.cc:141-155 | without changes from outside the level is DEBUG while a monitor is in alarm, and the original one whenever none is |
| Monitors.EveryAlarmWritten | monitor_manager.cc:126-166 | whatever the level and whatever else is logged, every alarm of a monitor is in both files, in order, and none waits or is lost |
| Monitors.RoundIsRun | monitor_manager.cc:91-112 | a round of the timer is a part of a run, so what holds over all runs holds over all rounds |
| MonitorObjects.Monitor.SetAlarmThresholds | monitor.cc:83-111 | sets the thresholds, corrected where they contradict the slope |
| MonitorObjects.Monitor.EvaluateAlarms | monitor.cc:114-171 | evaluates a value and emits an alarm exactly when the state changes |
| MonitorObjects.MonitorManager.AddMonitor | monitor_manager.cc:61-66 | one more monitor is watched |
| MonitorObjects.MonitorManager.SlotAlarm | monitor_manager.cc:126-168 | warns, counts, raises or restores the level at the ends with a warning each, and writes the alarm to both files |
| MonitorObjects.MonitorManager.TimeoutHandler | monitor_manager.cc:91-112 | every monitor is evaluated and its value written to both logs once, in order |
| LogRing.NothingUnaccounted | log_handler.cc:62-144 | every accepted entry is at all times written, buffered, overwritten or dropped, one of them |
| LogRing.DebugWritesAll | log_handler.cc:70-106 | as long as the level is DEBUG, the file gets every entry accepted, in order, and none waits or is lost, whatever becomes of the size |
| LogRing.WrittenOrWaiting | log_handler.cc:70-106 | at any level: entries of at least the level are in the file at once, in order, and those below it wait, in order |
| LogRing.WaitingEnds | log_handler.cc:70-144 | an error or a flush writes the last of those waiting, oldest first, the error itself last; a new size loses them, the same does not |
| LogHandlers.LogHandler.InsertIntoBuffer | log_handler.cc:62-68 | the ring holds the last entries, the new one included |
| LogHandlers.LogHandler.WriteBuffered | log_handler.cc:133-140 | the last entries are written, oldest first |
| LogHandlers.LogHandler.Flush | log_handler.cc:133-144 | the last entries are written and the ring is empty |
| LogHandlers.LogHandler.LogEntry | log_handler.cc:70-106 | an entry is buffered, written after what is buffered, or written at once; an unknown level is refused |
| LogHandlers.LogHandler.OnConfigChanged | log_handler.cc:224-258 | a new size drops what is buffered, the same size does not, and one that cannot be read always does |

## Left out

- SerialLossy.LossyDelivery: for messages that fit in one frame, because it is false for all others, as `FaithfulIffSingleFrame` shows.
- SerialLossy.CompletedWereDelivered: under the bound on the age of acknowledgements, because it is false without, as `StaleAckCompletes` shows.
- CoreFunctionProcedures.CoreFunctionProcedure.StartCall: does not model a last result other than 200 (`core_function_procedure.cc:383-388`), which only a failed update of this device leaves behind: the program then shuts the procedure down and starts its next step at once.
- SerialFrames.DamageDetected: damage longer than four consecutive bytes may share a checksum.
- SerialBytes.LosslessBytes: texts that are not empty, without the byte 0x04 and of at most 9999 frames, which is what the format can carry.
- StateVariables.ReadyExactlyOnce: the number of variables is the one the program is built for.
- Ports, files, timers, sockets, processes and the main loop: their callbacks are events, and a callback is one step.
- XML parsing and printing, configuration lookup, signature and access checks: requests, results and parameters are opaque values.
- Numbers in damaged frames: what the stream extraction yields on anything but digits is an arbitrary function of the frame,
  except that the checksum, which is read first, depends on the footer alone.
- Counters of the serial interface that its constructor leaves unset are taken to be 0.
- The copy of a sent frame kept in a `Glib::ustring` is taken to be the bytes of the frame, also where a fragment cuts a character.
- Conversion errors of a received message, the switches for skipping or faking checksums, and the handler modes other than normal.
- Messages handed to the application may cause new messages; they are events that follow.
- Procedures: within a run every request is for the same procedure; different ones follow each other from end to request
  (`ProcedureHandover`), each with any entry in the list. Left out are a second procedure requested while one is under way,
  a missing save file, a list of executions that has an id twice or does not parse, and a crash between noting a step and
  deleting the result of an update.
- Requests that finish while they are being started: a start followed by a finish.
- Order among several waiting guiIO calls: there is never more than one.
- Overflow of the counters for requests, task ids and messages.
- Reconnecting of the USB line, and what the other side makes of a frame of which writing failed halfway.
- `StateVariable::set_state` with a callback, and `LogHandler::set_buffer_size`, which resizes the ring without resetting its position.
- The vector of log entries is replaced by a new array when it is resized; its old contents are dead by then.
- The end mark of monitor thresholds is that of a 64-bit `long`.
- Monitors are added before they are first evaluated, and once. What a single monitor logs (contradicting thresholds, values
  not valid) is not written by the model; the texts of the manager's lines are stand-ins.
- String utilities, the simple cipher, id mapping, disk cleanup and watchdog file lists: easy, or dependent on libraries not seen.
