# Sierra Wireless RIL and GPS HAL: verified models of the stateful cores

This Dafny project models the self-contained cores of an Android vendor radio layer for Sierra modems and
proves what they are for. Everything else in the radio layer is a handler around a modem SDK; the cores below
carry its state, its concurrency, its linked structures and its arithmetic.

| Modules | Core |
|---|---|
| `AtLines`, `AtResponse`, `AtDispatch`, `AtLateLines`, `AtProtocol`, `AtStatus`, `AtClosedCall`, `AtStream`, `AtFraming`, `AtPrinted`, `AtStaleLines`, `AtReader`, `AtConversation` | the AT command channel |
| `EventOrder`, `RequestQueue`, `QueueRuns`, `QueueSteps` | the event and request queues and their runner |
| `UsbState`, `UsbProtocol`, `StaleDescriptors`, `EndpointPairing`, `EndpointTables`, `DroppedTtys` | the USB modem scanner |
| `GregorianTime`, `GregorianOrder`, `Gsv`, `GsvGroups` | `mkgmtime`, the NMEA tokenizer, the satellite list |
| `AtTok`, `Fcp`, `ByteBits`, `GpsPackets`, `GpsWire`, `EccList` | tokenizer, SIM file header conversion, GPS packets, emergency numbers |

`Wrappers`, `Strings` and `Arithmetic` hold shared helpers. `dafny verify dfyconfig.toml` checks the project.

## How the models are built

Code that updates structures in place is modelled as Dafny classes and arrays (the line buffer, the response
list, the two queues, the tokenizer's buffer, the USB tables, the SIM response, the packet buffers). Each
method is proved against a function on values, and the properties are proved about those functions. What those
functions mean is said apart from them: by characters and bytes (`AtPrinted`, `AtTok`, `GpsWire`), by the lines of a
conversation (`AtConversation`), by the entries of a listing (`EndpointTables`), and by the steps of a run
(`AtStatus`, `QueueSteps`).

Concurrency is modelled by step systems. In `AtProtocol` one step of a command thread is one region of source
between taking and releasing `commandmutex`, and a condition wait splits a region; the critical section of the
reader has no wait inside and is one step. In `UsbProtocol` looking at the shared structure without the mutex
is a step of its own. In `QueueRuns` one critical section of one of the two queues is one step, and whoever
schedules an event may have read the clock any time before that. A run is any sequence of steps of any
number of threads, with spurious wake-ups, timeouts and arbitrary modem input, and the results are about
every state of every run. The step functions and the in-place methods share their specifications:
`AtDispatch.Route`, `EventOrder.Insert`, `UsbState.Scanned` and `UsbState.Dropped`.

## Main results

* **No lost wake-up, no pending error.** A response is pending only between install and clean-up of the thread
  that holds `requestmutex`; sleepers on either condition variable always have a thread or the modem to wake
  them; `AT_ERROR_COMMAND_PENDING` is never returned (`AtProtocol.CommandChannelSafety`, `NoDeadlock`).
* **Bytes to lines.** Any non-empty lines, each ended by any run of carriage returns and line feeds, are exactly the
  lines returned, however the bytes are chunked, if none is overlong or looks like a prompt
  (`AtPrinted.PrintedLinesAreReturned`). On all streams they are those of a function of buffer and chunks
  (`AtFraming.LineReader.ReadLine`), and without NULs and overlong lines that function differs from the stream only
  behind a prompt, in a way that is stated exactly (`ReadIs`, `PromptLeaves`).
* **Lines to answers.** Whatever lines are returned, each has one fate (`AtReader.ReadToEnd`, `EachLineOnce`). What is
  written to the modem, what the unsolicited handler is told and what the caller is handed is said by the lines
  alone (`AtConversation.ConversationIs`, `AtReader.RunAnswersCommand`).
* **What a call returns.** The status of every finished call follows from the steps of the run: the error of
  writeline, a wait that timed out, or the reader closed by the time of the hand-over (`AtStatus.CallStatus`). A
  response is handed out exactly when the command was written and the status is 0 or CHANNEL_CLOSED, exactly once,
  and is the answer in the lines read since (`AtProtocol.CallResult`, `EveryResponseOnce`).
* **Queues.** Every event is in exactly one place, requests are first in first out, only cancel requests are ever
  taken out of their order, each of these is completed by exactly one event, which bears its token
  (`QueueRuns.CancelledAreCompleted`), and events run in deadline order, never early (`QueueRuns.EveryEventOnce`,
  `RequestsAreFifo`, `EventsRunInTime`). A pass of the runner takes the first event if its instant is past and the
  first request, and what it takes is what runs next (`QueueSteps.TakeTakes`, `DueEventRuns`, `FirstRequestRuns`).
  The list is doubly linked, and the stale `prev` of its head is never followed: it is not part of the invariant
  under which every method is proved.
* **`mkgmtime`** equals a year-by-year and month-by-month Gregorian count exactly when the year for which it
  counts leap days satisfies `CountsRight`, in particular from 1969 on (`GregorianTime.MkGmTimeIsCalendar`). Over the
  whole range of a `short` it keeps the order of date-times with exactly the exceptions that `Folded` names
  (`GregorianOrder.OrderedExactly`).
* **USB.** A cached descriptor implies a working modem, the modem becomes working exactly by a second equal good
  scan, every descriptor is in one place or closed once (`UsbProtocol`), a cached descriptor is that of the tty the
  table names exactly if the scans since its thread looked say so (`StaleDescriptors.MatchesExactly`), a thread uses
  the descriptor of its own slot (`UsesItsOwn`), and endpoints and ttys are paired by rank whatever the listing order
  (`EndpointPairing`, `EndpointTables.TableIs`).
* **Codecs.** Printed AT lines with any white space in them, GSV groups, SIM file headers in hex and GPS packets are
  read back as written, in any order, chunking or letter case that the format allows (`AtTok`, `GsvGroups`, `Fcp`,
  `GpsPackets`).

## Findings

Where the code falls short of what one would expect, the model keeps the code. Each entry names the lemma with
the exact condition and, where the condition alone does not show it, the one with an input.

* `mkgmtime` truncates its leap-day quotients toward zero, so it is right exactly for the leap years that
  `CountsRight` describes (`GregorianTime.MkGmTimeIsCalendar`). New Year's Day of 1968 comes out a day late
  (`WrongBefore1969`).
* For the same reason two date-times are out of order exactly if they are the leap day of a year up to 1968 and the
  day after it, at the same time of day or an earlier one, and then equal at the same one
  (`GregorianOrder.OrderedExactly`). 29 February and 1 March 1968 are such a pair (`LeapDayCollides`).
* The carry test in `enqueueRILEvent` is `>`, so a deadline holds 1 000 000 000 nanoseconds exactly if those of
  clock and delay add up to that (`EventOrder.DeadlineIsExact`). List order still agrees with real time
  (`OrderAgrees`), and exactly such an event is due already at, not after, its instant (`DueExactly`).
* A call that ends with AT_ERROR_CHANNEL_CLOSED hands out a response exactly if its command had been written
  (`AtProtocol.CallResult`); `AtClosedCall.ClosedCallHasResponse` is a run in which it does.
* A later final result overwrites an earlier one and its success flag until the command thread gets the mutex: the
  line handed over is the first final one exactly if there is no second one (`AtLateLines.FinalIsTheFirstExactly`).
  After OK and ERROR the response is that of a failure (`LaterFinalWins`), after OK, ERROR and OK it is that of a
  success again (`FirstTextReturns`). The text of the earlier one leaks: one leaks exactly if there is a second final
  line (`TextsAddUp`).
* In the same window lines may still join the answer, although the source calls them unsolicited. The answer is the
  one that had come with the first final result exactly if the later lines are as `AtLateLines.Unaffected` says
  (`AnswerEndsWithFinalExactly`); `LateLineJoins` is a line that is not.
* An SMS header is lost at the end of the lines exactly if the number of headers at the end is odd
  (`AtReader.HeaderIsLostExactly`); a stream of one header never reaches the handler (`LoneHeaderIsLost`).
* Behind a prompt the cursor steps over its NUL, to bytes that earlier reads have left in the buffer. The comment at
  `swiril/at_channel.c:731` says that this cannot be; the model follows the code. What is pending then is those
  bytes up to the first NUL and what is still to be read, and only the latter exactly if the first of them is a NUL
  (`AtFraming.LineReader.TakeLine`, `ReadLine`, `PromptLeaves`). After an answer, a prompt and the answer to an SMS,
  each in a read of its own, the OK of the first answer comes out again behind the prompt
  (`AtStaleLines.StaleLineIsRead`), and is the final result of the SMS command (`StaleOkEndsCommand`).
* The same step moves the cursor out of the buffer exactly if a prompt ends in the last byte
  (`AtFraming.LineReader.TakeLine`); `AtStaleLines.PromptAtTheEdge` is a read that does it. What the source does next
  is undefined, so `AtReader.ReadToEnd` ends there.
* A request to cancel the query for networks always goes into the normal queue, but is looked for in the priority
  queue if that is enabled. It is then never found: in every such run no cancel is taken out and none completed
  (`QueueRuns.CancelIsDeadWithPriority`).
* A good scan that finds other ttys leaves the state as it is and the descriptors cached. A cached one was opened on
  the tty that the table names now exactly if the last good scan since its thread looked, if any, has found that tty
  for its channel (`StaleDescriptors.MatchesExactly`); `ScanLeavesStale` is a run to one that was not.
* Which ttys of a directory are kept, and so what the endpoint table says, depends on the listing order exactly if
  more are listed than the table holds (`DroppedTtys.KeptTtysDependOnOrder`, and for the table
  `OrderMattersExactly`); one endpoint and ttyUSB0 to ttyUSB32 are such a directory (`DroppingDependsOnOrder`).
* The record length of a SIM file is two bytes in the 3G header and one in the 2G response, and is kept exactly if
  it is below 256 (`Fcp.RecordLengthIsKept`); records of 256 bytes come out with length 0 (`LongRecordsAreCutShort`).
* The receive loop for GPS packets tests its limit after each read, so a body is received exactly if it comes within
  eleven reads (`GpsPackets.ReceiveBody`), and a twelfth read that completes it is one too many (`LastReadIsTooLate`).
* The satellite list is written without a look at its size. From a clear keep flag, complete groups are written
  within it exactly if all their satellites together fit (`GsvGroups.EpochFitsExactly`).
* The tracking byte of a set-defaults request is sent, but the RIL side does not read it (`GpsPackets.UnpackSetDef`).

## Model

| member | source | states |
|---|---|---|
| AtLines.StrStartsWith | swicommon/at_misc.c:60-69 | the character loop decides exactly the prefix relation |
| AtLines.MatchesTable | swiril/at_channel.c:358-391 | a line matches a result table exactly if some entry is a prefix of it |
| AtLines.FinalClassesAreDisjoint | swiril/at_channel.c:344-401 | no line is both a final success and a final error |
| AtResponse.ATResponse.AddIntermediate | swiril/at_channel.c:322-336 | an intermediate is put in front of the list |
| AtResponse.ATResponse.ReverseIntermediates | swiril/at_channel.c:1129-1142 | in place, the same nodes in reverse order, so the texts are in arrival order |
| AtResponse.ATResponse.Free | swiril/at_channel.c:1103-1123 | every node of the list and every text of the response, the final one included, is handed back once, in order |
| AtDispatch.AtContext.ProcessLine | swiril/at_channel.c:452-541 | the context after a line is what `Route` says, with its disposition, and the handler's call or the text written is logged |
| AtConversation.DispositionIs | swiril/at_channel.c:452-541 | what becomes of a line, told by the lines before it: a final result, the answered prompt with the PDU of the command, part of the answer, or unsolicited |
| AtDispatch.AtContext.TryAccept | swiril/at_channel.c:471-532 | the switch on the command type decides what `Accepts` says of the context |
| AtDispatch.AtContext.Install | swiril/at_channel.c:1414-1417 | the channel is the one just after the command was started, with an empty response |
| AtDispatch.AtContext.Deliver | swiril/at_channel.c:1439-1447 | the caller gets the reversed list with final line and flag, or all nodes and texts are freed; nothing is pending afterwards |
| AtDispatch.AtContext.ClearPendingCommand | swiril/at_channel.c:934-945 | response, prefix and PDU are all cleared, and the nodes and texts of a pending response are freed |
| AtDispatch.AcceptsTheAnswer | swiril/at_channel.c:471-532 | the reader keeps a line exactly if it belongs to the answer as defined on the whole conversation |
| AtDispatch.FeedMeaning | swiril/at_channel.c:452-541 | after any lines: the kept list reversed is the answer, the final result is the last one sent, the flag is its class, the PDU is gone after the first prompt |
| AtDispatch.AnswerShape | swiril/at_channel.c:471-532 | no intermediate is a final line; numeric and singleline answers have at most one, all but multivalue match throughout, multivalue starts with a match, multiline misses none |
| AtLateLines.FinalIsTheFirstExactly | swiril/at_channel.c:434-476 | the final line handed over is the last one sent, and that is the first one exactly if there is only one |
| AtLateLines.LaterFinalWins | swiril/at_channel.c:434-476 | after OK and ERROR the response holds ERROR and is no success |
| AtLateLines.FirstTextReturns | swiril/at_channel.c:434-476 | after OK, ERROR and OK the response holds OK |
| AtLateLines.TextsAddUp | swiril/at_channel.c:322-336 | every text allocated for a conversation is in the response once, or leaks; one leaks exactly if there is a second final line |
| AtLateLines.AnswerEndsWithFinalExactly | swiril/at_channel.c:471-541 | when exactly the answer stays as it was at the first final result, for each kind of command |
| AtLateLines.LateLineJoins | swiril/at_channel.c:471-541 | a line with the prefix that follows OK joins the answer of a multiline command |
| AtProtocol.RunInv | swiril/at_channel.c:1377-1533 | the lock, wait, job and data invariants hold in every state of every run |
| AtProtocol.CommandChannelSafety | swiril/at_channel.c:1391-1491 | pending only for the holder of requestmutex between install and clean-up; every sleeper on requestcond has a holder with its broadcast ahead; sleepers on commandcond have nothing to react to; no command-pending error; no NULL response followed |
| AtProtocol.NoDeadlock | swiril/at_channel.c:1391-1491 | while a call is under way some thread can move by itself, or the holder waits for the modem |
| AtProtocol.EveryResponseOnce | swiril/at_channel.c:1395-1491 | every response object is pending, freed once or handed over once, and never two of these |
| AtProtocol.CallResult | swiril/at_channel.c:1377-1705 | what each finished call returns: a response exactly if one was asked for, the command was written and the status is 0 or CHANNEL_CLOSED; its ownership, the answer to its own command in order, last final result, success flag, exactly one match for strict wrappers |
| AtStatus.CallStatus | swiril/at_channel.c:1391-1530 | what the status of each finished call means, in terms of the steps of the run: TIMEOUT exactly if its last wait timed out, and then onTimeout is called unless it is a handshake; the error of writeline if its command was refused; else CHANNEL_CLOSED exactly if the reader was closed by the hand-over, INVALID_RESPONSE exactly if a strict wrapper misses its line, or 0; the answer is that in the lines read since its own command was written |
| AtStatus.CallAttempts | swiril/at_channel.c:1760-1772 | a handshake makes eight attempts unless one succeeds, any other call one |
| AtClosedCall.ClosedCallHasResponse | swiril/at_channel.c:1444-1453 | a run in which the reader closes during the wait and the caller gets CHANNEL_CLOSED and a response |
| AtDispatch.FinalIsClassified | swiril/at_channel.c:460-476 | the last final result is a success exactly if the flag says so |
| AtProtocol.Move | swiril/at_channel.c:1377-1533 | a command thread that is not asleep and can have the mutex has a next step |
| AtStream.PrintedLinesAreRead | swiril/at_channel.c:574-741 | proper lines, each ended by any non-empty run of newlines, are exactly the lines of the stream |
| AtFraming.LineReader.FindNextEol | swiril/at_channel.c:550-561 | the first newline of the data at the cursor, none if a NUL comes first, or the end of a lone prompt |
| AtFraming.LineReader.SkipLeadingNewlines | swiril/at_channel.c:599-601 | the cursor moves over newlines only, and over all of them |
| AtFraming.LineReader.MoveUp | swiril/at_channel.c:605-614 | the partial line and its NUL are at the front, and the rest of the memory is as it was |
| AtFraming.LineReader.StartLine | swiril/at_channel.c:591-617 | finds the line that is in the buffer, or prepares the loop that completes one, for any buffer and input |
| AtFraming.LineReader.ReadMore | swiril/at_channel.c:699-715 | one read stores its chunk and a NUL behind the data, within the buffer, and nothing else changes |
| AtFraming.LineReader.FillLine | swiril/at_channel.c:619-725 | the loop ends with the first line that reads complete, or without one at the end of input; full buffers are discarded |
| AtFraming.LineReader.TakeLine | swiril/at_channel.c:727-740 | the line is cut off; behind a prompt, what is pending are the bytes of earlier reads up to the first NUL and the input, and the input alone exactly if the first of them is a NUL; the cursor leaves the buffer exactly at a prompt in the last byte |
| AtFraming.LineReader.ReadLine | swiril/at_channel.c:574-741 | for every stream, the line, the buffer and the input left are those of the specification `ReadOn`, the stale bytes behind a prompt included |
| AtFraming.ReadIs | swiril/at_channel.c:574-741 | on streams without NULs and overlong lines the next line of the stream is read and the rest remains, however it is chunked, unless the data ends in a prompt |
| AtFraming.PromptLeaves | swiril/at_channel.c:727-741 | after that prompt, the stale bytes of the old buffer up to the first NUL come before the rest of the stream, none exactly if the first is a NUL |
| AtFraming.CleanLinesAreRead | swiril/at_channel.c:574-741 | on clean streams, without prompts, the lines returned are exactly those of the stream, however it is chunked |
| AtPrinted.PrintedLinesAreReturned | swiril/at_channel.c:574-741 | non-empty lines without CR, LF and NUL, each ended by a non-empty run of CR and LF, with no prompt and none overlong, are exactly the lines returned for every chunking; a line without an end is not returned |
| AtPrinted.OverlongIsLost | swiril/at_channel.c:623-629 | 8192 characters without an end of a line are lost, and what follows is read as if they had not been there |
| AtStaleLines.StaleLineIsRead | swiril/at_channel.c:727-741 | an answer, a prompt and an SMS answer in three reads give the lines 7, OK, the prompt, OK, +CMGS: 5, OK: the first OK comes twice |
| AtStaleLines.StaleOkEndsCommand | swiril/swiril_sms_qmi.c:3325-3340 | with these lines the SMS command ends at the stale OK, as a success without an intermediate line |
| AtStaleLines.PromptAtTheEdge | swiril/at_channel.c:727-741 | a read that fills the buffer and ends in a prompt leaves the cursor one past the buffer |
| AtReader.EachLineOnce | swiril/at_channel.c:794-826 | the lines of the fates, in order, are the lines read: each has exactly one fate |
| AtReader.AllRouted | swiril/at_channel.c:804-825 | without SMS headers every line is routed |
| AtReader.RunFeedsTheRest | swiril/at_channel.c:804-825 | SMS pairs leave the pending command alone |
| AtReader.RunAnswersCommand | swiril/at_channel.c:794-826 | whatever lines are read after a command, the channel holds the answer contained in those that are routed |
| AtReader.HeaderIsLostExactly | swiril/at_channel.c:804-817 | a header is lost at the end exactly if the number of headers there is odd |
| AtReader.LoneHeaderIsLost | swiril/at_channel.c:804-817 | a stream of one header is lost without a call of the handler |
| AtReader.RunContinues | swiril/at_channel.c:794-826 | the fates of two pieces of a stream are those of the whole, unless a header is lost between them |
| AtReader.SmsTurn | swiril/at_channel.c:804-822 | header and next line go to the handler together, or the header is dropped at the end |
| AtReader.RoutedTurn | swiril/at_channel.c:823-825 | any other line is routed once, with its handler call if unsolicited |
| AtReader.Turn | swiril/at_channel.c:794-826 | on any stream, one turn reads the next line or pair of those `ReadAll` says and gives it its fate, or ends the loop |
| AtReader.ReadToEnd | swiril/at_channel.c:794-826 | on any stream, the lines read are those of `ReadAll`, and channel, handler calls and texts written are those of the run over them |
| AtReader.ReaderLoop | swiril/at_channel.c:782-828 | the same, and then the channel is marked closed if a handler for that is set |
| AtConversation.ConversationIs | swiril/at_channel.c:452-541 | told by the lines alone: the handler gets the notifications, header and body together, and the lines that are not final, not in the answer and not the answered prompt, in order; what is written is the PDU of the command, once, exactly if there is one and a prompt has come |
| AtConversation.IdleIs | swiril/at_channel.c:457-459 | while no command is pending, the handler gets every line and notification, and nothing is written |
| EventOrder.DeadlineIsExact | swiril/swiril_main.c:523-531 | the stored deadline is the clock plus the delay, and its nanoseconds are at most 1000000000 |
| EventOrder.OrderAgrees | swiril/swiril_main.c:546-553 | comparison of stored times never contradicts real order, nanoseconds of 1000000000 included |
| EventOrder.DueExactly | swiril/swiril_main.c:2186-2187 | when an event is due: after its instant, or at it if the nanoseconds are 1000000000 |
| EventOrder.InsertKeepsOrder | swiril/swiril_main.c:543-567 | insertion keeps the list sorted, adds just the event, and puts it behind equal deadlines |
| EventOrder.SortedByInstant | swiril/swiril_main.c:546-553 | a list sorted by comparison is sorted by instant |
| RequestQueue.RequestQueue.LinkBefore | swiril/swiril_main.c:553-558 | relinking in the middle puts the node there, prev pointers correct on all but the head |
| RequestQueue.RequestQueue.LinkFirst | swiril/swiril_main.c:546-549 | relinking in front of the head |
| RequestQueue.RequestQueue.LinkLast | swiril/swiril_main.c:559-562 | linking behind the tail |
| RequestQueue.RequestQueue.EnqueueEvent | swiril/swiril_main.c:541-570 | the linked list after the call is the sorted insertion into the old one |
| RequestQueue.RequestQueue.OnRequest | swiril/swiril_main.c:1285-1299 | the request is appended behind all others |
| RequestQueue.RequestQueue.TakeNext | swiril/swiril_main.c:2176-2197 | the head event is taken exactly if due, the head request if there is one, the rest stays; of a closed queue nothing is taken |
| RequestQueue.RequestQueue.Divert | swiril/swiril_main.c:3827-3852 | the requests before the first cancel are on the stack, reversed, the ones after it in the list |
| RequestQueue.RequestQueue.Restore | swiril/swiril_main.c:3853-3865 | popping the stack in front of the list gives the original order |
| RequestQueue.RequestQueue.Unlocked | swiril/swiril_main.c:3837-3840 | in the unlocked window an event that bears the token of the cancel is inserted into the normal queue and arriving requests are appended |
| RequestQueue.CompletionIsDue | swiril/swiril_main.c:3838 | the completion bears the token and is due two seconds, in nanoseconds, after the clock was read |
| RequestQueue.RequestQueue.TakeOutCancel | swiril/swiril_main.c:3818-3865 | exactly the first cancel is gone and its completion scheduled, the others and the arrivals are in order |
| RequestQueue.RequestQueue.IsCancelQueryNetworkRequested | swiril/swiril_main.c:3798-3869 | true exactly if the queue is open and holds a cancel; then the first one is removed and the event of its token scheduled, else nothing changes |
| RequestQueue.SignalCloseQueues | swiril/swiril_main.c:1587-1596 | every queue is closed, and what is pending in it stays |
| QueueRuns.RunKeepsAll | swiril/swiril_main.c:2143-2209 | conservation, order and log invariants hold in every state of every run |
| QueueRuns.WithoutOneMore | swiril/swiril_main.c:3827-3865 | taking one request out of the order is filtering out its token |
| QueueRuns.InsertPrecedes | swiril/swiril_main.c:543-567 | order by deadline and, on ties, by age is kept by every insertion |
| QueueRuns.EveryEventOnce | swiril/swiril_main.c:2181-2202 | every event ever scheduled in either queue is pending, taken or run, once |
| QueueRuns.RequestsAreFifo | swiril/swiril_main.c:2192-2208 | run, taken and pending requests are all requests in order of arrival, except the cancelled ones, and only cancel requests are ever cancelled |
| QueueRuns.CancelledAreCompleted | swiril/swiril_main.c:3827-3842 | every cancelled request has exactly one event of the normal queue that bears its token, pending, taken or run once, or that event is about to be enqueued; no event completes another request |
| QueueRuns.CancelIsDeadWithPriority | swiril/swiril_main.c:3809-3810 | with a priority queue no cancel is ever found in any run, and the normal queue is first in first out without exception |
| QueueRuns.NothingLeavesInTheWindow | swiril/swiril_main.c:3837-3840 | between the removal of a cancel and the scheduling of its completion nobody takes anything out of the queue |
| QueueRuns.EventsRunInTime | swiril/swiril_main.c:2184-2202 | no event runs before its deadline or before a pending one that is due earlier or, on ties, older, even if the clock was read long before it was scheduled |
| QueueSteps.TakeTakes | swiril/swiril_main.c:2176-2197 | in every run, a pass takes the first event if its instant is past and not if it is still to come, and the first request if there is one, both in one pass if both; nothing else moves; a closed queue gives up nothing |
| QueueSteps.DueEventRuns | swiril/swiril_main.c:2184-2202 | the event that was due when the runner passed is the next one whose callback is called |
| QueueSteps.FirstRequestRuns | swiril/swiril_main.c:2192-2208 | the request that was first is the next one to be processed, after the event of the same pass |
| QueueSteps.CancelTakesFirst | swiril/swiril_main.c:3818-3865 | a search takes out exactly the first cancel request of the queue that is searched |
| QueueSteps.QueuesHoldWhatWasAsked | swiril/swiril_main.c:523-570 | every event ever in a queue is due when a step has asked for it and for what it has asked, every request is of the kind asked for, and both are in the order of the steps |
| QueueSteps.RunnerTakes | swiril/swiril_main.c:2176-2197 | the critical section on the linked lists is the step `Take` |
| QueueSteps.EventIsScheduled | swiril/swiril_main.c:541-570 | enqueueRILEvent on the linked list is the step `Schedule` |
| QueueSteps.RequestIsAsked | swiril/swiril_main.c:1285-1299 | onRequest on the linked list is the step `Ask` |
| QueueSteps.CancelIsSearched | swiril/swiril_main.c:3798-3869 | the search on the linked lists is the step `CancelQuery`, the arrivals and the step `Complete`; if it finds nothing, no such step is possible |
| GregorianTime.NormalisesMonths | swigps/swigps.c:515-543 | months out of range carry into the year as in the calendar, for 16-bit values |
| GregorianTime.MkGmTimeIsCalendar | swigps/swigps.c:515-543 | the result is the Gregorian count exactly if the leap years are counted right |
| GregorianTime.RightFrom1969 | swigps/swigps.c:515-543 | it is right from 1969 to the last year a short can hold |
| GregorianTime.WrongBefore1969 | swigps/swigps.c:515-543 | it is a day off for 1 January 1968 |
| GregorianTime.StrictlyMonotone | swigps/swigps.c:515-543 | of two valid date-times from 1969 on the earlier one has the smaller result, so it is injective there |
| GregorianOrder.OrderedExactly | swigps/swigps.c:515-543 | over the whole range the earlier one has the smaller result exactly if the pair is not folded, and an equal one exactly if it is folded at the same time of day |
| GregorianOrder.LeapDayCollides | swigps/swigps.c:515-543 | 29 February and 1 March 1968 have the same result |
| UsbState.UsbInit | swims/swims_ossdk.c:372-402 | after initialisation and its scan a modem that is present is yet to be checked, and nothing is cached |
| UsbState.OsUsb.IoErrorLocked | swims/swims_ossdk.c:302-327 | the state is bad, all slots are empty, and the close calls are the cached descriptors in order |
| UsbState.OsUsb.EndpointUpdate | swims/swims_ossdkcheck.c:740-752 | the entry becomes the found one, and the result tells whether it changed |
| UsbState.OsUsb.UpdateTables | swims/swims_ossdkcheck.c:823-830 | both tables become the found ones, and the result tells whether any entry changed |
| UsbState.OsUsb.Scan | swims/swims_ossdkcheck.c:801-836 | the debounced state change, or error recovery if there is no modem |
| UsbState.OsUsb.Store | swims/swims_ossdk.c:677-692 | the descriptor goes into its slot only while the modem is working |
| UsbState.ClosesWhatIsCached | swims/swims_ossdk.c:309-326 | recovery closes each descriptor as often as it is cached |
| UsbProtocol.RunInv | swims/swims_ossdk.c:644-708 | the debounce, slot and ownership invariants hold in every state of every run |
| UsbProtocol.CachedMeansWorking | swims/swims_ossdk.c:681-683 | a cached descriptor implies that the modem is considered working |
| UsbProtocol.EveryDescriptorOnce | swims/swims_ossdk.c:662-693 | every opened descriptor is with its thread, in one slot, or closed once |
| UsbProtocol.WorkingNeedsTwoEqualScans | swims/swims_ossdkcheck.c:832-835 | the modem becomes working exactly by a scan equal to the good one before it with no error in between |
| StaleDescriptors.MatchesExactly | swims/swims_ossdk.c:644-708 | a cached descriptor was opened on the tty the table names now exactly if the last good scan since its thread looked found that tty |
| StaleDescriptors.ScanLeavesStale | swims/swims_ossdkcheck.c:801-836 | a run in which a good scan leaves a working modem with a descriptor of a tty that the table no longer names |
| StaleDescriptors.UsesItsOwn | swims/swims_ossdk.c:644-708 | a descriptor that a thread uses was in its own slot when it last looked or stored, and still is unless an error has occurred since |
| StaleDescriptors.StartsWhileWorking | swims/swims_ossdk.c:644-708 | a thread is on its way to a transfer only since it has seen the modem working |
| StaleDescriptors.OnlyTtysAreOpened | swims/swims_ossdk.c:644-708 | no descriptor is opened for an endpoint without a tty |
| EndpointPairing.SinkIn | swims/swims_ossdkcheck.c:398-407 | the inner loop inserts one element into the sorted part |
| EndpointPairing.SortUint | swims/swims_ossdkcheck.c:390-409 | the first elements are arranged in ascending order in place, the others untouched |
| EndpointPairing.AscendingSorts | swims/swims_ossdkcheck.c:390-409 | the arrangement is sorted and a permutation |
| EndpointPairing.SortedArrangementIsUnique | swims/swims_ossdkcheck.c:590-593 | there is only one sorted arrangement of the same numbers |
| EndpointPairing.DirParse.EpScan | swims/swims_ossdkcheck.c:464-530 | one directory entry adds what it contributes to the lists, within their capacity |
| EndpointPairing.DirParse.AssignTtys | swims/swims_ossdkcheck.c:595-625 | the pairing loop gives the k-th listed endpoint the k-th listed tty |
| EndpointPairing.DirParse.SubScan | swims/swims_ossdkcheck.c:569-628 | both tables become what the listing of the subdevice makes of them |
| EndpointPairing.EnumerationOrderIsIrrelevant | swims/swims_ossdkcheck.c:590-625 | listings that are permutations of each other give the same table, if nothing is dropped |
| DroppedTtys.KeptTtysDependOnOrder | swims/swims_ossdkcheck.c:518-524 | for distinct ttys, the kept ones depend on the listing order exactly if there are more than fit |
| DroppedTtys.OrderMattersExactly | swims/swims_ossdkcheck.c:590-625 | the endpoint table depends on the listing order exactly if there are more ttys than fit and an endpoint |
| DroppedTtys.DroppingDependsOnOrder | swims/swims_ossdkcheck.c:590-625 | a directory of one endpoint and 33 ttys has a rearrangement with another table |
| EndpointPairing.RanksArePaired | swims/swims_ossdkcheck.c:599-611 | ascending endpoints get the ttys of their ranks, entries of other endpoints stay |
| EndpointPairing.ListingPairsByRank | swims/swims_ossdkcheck.c:590-625 | the k-th smallest endpoint of a listing gets its k-th smallest tty |
| EndpointTables.PickedIsListed | swims/swims_ossdkcheck.c:464-530 | read endpoints are the bulk endpoints with bit 7 set and numbers below 32 without it, write endpoints those without it; ttys below 1024; each as often as listed |
| EndpointTables.TableIs | swims/swims_ossdkcheck.c:590-625 | after a scan exactly the listed endpoints have got a listed tty and the interface number, in the order of their numbers; others keep their entries |
| EndpointTables.LaterAreIgnored | swims/swims_ossdkcheck.c:518-524 | once 32 of a sort are listed, later ones are ignored |
| EndpointTables.LastInterfaceCounts | swims/swims_ossdkcheck.c:464-530 | of several interface numbers the last one counts |
| AtTok.Cursor.SkipWhiteSpace | swicommon/at_tok.c:55-62 | the cursor moves over white space only |
| AtTok.Cursor.SkipNextComma | swicommon/at_tok.c:64-75 | the cursor moves behind the next comma, or to the end |
| AtTok.Cursor.Strsep | swicommon/at_tok.c:87-90 | a token is cut off in place; all tokens handed out before keep their text |
| AtTok.Cursor.NextTok | swicommon/at_tok.c:77-94 | the next token, quoted or not, is handed out, and the cursor is behind its comma or NULL |
| AtTok.Cursor.Start | swicommon/at_tok.c:35-53 | the prefix is stepped over, or the cursor is NULL |
| AtTok.Cursor.NextInt | swicommon/at_tok.c:103-143 | the int at the cursor, or failure with what is stored then |
| AtTok.Cursor.NextStr | swicommon/at_tok.c:179-192 | the next token, or failure at a NULL cursor |
| AtTok.Cursor.Discard | swicommon/at_tok.c:219-228 | the cursor is behind the given number of tokens, or NULL if there are fewer |
| AtTok.Cursor.IndexInt | swicommon/at_tok.c:210-232 | the int behind the given number of tokens, older tokens unchanged |
| AtTok.Cursor.HasMore | swicommon/at_tok.c:237-240 | true exactly if the cursor is at a character |
| AtTok.NumbersRoundTrip | swicommon/at_tok.c:116-124 | every printed int is read back, with a plus sign or not and whatever stands behind it; larger numbers give their low 32 bits, or -1 and 0 beyond a long |
| AtTok.FieldIsRead | swicommon/at_tok.c:55-94 | reading one printed field, with any white space before it and anything up to the comma behind it, leaves exactly the others |
| AtTok.PrintedFieldsAreRead | swicommon/at_tok.c:55-94 | printed fields with any white space before them are read back in order, commas inside quotes included, and there is more exactly while fields remain |
| AtTok.PrintedLineIsIndexed | swicommon/at_tok.c:210-232 | prefix and fields printed with any white space, the int at position k is field k, and there is none past the end |
| Fcp.HexRoundTrip | swicommon/at_misc.c:222-262 | bytes printed as hex are read back |
| Fcp.HexReprints | swicommon/at_misc.c:222-262 | hex digits read and printed come out in upper case |
| Fcp.HexDigitsAre | swicommon/at_misc.c:242-262 | each byte is printed as the digits of its high and its low half |
| Fcp.StringToBinary | swicommon/at_misc.c:222-240 | the bytes of the string are stored, or an odd length is refused and nothing stored |
| Fcp.BinaryToString | swicommon/at_misc.c:242-262 | two digits a byte and a NUL, nothing beyond |
| Fcp.ParseTlv | swicommon/at_misc.c:290-316 | the item at a position, at least four characters and within the stream, or an error exactly if there is none |
| Fcp.StoreDescriptor | swicommon/fcp_parser.c:98-129 | the fields written for a file descriptor, partial ones on an error included |
| Fcp.StoreItem | swicommon/fcp_parser.c:81-130 | what one item does to the response |
| Fcp.FcpToTs51011 | swicommon/fcp_parser.c:46-144 | the character loop computes what the items of the byte stream say, and leaves the response alone if there is no template |
| Fcp.ConvertSimIoFcp | swicommon/swiril_sim.c:688-734 | the hex of the response, or the error, with NULL, empty and odd input refused |
| ByteBits.BitsMean | swicommon/fcp_parser.c:105-122 | the masks test the bit fields of table 11.5 of ETSI TS 102 221 |
| Fcp.TemplateIsRead | swicommon/fcp_parser.c:50-83 | a template written item by item is read item by item, whatever follows it |
| Fcp.ItemsAreRead | swicommon/fcp_parser.c:72-132 | items are read up to the end of the template, of which the last one may leave it if the stream holds it |
| Fcp.AcceptedIsItems | swicommon/fcp_parser.c:72-132 | whatever is accepted is a run of items of which only the last may leave the template |
| Fcp.AcceptedExactly | swicommon/fcp_parser.c:81-130 | a template is accepted exactly if every item is acceptable by itself; else the first faulty item gives the error |
| Fcp.OthersAreRefused | swicommon/fcp_parser.c:64-67 | what does not begin with tag 0x62 is refused |
| Fcp.FileIsConverted | swicommon/fcp_parser.c:71-132 | a file described in any order with unknown items in between comes out at the offsets of section 9.2.1 of 3GPP TS 51.011 |
| Fcp.RecordLengthIsKept | swicommon/fcp_parser.c:117 | the record length survives exactly if it is below 256 |
| Fcp.LongRecordsAreCutShort | swicommon/fcp_parser.c:117 | the header of a file with records of 256 bytes is converted to a response with record length 0 |
| GpsPackets.PutThenGet | swigps/swigps_common.c:100-348 | a field put is the field got, modulo its width, for every width |
| GpsPackets.GetThenPut | swigps/swigps_common.c:100-348 | bytes got and put back are the same bytes |
| GpsWire.ByteIs | swigps/swigps_common.c:264-348 | the j-th byte from the end is the number divided by 256 to the power j, modulo 256 |
| GpsPackets.Put16 | swigps/swigps_common.c:264-274 | two bytes in network order are stored, the others untouched |
| GpsPackets.Put32 | swigps/swigps_common.c:297-309 | four bytes in network order |
| GpsPackets.Put64 | swigps/swigps_common.c:332-348 | eight bytes in network order |
| GpsPackets.Get | swigps/swigps_common.c:100-200 | the value of the next bytes, and the advanced position |
| GpsPackets.MakHdr | swigps/swigps_common.c:424-453 | the header is written exactly if buffer, type and length are valid |
| GpsPackets.ReadsIsBroughtBy | swigps/swigps_common.c:568-586 | the number of reads is the least number of chunks whose sizes add up to the body |
| GpsPackets.ReceiveBody | swigps/swigps_common.c:563-586 | succeeds exactly if the body comes within the permitted reads, and then has just its bytes |
| GpsPackets.LastReadIsTooLate | swigps/swigps_common.c:568-586 | a body that comes byte by byte in twelve reads is refused, although the last one completes it; one in eleven is not |
| GpsPackets.ReceivePacket | swigps/swigps_common.c:500-591 | the outcome for every stream and every cut of it; on success exactly header and advertised body are taken; bounded number of reads |
| GpsWire.PacketExactly | swigps/swigps_common.c:500-591 | a packet is received exactly if its six header bytes come at once and its body has at most 506 bytes, is all there and comes within eleven reads |
| GpsPackets.HandleSwigps | swicommon/swiril_gps_inb.c:640-716 | the handler calls are those of the packets in the stream, in order, up to its end or a fault |
| GpsWire.ServiceEnds | swicommon/swiril_gps_inb.c:651-715 | a packet of an unknown type, the end of the stream or a fault ends the service |
| GpsPackets.BackToBack | swicommon/swiril_gps_inb.c:651-715 | messages sent back to back are served in order, however the stream is cut within the limits |
| GpsPackets.SetDef | swigps/swigps_outb.c:452-521 | the packet sent is the header and the five fields in order |
| GpsPackets.InjTime | swigps/swigps_outb.c:913-968 | the packet sent is the header, the time and the uncertainty |
| GpsPackets.PackNSend | swicommon/swiril_gps_inb.c:256-303 | the argument block is the descriptor and the body, or none if the length is wrong |
| GpsPackets.UnpackSetDef | swiril/swiril_gps_qmi.c:313-329 | the fields at their offsets in the argument block |
| GpsPackets.UnpackInjTime | swiril/swiril_gps_qmi.c:839-851 | the fields at their offsets in the argument block |
| GpsPackets.SetDefArrives | swiril/swiril_gps_qmi.c:313-329 | the fields unpacked are the fields packed, modulo their widths, with the same descriptor |
| GpsPackets.InjTimeArrives | swiril/swiril_gps_qmi.c:839-851 | the same for time and uncertainty |
| GpsPackets.SetDefEndToEnd | swigps/swigps_outb.c:482-503 | a set-defaults call in the GPS library becomes the same call in the RIL, over any cut of the stream within the limits |
| GpsWire.SetDefBytes | swigps/swigps_outb.c:482-503 | the bytes of a set-defaults request, one by one |
| GpsWire.InjTimeBytes | swigps/swigps_outb.c:935-955 | the bytes of a request to inject the time, one by one |
| GpsWire.GetDefBytes | swiril/swiril_gps_qmi.c:210-245 | the bytes of the response with the settings, one by one |
| GpsWire.InjTimeEndToEnd | swigps/swigps_outb.c:913-968 | a call to inject the time becomes the same call in the RIL, over any cut of the stream within the limits |
| GpsPackets.RilGetDef | swiril/swiril_gps_qmi.c:210-245 | the response packet holds the four settings in order |
| GpsPackets.GpsState.RespGetDef | swigps/swigps_outb.c:241-284 | the settings are stored, or nothing if the length is wrong |
| GpsPackets.GpsState.HandleRilGps | swigps/swigps_outb.c:1262-1327 | a response is passed on exactly if it is complete, known and free of error |
| GpsWire.ResponseExactly | swigps/swigps_outb.c:1262-1327 | a response is passed on exactly if its type is odd and below 16 and both bytes of its result are zero, and what is passed on is its body |
| GpsPackets.GetDefArrives | swigps/swigps_outb.c:259-269 | the settings stored are the ones the modem reported, exactly if the low 16 bits of its result are zero |
| Gsv.Tokenize | swigps/swigps.c:338-380 | the tokens are the texts between commas of the sentence without frame, at most 24 |
| Gsv.Str2Int | swigps/swigps.c:433-460 | the value of a string of digits, -1 otherwise; the `int` overflows exactly if the string begins with a number beyond its range |
| Gsv.NumbersAreRead | swigps/swigps.c:433-460 | every printed number is read back, with any leading zeros |
| Gsv.NmeaReader.ParseGsv | swigps/swigps.c:1153-1210 | what one sentence does to list, total, keep flag and changed flag, and when it writes behind the list |
| Gsv.NmeaReader.Parse | swigps/swigps.c:1036-1388 | the satellite state after any line, and whether the line was written behind the list |
| Gsv.NmeaReader.Report | swigps/swigps.c:2024-2073 | while running, and to a callback that is set, the status is reported once for each change; list and total stay |
| Gsv.NeverMoreThanAnnounced | swigps/swigps.c:1169-1200 | in every run, with lost or repeated sentences and restarts, there are never more satellites than announced |
| Gsv.GroupIsAdded | swigps/swigps.c:1169-1204 | a complete group replaces the list or extends it, depending on the keep flag |
| Gsv.GroupsAreJoined | swigps/swigps.c:1169-1204 | any sequence of complete groups leaves their concatenation |
| Gsv.EpochIsGathered | swigps/swigps.c:1153-1210 | from a clear keep flag the list is exactly the satellites of the complete groups, whatever other sentences and reports come in between |
| Gsv.FieldsAreRead | swigps/swigps.c:338-412 | the first 24 fields framed as a sentence are read back by position, an empty last one included, and no others |
| Gsv.SentenceIsKnown | swigps/swigps.c:1064-1359 | a framed sentence is GSV exactly if it is GPGSV or GLGSV, and GSA or RMC exactly by its last three letters |
| Gsv.SentenceDoes | swigps/swigps.c:1036-1388 | a framed GSA sentence has the list reported, an RMC sentence starts an epoch, and others but GSV do nothing to the list |
| Gsv.ShortIsIgnored | swigps/swigps.c:1047-1050 | fewer than nine characters are ignored, nine are not |
| Gsv.GsvIsRead | swigps/swigps.c:1153-1193 | a framed GSV sentence is parsed as its fields |
| GsvGroups.RmcStartsAnEpoch | swigps/swigps.c:1383-1388 | after anything at all, an RMC sentence and complete groups leave exactly their satellites |
| GsvGroups.FramedRmcStartsAnEpoch | swigps/swigps.c:1383-1388 | so does any framed sentence whose type is RMC |
| GsvGroups.PrintedGroupIsRead | swigps/swigps.c:1153-1210 | satellites printed as a group of GSV lines are listed, each once and in order |
| GsvGroups.EpochFitsExactly | swigps/swigps.c:1181-1198 | complete groups are written within the list exactly if their satellites together fit |
| EccList.StrTok | swiril/swiril_main.c:3133-3139 | the next token, or none exactly if there is none |
| EccList.DropDuplicates | swiril/swiril_main.c:3142-3149 | exactly the entries that occur earlier are dropped |
| EccList.WriteAll | swiril/swiril_main.c:3151-3161 | the kept numbers, each with a comma, fit in the buffer and are written in order |
| EccList.Attenuate | swiril/swiril_main.c:3120-3168 | the string in the buffer is the joined first occurrences of the first 32 numbers, the rest of the buffer is cleared |
| EccList.ListingIsAttenuated | swiril/swiril_main.c:3131-3163 | of numbers with any blanks and commas between them, the first occurrences among the first 32 are kept, joined by commas |
| EccList.DistinctKeeps | swiril/swiril_main.c:3142-3149 | the same numbers, each once |
| EccList.DistinctKeepsOrder | swiril/swiril_main.c:3142-3149 | in the order of their first occurrences |
| EccList.NeverLonger | swiril/swiril_main.c:3150-3163 | the result is not longer than the input |
| EccList.Idempotent | swiril/swiril_main.c:3120-3168 | doing it twice is doing it once |

## Left out

- AtProtocol.CallResult: says nothing about which command a line that arrives after a timeout belongs to, because the code cannot tell; the answer is defined on the lines routed since the command's own install.
- GpsPackets.UnpackSetDef: does not read the tracking byte, because the code does not.
- What the program does once its behaviour is undefined: what a write behind the satellite list overwrites and what an `int` holds after an overflow. That it happens is stated exactly (`Gsv.NmeaReader.Parse`, `Gsv.Str2Int`). The capacity of the list is a parameter, because the constant belongs to the Android HAL, which is not part of this model.
- The queries for available networks (`at_query_networks_multi_timeout`, `clearPendingQueryNetworksCmd`), which keep a response pending across calls.
- The pipe and timer that open and close the AT port between commands, `at_open` restarts, what `onTimeout` does (it is taken to be set, as `swiril_main.c` does), the check for calls from the reader thread, the pause after a handshake, and logging.
- Handlers called by the reader and by the runner: their calls are logged, their effects are not modelled.
- `RIL_EVENT_QUEUE_ALL`, which copies a linked node; no caller in the repository uses it.
- The handler of the query for networks, which calls `isCancelQueryNetworkRequested` in a loop, is the state "the normal runner is handling a request"; how often and how long it asks is left open.
- The request number and subcommand that make a cancel request are a request kind here; the number is a constant of `ril.h`, which is not part of this model.
- USB descriptors are numbered by open call, so their reuse by the kernel is not modelled, nor is a transfer on a descriptor that another thread's recovery has just closed. One thread per endpoint and direction is assumed, as the source demands.
- Directory contents, `sysfs` files and the nested tty directories are folded into the entries of a listing; the `SWI_HL_RIL` build, which also accepts endpoints that are not bulk, is not modelled.
- `time_t` and `long` are taken to be 64 bits wide.
- Hexadecimal and boolean fields of AT lines (`at_tok_nexthexint`, `at_tok_nextbool`), variations of the decimal one.
- Failing allocations.
- AGPS packets, the request for the NMEA port and the start and stop requests: the same codec with other fields. What the modem SDK does with the arguments is outside this model.
- The other NMEA sentences, the fix mask of GSA sentences, the measurements of a satellite as floating-point numbers (kept as text here), the `GNSS_SUPPORT` variant of the GSV branch, and the assembly of lines from characters.
- GPS thread lifecycle, audio tables, request gating lists and enum translations.
