# DSPi control link: a verified model

This project models the UART control link between an ESPHome node and a DSPi audio processor
(`components/dspi`), and proves what it guarantees. It has three layers, each with the program's own loops and
state-changing methods, a definition of what they compute, and theorems about whole runs.

- **Frames and checksum.** `Crc16` and `FrameParser` are the program's loops and its byte-at-a-time parser.
  `Frames` says what they recognise, twice: as an automaton and as a decoder of the whole buffer. `FrameLaws`,
  `Recovery`, `Detection` and `Bursts` (on the algebra of `CrcAlgebra`) prove round trips, the exact resynchronisation
  bound and which damage is refused. `Transport` holds the receive loop's counters and the request builder, `Sending`
  what a queued request is on the wire.
- **The transaction hub.** `Hub` is the class with the twelve-slot array and the timers; `HubModel` is the same hub as
  a function on its state, one atomic `Step` at a time, with a log of how each transaction ended; every method of the
  class is proved to compute it. `Queue` shows that the slots are a bounded map, `Effects` what each kind of step can
  touch. `Replies` says how attempts end in terms of the reply's bytes and the request's numbers alone.
  `HubInvariant`, `Conservation`, `Drain`, `Share`, `Identity`, `Quiescence`, `Progress`, `OfflineRule`,
  `Identification`, `Newest`, `Refresh`, `BurstRoom`, `BurstContents`, `Debounce` and `Attribution` are about all runs:
  any steps, in any order, at any time. `Link` joins the layers: received bytes drive the hub through the frames they
  contain and nothing else.
- **The machines on top.** `RoundRobin`, `RtaModel`, `RtaTrace`, `Freshness`, `RtaSetup`, `RtaBringUp`, `RtaRequests`,
  `RtaPolling`, `AnalyserRequests` and the class in `RtaClient` are the spectrum analyser's client; `Preset` confirms
  preset loads; `Sources` collects the selectable inputs.

`Limits`, `Newest`, `RtaRequests` and parts of `RtaPolling`, `Drain`, `Detection` and `Bursts` are about places where
the program's comments promise more than its code keeps: they prove the exact condition under which the promise holds,
most with a concrete run or input on which it fails. Where code and comments disagree the model follows the code. One
such place is the size of the refresh burst: the comment at `components/dspi/dspi.h:280-285` counts four fixed reads,
the code at `components/dspi/dspi.cpp:73-96` issues five, so the full burst takes ten of the twelve slots, not nine.

Methods without a loop that only assign fields are proved equal to their definitions in the models and have no row of
their own unless they branch; what is worth saying about them is said by the theorems about runs. Statements about single
operations name wire constants and limits as numbers, not as the models do.

Clocks and counters are 32 bits wide and wrap; statements about durations are made in true, unwrapped time
(`Clock32`). `now` is a parameter and is the same throughout a pass of the main loop; received bytes, replies and the
answer of `enqueue_` to the preset and analyser services are parameters too. Callbacks appear as entries of a log or a
trace. The numbers and logs in the models (`id`, `nextId`, `log`, `trace`, `epoch`, `loads`, `published`) describe runs
and are not in the program.

## Model

| member | source | states |
|---|---|---|
| Crc16.Crc16Update | components/dspi/crc16.h:29-35 | the eight-step loop folds one byte as the bit-step definition says |
| Crc16.Crc16 | components/dspi/crc16.h:39-45 | the buffer loop computes the checksum of the whole message |
| Crc16.CrcConcat | components/dspi/crc16.h:26-45 | folding incrementally, in any pieces, is folding the whole |
| CrcAlgebra.CrcIsShift | components/dspi/crc16.h:29-45 | the byte-wise form equals a bit-serial register fed the same bytes most significant bit first |
| CrcAlgebra.CrcLinear | components/dspi/crc16.h:29-45 | the checksum of a damaged message is the checksum XOR the zero-start checksum of the damage |
| CrcAlgebra.StepsNonzero | components/dspi/crc16.h:31-33 | the register step is injective: a nonzero difference never vanishes |
| CrcAlgebra.BurstNonzero | components/dspi/crc16.h:29-45 | any error pattern within 16 consecutive bits leaves a nonzero remainder, whatever surrounds it |
| CrcAlgebra.OddShift | components/dspi/crc16.h:31-33 | the register keeps the parity of the bits fed to it |
| FrameParsing.FrameParser.Feed | components/dspi/framing.h:75-145 | one byte moves the parser's fields exactly as the automaton moves; a reported frame's type, status, length and payload are those of the collected bytes; the payload index stays inside the 132-byte buffer |
| FrameParsing.FrameParser.Reset | components/dspi/framing.h:153-155 | any partial frame is dropped |
| Frames.FeedIsDecode | components/dspi/framing.h:75-145 | for every byte string the reports of the byte-wise automaton are those of a recursive decoder of the whole buffer |
| Frames.FeedConcat | components/dspi/framing.h:75-145 | cutting the stream anywhere changes neither the reports nor the final state |
| Frames.Complete | components/dspi/framing.h:101-142 | a body of the announced length ends in exactly one report and a hunting parser |
| Frames.TooLong | components/dspi/framing.h:113-119 | a length over 132 is reported as oversize after the header and the parser hunts again |
| FrameLaws.RoundTrip | components/dspi/framing.h:75-145 | a legal frame sent to a hunting parser is delivered unchanged |
| FrameLaws.EveryKindArrives | components/dspi/framing.h:75-145 | both kinds of reply and notifications, with up to 132 bytes of payload, all arrive |
| FrameLaws.OtherTypesIgnored | components/dspi/framing.h:84-98 | after a sync byte every other type byte makes the parser hunt again, and another sync byte keeps it waiting |
| FrameLaws.FrameLayout | components/dspi/framing.h:75-145 | the bytes of a frame, position by position, length and checksum low byte first |
| FrameLaws.StreamRoundTrip | components/dspi/framing.h:77-142 | any list of legal frames, with sync-free noise between and any run of stray sync bytes before each, is delivered as that list; payloads may contain sync bytes |
| FrameLaws.HeldIsSuffix | components/dspi/framing.h:75-145 | what the parser holds is always the sync byte and what followed it at the end of the bytes fed |
| FrameLaws.FrameIsSuffix | components/dspi/framing.h:138-142 | every delivered frame is exactly the encoding that ends the bytes fed so far |
| FrameLaws.CloseInverse | components/dspi/framing.h:133-142 | only the sealed encoding of a frame is accepted as that frame |
| Recovery.RankFalls | components/dspi/framing.h:101-142 | inside a frame every byte brings the parser nearer to hunting |
| Recovery.BodyEnds | components/dspi/framing.h:101-142 | from any state past the type byte at most 137 bytes end the frame |
| Recovery.Resynchronises | components/dspi/framing.h:68-71 | after any traffic, 138 bytes without a sync byte guarantee that the next frame is delivered |
| Recovery.OneByteLessLosesAFrame | components/dspi/framing.h:75-145 | the bound is sharp: after 137 such bytes a frame can be lost |
| Detection.DamageDetected | components/dspi/framing.h:133-142 | a frame of any length damaged in its status, payload or checksum is accepted if and only if the damage to the checksum field is the checksum of the damage |
| Detection.OddDamageRefused | components/dspi/crc16.h:10-13 | any odd number of flipped bits over status, payload and checksum is refused |
| Detection.BurstRefused | components/dspi/crc16.h:10-13 | any damage within 16 consecutive covered bits, counted in the checksum's own order (most significant bit of a byte first), is refused |
| Detection.AdjacentBytesRefused | components/dspi/crc16.h:10-13 | any change of one byte or of two adjacent covered bytes is refused |
| Detection.StraddlingDamage | components/dspi/crc16.h:10-13 | of all changes to the last payload byte and the low byte of the checksum exactly one, (0x89, 0xA1), is not noticed |
| Bursts.CoveredBurstRefused | components/dspi/crc16.h:10-13 | any damage within 16 consecutive covered bits in the order the serial line sends them is refused |
| Bursts.TailBurst | components/dspi/framing.h:133-142 | of the bursts in that order within the last two covered bytes and the checksum, which is sent low byte first, exactly three are not noticed, in frames of any length |
| Bursts.SelfSealedHappens | components/dspi/framing.h:133-142 | the three are bursts of at most 16 bits and fit every frame with two payload bytes or more |
| Bursts.CheckValue | components/dspi/crc16.h:10-13 | the checksum of the digits 1 to 9 from 0xFFFF is 0x29B1 |
| Transport.Receiver.PumpByte | components/dspi/dspi.cpp:308-335 | one byte is counted before it is parsed, and its report is counted by kind |
| Transport.Receiver.PumpRx | components/dspi/dspi.cpp:305-338 | the budgeted drain reports what the automaton reports and counts bytes, checksum failures and oversize frames modulo 2^32 |
| Transport.ChunkingIrrelevant | components/dspi/dspi.cpp:305-338 | however the bytes are split over calls, with parser resets between them, the reports are those of the whole-buffer decoder on each stretch between two resets |
| Transport.BuildRequestFrame | components/dspi/framing.h:28-58 | the buffer holds exactly the encoded request and nothing beyond it is touched |
| Transport.RequestRoundTrip | components/dspi/framing.h:28-58 | a request is read back field by field with a matching checksum |
| Sending.RequestLayout | components/dspi/framing.h:28-58 | the bytes written for a queued request, position by position: type, opcode, value, a zero index, length, payload, checksum |
| Sending.SentIsRead | components/dspi/dspi.cpp:445-446 | what is written for a queued request is read back with its type, opcode, value, length and payload, and index 0 |
| Sending.IdentityOnWire | components/dspi/dspi.cpp:222-226 | two requests coalesce exactly if type, opcode and value on the wire are the same |
| Link.PumpRx | components/dspi/dspi.cpp:305-348 | the receive loop with the hub in it: parser and hub end as the byte-by-byte definition says, callbacks left out |
| Link.PumpIsHandling | components/dspi/dspi.cpp:305-348 | whatever the callbacks make the hub do, the hub handles exactly the frames the receiver recognises, in order |
| Link.HandlingIsRun | components/dspi/dspi.cpp:340-391 | bytes take the hub only where a run of its own steps can, so every statement about runs holds of hubs driven by bytes |
| Link.ReprobeLink | components/dspi/dspi.cpp:527-534 | a probe that is due is queued and drops the partial frame in the parser |
| Link.Loop | components/dspi/dspi.cpp:30-119 | one pass: reception, timers, probe, producers and transmission in that order, the frame written, and the state of the parser |
| Link.StreamDrivesHub | components/dspi/dspi.cpp:305-348 | a noisy stream of frames drives the hub through the handling of those frames and their callbacks |
| Link.OddDamageIsSilence | components/dspi/dspi.cpp:321-329 | a frame damaged in an odd number of bits leaves the hub untouched |
| Link.ByteDamageIsSilence | components/dspi/dspi.cpp:321-329 | so does one damaged in one byte or two adjacent covered bytes |
| Link.ReplyAfterQuiet | components/dspi/dspi.cpp:305-348 | after any traffic and 138 quiet bytes a reply reaches the request it answers |
| Queue.EnqueueRefines | components/dspi/dspi.cpp:214-260 | keys stay unique; the slots act as a bounded map: a coalesced request carries on with an attempt count at least both and equal to one of them, eviction removes an entry of maximal priority number no more important than the newcomer, refusal only behind strictly more important entries, never at priority 0 |
| Queue.TakeRefines | components/dspi/dspi.cpp:271-281 | the entry sent next has minimal priority number, and taking it removes just its key from the map |
| Queue.Occupied | components/dspi/dspi.cpp:262-269 | free slots and map entries add up to the number of slots |
| HubObject.DSPiHub.Enqueue | components/dspi/dspi.cpp:214-260 | the slot loops compute the queue operation, the drop counter and the endings |
| HubObject.DSPiHub.QueueFree | components/dspi/dspi.cpp:262-269 | the loop counts the free slots |
| HubObject.DSPiHub.FindNextSlot | components/dspi/dspi.cpp:271-281 | the loop finds the first slot of the best priority, or none |
| HubObject.DSPiHub.SendNextRequest | components/dspi/dspi.cpp:435-455 | the chosen request leaves the queue, becomes outstanding and is written; the other side reads it as that request |
| HubObject.DSPiHub.RetryOrDrop | components/dspi/dspi.cpp:457-488 | the new state after an attempt failed: backoff and requeue, or giving up |
| HubObject.DSPiHub.FailCurrent | components/dspi/dspi.cpp:490-504 | the request ends as exhausted and the fifth failure in a row takes the hub offline |
| HubObject.DSPiHub.GoOffline | components/dspi/dspi.cpp:506-516 | the hub's own part: flushed queue, no identified device, new sequence baseline |
| HubObject.DSPiHub.HandleResponse | components/dspi/dspi.cpp:350-391 | unsolicited or mismatched replies change nothing; success, retryable and permanent statuses lead to their states |
| HubObject.DSPiHub.HandleNotification | components/dspi/dspi.cpp:393-433 | sequence check, counters and refresh request |
| HubObject.DSPiHub.Timers | components/dspi/dspi.cpp:35-51 | timeout and end of backoff |
| HubObject.DSPiHub.ServiceRefresh | components/dspi/dspi.cpp:63-97 | the burst of reads, guarded by the count of free slots |
| HubObject.DSPiHub.HandlePlatform | components/dspi/dspi.cpp:551-598 | the hub's own part of the probe's answer: identified, the one-time reads queued, a refresh requested; the preset machine's part is the ForgetPresetLoad row, the analyser's a step of its runs |
| HubObject.DSPiHub.Loop | components/dspi/dspi.cpp:35-118 | the pass after reception, with what the preset and analyser services enqueue as a parameter: the composition of its parts in that order; what it writes is read by the other side as the request then outstanding |
| HubModel.NotificationTouches | components/dspi/dspi.cpp:393-433 | a notification, whatever it says, leaves queue, outstanding request and hub state as they are |
| Replies.GoodReply | components/dspi/dspi.cpp:350-374 | a reply with status 0 ends the outstanding request successfully, and the count of failures, exactly if its type is 0x81 for a request of type 0x01 or 0x82 for any other; otherwise nothing changes |
| Replies.BadReply | components/dspi/dspi.cpp:376-391 | of the other statuses exactly 0x01, 0x04 and 0x05 are a failed attempt, all others end the request as rejected with that status |
| Replies.StrayReply | components/dspi/dspi.cpp:351-354 | with nothing outstanding a reply changes nothing |
| Replies.TimeoutFails | components/dspi/dspi.cpp:36-41 | a timeout is counted and is a failed attempt |
| Replies.AttemptFails | components/dspi/dspi.cpp:457-521 | a failed attempt is retried exactly while the request's own limit allows, or the hub's if it has none: it waits again with one attempt more, after a delay of 1, 2, 4 or 8 base delays; otherwise it is reported exhausted, and from the fifth failure in a row the hub is offline with nothing left |
| OfflineRule.StepRuled | components/dspi/dspi.cpp:490-504 | every step: the count of failures grows with each request given up, is cleared by each success and identification, and nothing else changes it; only giving up takes the hub offline |
| OfflineRule.OfflineExactly | components/dspi/dspi.cpp:490-504 | after every run from power-on the next step takes the hub offline if and only if it gives a request up and the number given up in a row, modulo 256, is then at least five |
| Identification.PlatformMeans | components/dspi/dspi.cpp:551-598 | after a platform reply of two bytes or more a device is identified, nothing counts against it, a refresh is pending and no probe is due at any time; a shorter one changes nothing |
| Identification.ProbesUntilKnown | components/dspi/dspi.cpp:53-61 | an idle or offline hub without a device probes exactly from five seconds of true time after the last probe |
| Identification.ProbeMeans | components/dspi/dspi.cpp:53-61 | a probe that is due wakes the hub, starts the next interval and waits, however full the queue is |
| Identification.IdentifiedExactly | components/dspi/dspi.cpp:506-598 | over every run from power-on a device is identified exactly if one has answered the probe since the hub last went offline |
| Identification.PlatformReadsFit | components/dspi/dspi.cpp:555-570 | the six reads made once per device do not wait for room: they and all requests of the highest priority that wait find a place if and only if these are no more than twelve identities together |
| Identification.PlatformAsksFor | components/dspi/dspi.cpp:555-570 | then the six reads wait with their opcodes, lengths, priority and handlers |
| Identification.ReadsCrowdedOut | components/dspi/dspi.cpp:555-570 | an instance: in a queue full of other requests of the highest priority five of the six are lost |
| HubInvariant.AlwaysInv | components/dspi/dspi.cpp:30-534 | in every reachable state: a request is outstanding exactly while a reply is awaited, offline implies not identified, keys are unique, backoff implies something waits, attempt counters cannot wrap |
| HubInvariant.ApplyKeeps | components/dspi/dspi.cpp:30-534 | every step keeps that invariant |
| Conservation.Conserved | components/dspi/dspi.cpp:214-260 | over every run each transaction ever offered is in exactly one place: a slot, outstanding, or one ending; the drop counter is exhausted + evicted + refused modulo 2^32 |
| Conservation.EndsOnce | components/dspi/dspi.cpp:350-521 | no transaction ends twice, so none gets two callbacks |
| Drain.StepBudget | components/dspi/dspi.cpp:457-488 | without new requests every reply or timeout that ends an attempt lowers the sum of remaining attempts |
| Drain.SendsBounded | components/dspi/dspi.cpp:435-488 | without new requests the number of transmissions is at most that sum |
| Quiescence.StepRests | components/dspi/dspi.cpp:435-488 | without new requests every step either leaves the requests as they are or brings the hub nearer to rest |
| Quiescence.HubDrains | components/dspi/dspi.cpp:435-521 | in any run without new requests at most 3 x (remaining attempts) + 2 steps do anything; no step can do anything any more exactly when nothing is outstanding and either nothing waits or the hub is offline |
| Quiescence.RestIsEmpty | components/dspi/dspi.cpp:435-521 | a hub that was not offline with something waiting comes to rest only empty |
| Quiescence.SubmittedOffline | components/dspi/dspi.cpp:214-260 | what is asked for while offline waits and cannot move |
| Quiescence.ProbeWakesOffline | components/dspi/dspi.cpp:523-534 | a probe that is due brings such a hub back: it is idle, something waits, and it can move |
| Quiescence.NextLookMoves | components/dspi/dspi.cpp:35-51 | from its deadline on, a hub with something outstanding, or waiting while not offline, is moved by the next look at the timers or the queue |
| Share.RequestIsBounded | components/dspi/dspi.cpp:457-488 | a request offered at any reachable moment is attempted at most limit + 1 times and charged at most the whole backoff ladder of its limit, whatever else is offered, answered, coalesced, evicted, flushed or timed out |
| Share.StepPays | components/dspi/dspi.cpp:214-521 | every step pays for the attempt it ends and the backoff it starts out of what that request has left |
| Identity.StepExact | components/dspi/dspi.cpp:214-260 | every step: an identity of which no request ends has then been attempted once more if the step transmitted it, and exactly as often as before otherwise, whatever was asked for |
| Identity.AttemptsAreTransmissions | components/dspi/dspi.cpp:227-231 | from any reachable moment on, while no request of an identity ends, the attempts counted for it grow by exactly its transmissions and are never forgotten, fresh requests included |
| Identity.IdentityIsBounded | components/dspi/dspi.cpp:227-231 | so an identity is transmitted at most limit + 1 times before one of its requests ends, however often it is asked for again |
| Drain.LadderClosed | components/dspi/dspi.cpp:477-479 | the backoff delays sum to 2^n - 1 base delays for n up to 4 and to 15 + 8(n - 4) beyond |
| Drain.UnansweredEnds | components/dspi/dspi.cpp:457-504 | the bound of that request is attained: alone in the queue and never answered it is reported exhausted after exactly limit + 1 timeouts |
| Drain.NotYet | components/dspi/dspi.cpp:36-41 | no timeout fires before its time |
| Drain.BackoffKept | components/dspi/dspi.cpp:43-47 | a backoff is kept to its end if and only if its delay is at most half the range of the clock; a longer one ends at once |
| Drain.RetryStartsBackoff | components/dspi/dspi.cpp:476-480 | a retry starts the delay its attempt number calls for, measured from now, and it is kept under exactly that condition |
| Progress.PassMakesProgress | components/dspi/dspi.cpp:30-119 | a pass made when something is due transmits; when the time of an outstanding request is up, the pass counts a timeout and leaves nothing outstanding but what it has itself transmitted |
| Progress.PassIsRun | components/dspi/dspi.cpp:30-119 | a pass of the main loop is a run of the hub's steps in their order, so the statements about runs hold of hubs driven by it |
| Progress.PlatformIsRun | components/dspi/dspi.cpp:536-599 | so is the handling of the probe's answer, short ones included |
| Progress.DueOnceDeadlinePasses | components/dspi/dspi.cpp:35-61 | with work or an unidentified device something is due from the deadline on, under the wrapping clock |
| Progress.OutstandingIsStable | components/dspi/dspi.cpp:435-455 | no request is written while another is outstanding: each step leaves it alone or ends it |
| Newest.NewestWaits | components/dspi/dspi.cpp:214-233 | over every run, whatever is asked for and when: everything waiting always carries the value last accepted for its identity, if and only if no retry brings back a value replaced since it was sent |
| Newest.StepUpright | components/dspi/dspi.cpp:476-488 | a single step makes the queue carry an outdated value exactly if it is such a retry |
| Newest.NewestValueWins | components/dspi/dspi.cpp:214-233 | so in a run in which no fresh request asks for another value of the outstanding identity, everything waiting or outstanding carries the value last accepted for it |
| Newest.NewerLost | components/dspi/dspi.cpp:457-521 | when an attempt fails, a newer value waiting behind it is lost if and only if a different older one is retried in its place, or giving up takes the hub offline |
| Newest.OldMuteReturns | components/dspi/dspi.cpp:484-486 | a run from power-on that loses one: an accepted unmute is superseded by the retry of a mute |
| Toggles.ToggleMaskCount | components/dspi/protocol.h:362-369 | clearing the lowest one repeatedly counts the ones of the mask |
| Toggles.CountCoversLoop | components/dspi/dspi.cpp:91-95 | that count is at least the number of reads the loop over the targets queues, and equal if only target bits are set |
| Refresh.BurstWholeOrNothing | components/dspi/dspi.cpp:63-97 | when a refresh is consumed every fixed read and every selected toggle read waits, all that waited still waits, nothing was evicted or dropped; otherwise nothing changes |
| BurstContents.BurstAsksFor | components/dspi/dspi.cpp:73-96 | after a burst the five fixed reads and one for each selected toggle wait, each with its opcode, length, priority and handlers |
| BurstContents.NothingElse | components/dspi/dspi.cpp:73-96 | and a burst adds no other request |
| BurstContents.TogglesReadExactly | components/dspi/dspi.cpp:745-762 | after every run from power-on the toggles read are the mute and those asked for, without those the device has refused since it was identified; a link failure is no refusal |
| Refresh.OfferAllWithRoom | components/dspi/dspi.cpp:214-260 | distinct requests offered to a queue with that many free slots all enter it and leave every other entry untouched |
| BurstRoom.GuardIsExact | components/dspi/dspi.cpp:73-96 | in every reachable state the guard asks for exactly as many slots as there are reads to queue, at most ten |
| BurstRoom.WaitingCannotStall | components/dspi/dspi.cpp:66-72 | a due refresh goes out as soon as ten slots are free, whatever the configuration |
| Debounce.PendingExactly | components/dspi/dspi.cpp:1093-1096 | after every run from power-on a refresh is pending exactly if a setter, a telling notification or a poll asked for one since the last burst, and it is due the debounce time after the last request |
| Debounce.BurstGoesOut | components/dspi/dspi.cpp:63-73 | in every reachable state the burst goes out exactly if a refresh was asked for, the debounce time is over in true time, and all its reads find a free slot |
| Debounce.LongDebounceIsNone | components/dspi/dspi.cpp:63-66 | a debounce time of more than half the clock's range is over at once |
| Debounce.PollMeans | components/dspi/dspi.cpp:99-105 | a poll is made exactly if polling is on, no notifications come, the hub is idle and the interval is over; it asks for a refresh and starts the next interval |
| Debounce.PollsApart | components/dspi/dspi.cpp:99-105 | polls are a whole interval of true time apart |
| Debounce.ActiveExactly | components/dspi/dspi.cpp:399-404 | after every run from power-on the packet counter is the number of well-formed packets modulo 2^32, and polling is held back exactly if the last word on notifications was that they come |
| Refresh.PendingSurvives | components/dspi/dspi.cpp:73-96 | a pending refresh survives every step until its burst is queued |
| Refresh.LossIsNoticed | components/dspi/dspi.cpp:408-425 | if k events are lost between two packets a gap is counted if and only if k is not a multiple of 256; a refresh is pending afterwards if and only if one was, a gap was seen, or the event asks for one |
| Refresh.GapsCounted | components/dspi/dspi.cpp:408-425 | between two offline spells, whatever steps come between the packets, the gap counter is the number of visible losses modulo 2^32, and a visible loss leads to a burst or leaves a refresh pending |
| Refresh.FirstIsBaseline | components/dspi/dspi.cpp:510-513 | the first packet after an offline spell sets the baseline and counts no gap |
| Attribution.RepliesReachTheirRequests | components/dspi/dspi.cpp:350-391 | from power-on, if the device answers each transmission at most once and never after its timeout, the callbacks made are exactly its answers, each under the request it answers, whatever else happens |
| Attribution.LateReplyMisattributed | components/dspi/dspi.cpp:350-391 | an answer that comes after its timeout is given to the request outstanding then |
| Clock32.ReachedIsTrueTime | components/dspi/dspi.cpp:44-47 | the wrap-safe comparison agrees with unbounded time within half the clock's range |
| Clock32.ElapsedIsTrueTime | components/dspi/dspi.cpp:36-37 | elapsed time is measured exactly until the clock has wrapped once |
| RtaObject.RtaClient.NextPollChannel | components/dspi/dspi.cpp:1253-1264 | the loop returns the nearest set channel at or after the cursor, cyclically, and moves the cursor past it; 0xFF exactly for the empty mask |
| RoundRobin.EachExactlyOnce | components/dspi/dspi.cpp:1253-1264 | as many consecutive calls as there are set channels return each exactly once |
| RoundRobin.ServedInTime | components/dspi/dspi.cpp:1253-1264 | a channel that stays set is served within that many calls while others drop out |
| RtaPolling.RunPicks | components/dspi/dspi.cpp:1319-1338 | the channels whose turn comes in a streaming run of the client are picks of the round robin over sets that only shrink |
| RtaPolling.TurnInTime | components/dspi/dspi.cpp:1253-1264 | so in such a run the turn of a channel that is not refused comes within as many turns as there were channels, whoever is refused |
| RtaPolling.DroppedExactly | components/dspi/dspi.cpp:1564-1578 | in every streaming run the channels still polled are the accepted ones without those the device has refused; silence and the three retryable statuses are no refusal |
| RtaPolling.AsksWhoIsLeft | components/dspi/dspi.cpp:1325-1337 | a service that is due asks the nearest channel left, and gives the device up as unsupported exactly when none is left |
| RtaPolling.RequestedIffTaken | components/dspi/dspi.cpp:1319-1338 | a channel is requested in a run exactly if the queue had room at one of its turns; a turn whose request is turned away passes all the same |
| RtaPolling.PolledInTime | components/dspi/dspi.cpp:1319-1338 | so a channel that is not refused, and at whose turns the queue has room, is requested within as many turns as there were channels |
| RtaPolling.ZeroStarves | components/dspi/dspi.cpp:1319-1338 | and not otherwise: a queue full at each turn of channel 0 and free at each of channel 1 leaves channel 0 unrequested for any number of rounds |
| RtaPolling.StatusFirst | components/dspi/dspi.cpp:1314-1323 | the status is asked for exactly when it is due and anything may be asked, before any channel |
| RtaPolling.StatusPutOff | components/dspi/dspi.cpp:1319-1321 | a status read puts the next one off by its interval |
| RtaPolling.TurnsAreChannels | components/dspi/dspi.cpp:1319-1323 | and from one status read until its interval is over in true time no service of a streaming run asks for it again |
| RoundRobin.DropMember | components/dspi/dspi.cpp:1572-1576 | clearing a refused channel's bit removes that channel and no other |
| RoundRobin.PickIsNearest | components/dspi/dspi.cpp:1253-1264 | the function the loop computes picks the nearest set channel, and none exactly when none is set |
| RoundRobin.BitIsPower | components/dspi/dspi.cpp:1259 | the bits of the channel mask count from the lowest |
| RtaWire.WriteConfig | components/dspi/protocol.h:649-661 | the record is exactly the fields at their offsets with zeroed reserved bytes |
| RtaWire.ConfigRoundTrip | components/dspi/protocol.h:649-674 | a written configuration is parsed back unchanged |
| RtaWire.BandRoundTrip | components/dspi/protocol.h:699-716 | a band frame of version 3 as the device sends it is read field by field, at most 37 bands counting |
| RtaWire.BandRefused | components/dspi/protocol.h:699-703 | band frames are refused exactly if shorter than 82 bytes or of another version |
| RtaWire.CapsRoundTrip | components/dspi/protocol.h:676-693 | capabilities as the device sends them are read field by field |
| RtaWire.CapsRefused | components/dspi/protocol.h:676-678 | and refused exactly if shorter than 16 bytes |
| RtaObject.RtaClient.OnCaps | components/dspi/dspi.cpp:1343-1389 | short replies retry, other versions end as unsupported, else clamped capabilities and a settled FFT size |
| RtaObject.RtaClient.StoreCentres | components/dspi/dspi.cpp:1391-1396 | the loop appends the chunk's words up to the promised number, in order |
| RtaObject.RtaClient.OnCentres | components/dspi/dspi.cpp:1391-1410 | the next phase after a chunk |
| RtaObject.RtaClient.OnConfig | components/dspi/dspi.cpp:1412-1457 | read, write-acknowledge and verify are told apart by the phase |
| RtaObject.RtaClient.OnBands | components/dspi/dspi.cpp:1459-1501 | bad, empty, stale, repeated and new frames lead to their states |
| RtaObject.RtaClient.OnBandsFailed | components/dspi/dspi.cpp:1564-1578 | only a permanent refusal drops the channel |
| RtaObject.RtaClient.SetRtaEnabled | components/dspi/dspi.cpp:1145-1178 | the whole state after enabling or disabling |
| RtaObject.RtaClient.Service | components/dspi/dspi.cpp:1278-1341 | what is requested in each phase, only when due, ready and with nothing outstanding, and what changes |
| RtaBringUp.MeasureFalls | components/dspi/dspi.cpp:1343-1457 | every adequate reply lowers the bring-up measure, also a chunk of one word |
| RtaBringUp.BringUpEnds | components/dspi/dspi.cpp:1343-1457 | streaming or unsupported is reached within 1 + bands + 3 replies |
| RtaBringUp.TableIsChunks | components/dspi/dspi.cpp:1391-1410 | the centre table is the concatenation of the accepted chunks cut to the promised number |
| RtaSetup.WordsOfChunk | components/dspi/protocol.h:634-636 | the words of a chunk are pairs of its bytes, low byte first |
| RtaBringUp.ChunksInOrder | components/dspi/dspi.cpp:1408-1409 | chunks are asked for as 1, 2, 3, ... and the number stays at most 37 |
| RtaBringUp.OneWrite | components/dspi/dspi.cpp:1412-1457 | the configuration is written at most once, and streaming starts on another one only after that attempt |
| RtaBringUp.RecordDecides | components/dspi/dspi.cpp:1424-1456 | streaming starts on the record read exactly if its tap, channel mask, FFT size and flags, byte by byte, are the wanted ones, with the reported channels to poll; otherwise it is written |
| RtaSetup.WantedExactly | components/dspi/dspi.cpp:1194-1210 | over every run the client wants the tap and the nonempty channel mask asked for last; nothing the device says changes them |
| RtaSetup.WritesWanted | components/dspi/dspi.cpp:1235-1251 | over every run a configuration is written exactly when one is due in the writing phase, and it holds the wanted tap and channels |
| RtaSetup.KnownExactly | components/dspi/dspi.cpp:1343-1389 | over every run capabilities are believed exactly from a usable record until a device is next identified |
| RtaSetup.ResetBegins | components/dspi/dspi.cpp:1123-1137 | after the link went down or a device was identified the display is dark and an enabled client begins with the capabilities or, if known, the configuration |
| RtaSetup.EnablingBegins | components/dspi/dspi.cpp:1153-1164 | enabling begins there at once, unless the device is known not to be able |
| RtaSetup.DisablingEnds | components/dspi/dspi.cpp:1166-1177 | disabling darkens the display and sends one courtesy stop exactly if it streams with nothing outstanding |
| RtaSetup.SetterRereads | components/dspi/dspi.cpp:1194-1210 | a setter that changes something has an enabled client read the configuration again at once, unless unsupported |
| RtaSetup.UsableCaps | components/dspi/dspi.cpp:1360-1388 | usable capabilities: at most 37 bands promised, the table read from its first chunk, an FFT size the device has |
| RtaSetup.OutsideIs | components/dspi/dspi.cpp:1379-1383 | the FFT sizes the device has are exactly those from its lowest to its highest |
| RtaSetup.SetupFailureDecides | components/dspi/dspi.cpp:1548-1562 | a bring-up request that was never answered is made again a second later, a refused one is the end |
| RtaSetup.OptionalFailureDecides | components/dspi/dspi.cpp:1580-1598 | missing centres are skipped, a failed stop is a stop, a failed status read pauses the polls |
| RtaSetup.PauseAfterPoll | components/dspi/dspi.cpp:1459-1461 | after a poll was answered, failed or found no room nothing is asked until the interval is over in true time |
| RtaSetup.StatusNoPause | components/dspi/dspi.cpp:1503-1505 | the answer to a status read does not pause the polls |
| RtaTrace.ApplyKeeps | components/dspi/dspi.cpp:1123-1598 | every step of the client, setters and failures included, keeps the trace in order |
| RtaTrace.DarkRepeatsLive | components/dspi/dspi.cpp:1266-1276 | over every run each dark update repeats the live update directly before it |
| RtaTrace.NoFrameTwice | components/dspi/dspi.cpp:1483-1491 | within a session and without a dark update between, no channel shows the same sequence number twice in a row |
| RtaTrace.FlagAndCounters | components/dspi/dspi.cpp:1266-1276 | the live flag is the last update's, the counters are the numbers of live and dark updates modulo 2^32 |
| Freshness.BandsShow | components/dspi/dspi.cpp:1459-1501 | a band reply shows a usable frame exactly if it is recent and new to the display, turns the display dark exactly if it is stale, and otherwise changes nothing shown |
| Freshness.LiveExactly | components/dspi/dspi.cpp:1459-1501 | over every run the live updates are exactly the frames that parse, have bands, are recent and are new when they arrive, in order |
| Freshness.LiveIsRecent | components/dspi/dspi.cpp:1478-1481 | so no live update is ever of a frame older than the stale limit or without an age |
| Freshness.StaleIsDark | components/dspi/dspi.cpp:1478-1481 | and a usable frame that is too old always leaves the display dark |
| RtaRequests.OneAtATime | components/dspi/dspi.cpp:1212-1341 | over every run in which no setter takes effect, no link goes down and no device is identified while a request is open, at most one request is open and the client knows of it |
| RtaRequests.SecondRequest | components/dspi/dspi.cpp:1123-1210 | after each of those calls the next due service pass opens a second request, if and only if the call leaves the client enabled |
| RtaRequests.TwoAtOnce | components/dspi/dspi.cpp:1194-1201 | a run that opens two: enable, ask for capabilities, change the tap, ask for the configuration |
| RtaRequests.LostRequestStops | components/dspi/dspi.cpp:1278-1282 | if the one open request is evicted or flushed, over every run nothing more is asked until a setter takes effect, the link goes down or a device is identified |
| RtaRequests.LostCapabilities | components/dspi/dspi.cpp:252-259 | an instance: the capabilities request of a client just enabled is evicted |
| RtaRequests.SilentAfterDisabling | components/dspi/dspi.cpp:1166-1177 | after disabling with no bring-up request open, until it is enabled again the client asks for nothing but at most one courtesy stop |
| RtaRequests.BringUpWakes | components/dspi/dspi.cpp:1343-1457 | a bring-up answer arriving after disabling wakes the client if and only if it succeeds and is not of an unsupported version |
| AnalyserRequests.AsksApart | components/dspi/dspi.cpp:219-221 | two of the analyser's requests coalesce exactly if they are the same request, but for the record written; channels and chunks stay apart |
| AnalyserRequests.EnoughAsked | components/dspi/protocol.h:131-135 | every read asks for enough: from a reply cut to the length asked for the same record is read |
| AnalyserRequests.PollsNotRepeated | components/dspi/dspi.cpp:1332-1336 | over every run from power-on the poll of a channel is transmitted at most once before it ends |
| AnalyserRequests.PollsYield | components/dspi/dspi.cpp:1332-1336 | a poll displaces nothing but other polls |
| AnalyserRequests.PollsGiveWay | components/dspi/dspi.cpp:1332-1336 | and while one waits every more important request enters, displacing nothing more important than a poll |
| PresetConfirmation.PresetConfirm.OnPresetActive | components/dspi/dspi.cpp:868-894 | a report in range is published and ends the wait if it matches; the name request it may cause is left out |
| PresetConfirmation.PresetConfirm.ForgetPresetLoad | components/dspi/dspi.cpp:572-575 | a platform reply ends the wait without a verdict |
| PresetConfirmation.PresetConfirm.ServicePresetConfirm | components/dspi/dspi.cpp:981-997 | a due check reads the active slot, the seventh gives up |
| PresetConfirmation.LoadStartsWait | components/dspi/dspi.cpp:920-953 | a load the queue accepted starts a wait for its slot with nothing read, due 250 ms later; any other changes nothing |
| PresetConfirmation.DueCheckReads | components/dspi/dspi.cpp:981-997 | each due check up to the sixth reads the active slot and puts the next off by 250 ms; the next ends the wait |
| PresetConfirmation.ReadsBounded | components/dspi/dspi.cpp:981-997 | over every run each accepted load causes at most six reads, the first and every next at least 250 ms of true time later |
| PresetConfirmation.DueWhenDue | components/dspi/dspi.cpp:984-985 | looked for within half the clock's range, a check is due exactly from its true time on |
| PresetConfirmation.EndsTheWait | components/dspi/dspi.cpp:575 | the wait ends exactly on a match, a rejection, a failure, a platform reply, or a due check after six reads |
| PresetConfirmation.WaitIsFinite | components/dspi/dspi.cpp:987-993 | without another load the seventh due check ends it at the latest |
| PresetConfirmation.ActiveIsReported | components/dspi/dspi.cpp:868-882 | the slot shown is the last one in range that the device reported |
| PresetConfirmation.PublishedIsReported | components/dspi/dspi.cpp:868-894 | every slot ever published is below ten and was the device's report at that moment |
| PresetConfirmation.PublishesExactly | components/dspi/dspi.cpp:868-997 | the slot is published exactly by a report in range, and, once known, by a load that is rejected, fails or is never confirmed |
| PresetConfirmation.OnlyReportsMove | components/dspi/dspi.cpp:868-882 | only a report in range changes the slot shown |
| Sources.SourceMask.OnSpdifInputConfig | components/dspi/dspi.cpp:634-658 | the loop builds the mask and keeps the ADAT bit |
| Sources.SpdifMeaning | components/dspi/dspi.cpp:640-650 | the mask names USB, I2S and the enabled existing S/PDIF inputs and nothing else |
| Sources.SourceNumbers | components/dspi/dspi.cpp:640-652 | the reply lists exactly the sources numbered as on the wire: USB 0, S/PDIF 1, I2S 2, ADAT 3 as before, S/PDIF 2 to 4 as 4 to 6, each if it exists and is enabled |
| Sources.FlagIsPower | components/dspi/dspi.cpp:644-649 | the bits of the mask count from the lowest |
| Sources.NeverAdat | components/dspi/dspi.cpp:645-650 | mapping S/PDIF inputs never touches the ADAT bit |
| Sources.MaskFromLastReplies | components/dspi/dspi.cpp:634-681 | in every run the mask is what the last usable reply of each kind says |
| Sources.Confluent | components/dspi/dspi.cpp:634-681 | two histories with the same last replies leave the same mask |
| Sources.AdatBit | components/dspi/dspi.cpp:671-676 | the ADAT bit is set exactly when ADAT is enabled and has a pin |
| Limits.ResetDueInLowerHalf | components/dspi/dspi.cpp:1128-1129 | the zero deadline set by a reset is due at once exactly in the lower half of the clock's range |
| Limits.ProbeIntervalKept | components/dspi/dspi.cpp:53-61 | the probe interval is kept exactly while the pass's clock is not older than the probe's stamp |

## Left out

- ESPHome plumbing: the UART driver, logging, `dump_config`, code generation and configuration schemas.
- The entity platforms (number, select, switch, sensor, text sensor): one-branch "publish if changed" checks.
- `tools/dspi_setup.py`, float conversion of volumes and levels, opcode and name tables.
- Reply handlers that only store and publish a value; what they queue or ask for enters the runs as further steps.
- User callbacks that call back into the hub: callbacks are log entries, a call they make is a later step.
- The device: only the two assumptions named at `Attribution.RepliesReachTheirRequests` are made about it.
- Preset names, the reads of them and the occupancy table: a name reply carries no slot number and requests for different slots do not coalesce, so the name can be attributed to the wrong slot.
- The analyser's status record, its foreign-configuration flag and `rta_reset_avg`: stored or sent and not acted upon.
- Failure callbacks of evicted, refused or flushed transactions: the code makes none; the log tells these endings apart from exhausted and rejected ones.
- Service: gives the kind of request; `AnalyserRequests.RequestFor` says which transaction that is, and whether the queue takes it is a parameter of the client's runs.
- The setters' own transactions (volumes, toggles, input source): a submitted request is any request.
- PumpRx: the classes stop at the hub's own handlers; callbacks that make the hub do more are in `Link.PumpIsHandling`, as an arbitrary reaction to each frame.
- GoOffline: the analyser's reset and the republishing it triggers are steps of the other machines.
- HandlePlatform: the firmware version numbers, the validity of toggle values and automatic enabling of the analyser are not modelled; the latter is a setter call in the runs of the client.
- UnansweredEnds: is about one request alone in the queue, to show that the bounds of `Share.RequestIsBounded` are attained; the bound itself needs none of this.
- BringUpEnds: covers runs without setter calls, lost requests or short capability and configuration replies, which restart or repeat a phase without bound.
- PassMakesProgress: the clock is read once for the whole pass; `Limits.ProbeIntervalKept` says what a later reading changes.
- AlwaysInv: the configured retry limit is at most ten, as `components/dspi/__init__.py:136` enforces; a limit set on one transaction may be anything.
- DamageDetected: the length field is taken as undamaged and the type as still one the parser accepts, since other damage changes which bytes the frame consists of; the results in `Detection` and `Bursts` share this.
- NoFrameTwice: speaks of channels below 16; for other channel numbers the code keeps no sequence numbers and shows every frame.
