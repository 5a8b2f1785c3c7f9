# Verified model of logitechd

logitechd drives a Logitech MX Master mouse behind a wireless receiver: it exchanges HID++ reports with the
mouse, changes its settings and turns its diverted controls into virtual input. This project models the parts
of the daemon that carry state or invariants and proves what they keep, over every input and every run.

`dafny verify dfyconfig.toml` checks everything.

| file | models |
|---|---|
| `Common.dfy` | option and result types, fixed-width integers |
| `Wire.dfy` | HID++ reports on the wire, and which transaction a report belongs to |
| `WaitingList.dfy` | the pending transactions as one list in registration order; runs of the reader over it |
| `Session.dfy` | the dispatcher as a mutable map of per-key queues, refining that list method by method |
| `Protocol.dfy` | every interleaving of any number of `Exchange` calls with the reader, as a step relation |
| `Descriptor.dfy` | the HID report descriptor interpreter (Device Class Definition for HID 1.11, sections 6.2.2.2 to 6.2.2.7) |
| `DpiList.dfy` | the chunked DPI list: decoder, reassembly, nearest value |
| `Mouse.dfy` | the configurable state of the mouse and the feature clients that write it |
| `Configurator.dfy` | applying a configuration, the log of clean-ups, and running it backwards |
| `Keyboard.dfy` | event streams of the virtual keyboard, and the difference between keys held and keys desired |
| `Inputs.dfy` | what input events ask for: keys of controls and gestures, wheel accumulators, the relative events of a stream |
| `Actions.dfy` | the action handler: reconciling the keyboard across output failures, the worker |
| `Lifecycle.dfy` | the receiver's worker and its child handles |
| `Daemon.dfy` | which target is active, and who owns the configurators and outputs |
| `FeatureCache.dfy` | the feature cache of a child session, protocol validation |

How things are modelled:

- Objects that the daemon updates in place are classes; each method is proved against a function or relation of
  the state before it. Device and output calls are methods that may fail nondeterministically; a failed device
  write may or may not have taken effect.
- A whole run is either a method that loops over a script of steps (`Session.Dispatcher.ReadLoop`,
  `Actions.ActionHandler.Run`, `Lifecycle.ReceiverSession.Run`, `Daemon.Session.Run`,
  `FeatureCache.DeviceSession.Run`) or a fold of a step relation (`Protocol.Exec`).
- Ghost fields record what cannot be read off the state: the abstract list, the events sent about a handle, the
  resources acquired and not released.
- `int` is a 64-bit integer; every place where the code relies on a width states it.
- Where a method and its specification share a definition, a law says what that definition means without it: in
  bytes (`Wire.RouteOfBytes`, `WaitingList.ReplyIsDelivered`, `Descriptor.OneReport`, `DpiList.RangeListMeans`), by
  item types (`Descriptor.DataItemAddsBits`), field by field (`Configurator.FieldsHold` in the contract of `Apply`),
  by signs and sizes (`Inputs.DirectionMeans`) or in the order of the integers (`DpiList.NothingIsNearer`).

Where the code does not do what one might expect, the condition under which it does is proved:

- Torque: a device that holds a torque outside 1..100 and gets another one configured cannot be given back its
  own. However far `Apply` came, a `Close` without failing calls brings back everything but torque, and torque too
  when `Configurator.TorqueSafe` holds; after a successful `Apply` the settings are restored if and only if it holds
  (`ApplyThenClose`, with a concrete device in `TorqueZeroIsLost`).
- Wheel byte: the five unused bits come back if and only if they were clear or the wheel is not configured
  (`WheelByteRestoredExactlyWhen`, from `Apply` to `Close` in `ApplyThenClose`, with a concrete device in
  `SpareBitIsLost`).
- Error report: the clean-up writes the recorded torque even when it did not change. After a successful `Apply`, a
  `Close` without failing calls reports an error if and only if the smart shift is configured and the device came
  with a torque outside 1..100 (`ApplyThenClose`, with a completely restored device in `RestoredYetReported`).
- Retry timer: it can assign a target over an active one, whose configurator and output then stay open. A session
  leaves nothing open if and only if that never happens (`Daemon.Session.Run`, with a run that loses a target in
  `RetryOverActiveLosesTarget`).
- Omitted gesture directions: the comment at `internal/config/config.go:84-85` says such a direction is ignored. In
  the code it becomes the gesture. An event in such a direction changes nothing at all if and only if no direction
  has an action; it leaves gesture and keyboard alone if and only if no direction has an action, or the event does
  not act, or that direction already is the gesture (`OmittedDirectionIgnoredExactlyWhen` and the contract of
  `HandleRawXY`, with a fresh handler for which it is not ignored in `OmittedDirectionTakesOver`).
- The receiver's worker fills the queue that it alone empties: it blocks until the session is closed at the first
  connection of an awake device for which the 32 places do not suffice, and at no other work
  (`Lifecycle.ReceiverSession.Run`, with one device that connects 33 times in `Reconnecting`).
- DPI lists: a list whose terminator lies beyond the 256 requests is refused, every other well-formed one is read
  back (`SupportedRoundTrip`).
- Error reports complete the transaction of their request if and only if that request awaits its own sub-ID
  (`ErrorReportsReachTheirRequest`).

## Model

| member | source | states |
|---|---|---|
| Wire.WireLayout | internal/hidpp/report.go:119-148 | Which reports can be built, and every byte of what is built |
| Wire.ParseLayout | internal/hidpp/report.go:92-116 | Which bytes are reports, which are of a wrong length, and every field of what is parsed |
| Wire.BuildThenParse | internal/hidpp/report.go:92-148 | Every report that can be built is parsed back as itself with zero-padded parameters, at its wire length |
| Wire.ParseThenBuild | internal/hidpp/report.go:92-148 | Building a parsed report gives back the bytes it was parsed from |
| Wire.ParseAccepts | internal/hidpp/report.go:92-103 | Exactly the encodings of reports are accepted; what is not HID++ is told apart from a wrong length |
| Wire.Build | internal/hidpp/report.go:126-148 | Fills a fresh buffer with the encoding, or fails with the encoding's own reason |
| Wire.Parse | internal/hidpp/report.go:92-116 | Decodes the first n bytes of the shared read buffer, and nothing behind them |
| Wire.ParsedNeverTruncated | internal/hidpp/session.go:404-433 | No parsed report reaches the failure paths for fewer than two error parameters |
| Wire.AcceptedExactlyWhenAnswerable | internal/hidpp/session.go:183-198 | A request is refused exactly when it cannot be built or no reply of its own type could be told from an error report |
| Wire.RouteOfBytes | internal/hidpp/session.go:355-433 | A reply names its transaction in bytes 1 to 3, an error report in bytes 1, 3 and 4 with its code in byte 5 |
| Wire.ErrorReportsReachTheirRequest | internal/hidpp/session.go:355-433 | Error reports of both dialects, whatever their remaining bytes, carry the device's code and name the key of the request that awaits its own sub-ID, and no other request's |
| Wire.RepliesReachTheirRequest | internal/hidpp/session.go:183-214 | A reply with the awaited sub-ID and command is routed to the request's key unless it is itself an error report |
| WaitingList.OldestIsLeast | internal/hidpp/session.go:443-488 | What is taken for a key is the transaction on that key with the least registration order, or nothing when none waits |
| WaitingList.TakeForKey | internal/hidpp/session.go:443-457 | Taking removes the head of one key's queue and leaves every other queue alone |
| WaitingList.ErrorCompletesOldest | internal/hidpp/session.go:355-377 | An error report that quotes a request, whatever its remaining bytes, completes the oldest transaction with its key or nobody, and never becomes a notification |
| WaitingList.ReplyCompletesOldest | internal/hidpp/session.go:379-386 | A reply to an accepted request is handed, as it was decoded, to the oldest transaction waiting on the request's key and to nobody else |
| WaitingList.ReplyIsDelivered | internal/hidpp/session.go:379-402 | The same by bytes, for every reply on the wire; it is left to the report handlers if and only if nobody waits on its key |
| WaitingList.ErrorIsDelivered | internal/hidpp/session.go:355-377 | An error report fails the oldest transaction on the key that its bytes quote with the code in them, and nobody else |
| WaitingList.OnlyBadReadsFailEverybody | internal/hidpp/session.go:330-352 | A failed or garbled read fails everybody; what is not HID++ is heard by nobody; no decodable report ever sends a malformed response or a closed transport |
| WaitingList.FirstFailureMeans | internal/hidpp/session.go:331-337 | The terminal cause of a run is that of its first failed read |
| WaitingList.EachServedOnce | internal/hidpp/session.go:327-402 | Over every run of the reader each transaction either still waits or was sent exactly one result; after a failed read nobody waits |
| WaitingList.ServedBelongs | internal/hidpp/session.go:355-402 | Over every run a reply or device error goes only to a transaction registered under its key |
| WaitingList.ServedInOrder | internal/hidpp/session.go:443-457 | Over every run transactions with one key are served in registration order |
| WaitingList.ReadEnds | internal/hidpp/session.go:331-337 | Nothing is read, sent or reported after a failed read |
| Session.AddRefines | internal/hidpp/session.go:435-441 | Appending to the queue of a key is appending to the global list |
| Session.WithoutRefines | internal/hidpp/session.go:494-509 | Splicing one element out of its queue, and deleting a queue that becomes empty, is dropping exactly that transaction from the list |
| Session.QueueEntry | internal/hidpp/session.go:443-457 | Queues are filed under their own key, in list order, with the oldest at the head |
| Session.QueuesAreDisjoint | internal/hidpp/session.go:511-522 | No transaction is in two queues or twice in one |
| Session.Dispatcher.AddPending | internal/hidpp/session.go:435-441 | A new transaction gets the next order and goes to the end of the list |
| Session.Dispatcher.Begin | internal/hidpp/session.go:179-214 | A request is refused without a trace, exactly when it cannot be built or awaits an error report, or registered under its device, awaited sub-ID and command byte |
| Session.Dispatcher.TakePending | internal/hidpp/session.go:443-457 | Removes and returns the oldest transaction with the key, still without a result |
| Session.Dispatcher.TakePendingError | internal/hidpp/session.go:462-488 | The scan over the map, in any order, does what the direct lookup does |
| Session.Dispatcher.RemovePending | internal/hidpp/session.go:494-509 | Removes exactly its target; a target that has left the table changes nothing |
| Session.Dispatcher.FailPending | internal/hidpp/session.go:511-522 | Everybody who waits is sent the outcome, nobody else is, and the table is empty |
| Session.Dispatcher.MarkClosed | internal/hidpp/session.go:524-531 | The first terminal cause is kept |
| Session.Dispatcher.Dispatch | internal/hidpp/session.go:355-402 | A reply is sent whole to the oldest transaction on its key, an error report as its code to the oldest on the key it quotes, nobody else is sent anything; a reply that nobody waits for is left to the report handlers |
| Session.Dispatcher.ReadOne | internal/hidpp/session.go:330-352 | For every return of the transport, which transactions are sent what: a reply or error report by its bytes, a garbled or failed read to everybody, anything else to nobody; one iteration is one step on the list |
| Session.Dispatcher.ReadLoop | internal/hidpp/session.go:327-353 | A whole run of the reader serves, reports and closes as the list-level run does |
| Protocol.StepKeepsInv | internal/hidpp/session.go:179-402 | Every step of every goroutine keeps the invariant: each transaction is in the table, in the reader's hands, in its channel or gone |
| Protocol.RunsAreSafe | internal/hidpp/session.go:179-402 | The invariant holds in every reachable state |
| Protocol.ReaderNeverBlocks | internal/hidpp/session.go:355-402 | Each transaction is sent at most one result, after it has left the table, so a send on its channel is always enabled |
| Protocol.ReturnedCallsAreGone | internal/hidpp/session.go:214-231 | When an exchange has returned by any path its transaction is not in the table, and a result it returns was sent to it once and is for its key |
| Protocol.AnswersInOrder | internal/hidpp/session.go:443-488 | When a call is answered every earlier call on its key has left the table, and if that one is answered too it was taken before |
| Protocol.OneWriterAtATime | internal/hidpp/session.go:303-325 | The write gate admits one exchange at a time |
| Protocol.NoLostWaiter | internal/hidpp/session.go:216-231 | A call that has not given up has its result in its channel, or is about to be sent it, or is in the table |
| Protocol.FailingReaderExits | internal/hidpp/session.go:331-337 | A reader that saw a failed read leaves by its own steps, one per result it still has to send |
| Protocol.ShutdownFreesEveryone | internal/hidpp/session.go:216-230 | Once the reader has exited every call, whenever it registered, returns by at most three steps of its own whatever becomes of a write under way, and is out of the table |
| Protocol.SettledForGood | internal/hidpp/session.go:524-531 | The terminal cause and the outcome of a returned call never change |
| Protocol.ReplyIsReturned | internal/hidpp/session.go:222-223 | The call that is oldest on the key of a reply when it is read returns that reply, as it was decoded, whatever happens afterwards, if it returns a result at all |
| Protocol.EveryEndIsExplained | internal/hidpp/session.go:216-231 | Over every run a returned reply, device error, malformed response or closed transport goes back to a read that says so, and giving up to an expiry, a rejected write or a closed session with the cause that happened |
| Protocol.UndisturbedExchange | internal/hidpp/session.go:174-231 | On an open, idle session a call on a free key whose request is written and whose reply arrives returns the reply and leaves everything as it was |
| Protocol.TimeoutFreesCaller | internal/hidpp/session.go:225-227 | A waiting call can give up at any time by two steps of its own, and touches no other |
| Protocol.SessionEnds | internal/hidpp/session.go:254-337 | Closing, a failed read and a write that finds the transport gone end the session |
| Protocol.ClosedSessionsAreNotWritten | internal/hidpp/session.go:303-325 | The check behind the write gate lets a call write exactly while the session is open, and gives the gate back otherwise |
| Descriptor.ItemLayout | internal/hidpp/report.go:288-320 | How many bytes an item takes, its type, tag and payload, by the bits of its prefix |
| Descriptor.TokensInversePrint | internal/hidpp/report.go:288-320 | A byte string is completely tokenised exactly when it is the print of a list of items, and then of that list only |
| Descriptor.MeaningOfPrint | internal/hidpp/report.go:278-396 | Bytes that print a list of items are accepted exactly when the item-level interpreter accepts the list, with the same lengths |
| Descriptor.AcceptedIsPrinted | internal/hidpp/report.go:278-396 | A descriptor is accepted exactly when it is the print of a list of items that is, with the lengths of that list |
| Descriptor.FirstErrorWins | internal/hidpp/report.go:278-396 | The first failing item decides the error, whatever bytes come after it |
| Descriptor.NeutralItemsDoNotMatter | internal/hidpp/report.go:322-384 | Collections, local, reserved and long items change neither result nor error wherever they stand |
| Descriptor.DataItemAddsBits | internal/hidpp/report.go:351-383 | Input, Output and Feature items are main items 8, 9 and 11; each accepted one adds size times count bits to its own direction of the current report and nothing else |
| Descriptor.GlobalItemsSet | internal/hidpp/report.go:323-350 | What each of the global items 7 to 11 assigns, saves or restores, and when it is an error |
| Descriptor.NothingIsSetAtFirst | internal/hidpp/report.go:279-287 | Without a report ID item reports have the ID 0, and a data item needs size and count |
| Descriptor.UnsignedBytes | internal/hidpp/report.go:398-407 | Parameters are little-endian |
| Descriptor.OneReport | internal/hidpp/report.go:278-396 | The bytes that describe one report by ID, size, count and a data item are accepted, and its length is what its bits need |
| Descriptor.PushPopRestoresGlobals | internal/hidpp/report.go:342-349 | In every accepted list the global state and the stack after a pop are those before its push, whatever balanced items stand between them |
| Descriptor.LengthCoversBits | internal/hidpp/report.go:363-383 | The byte length covers the bits, exceeds them by less than one byte per main item after the first, and is exact for whole bytes |
| Descriptor.LengthsAreSound | internal/hidpp/report.go:278-396 | A report is listed exactly when a main item mentions it, with the length of its longest direction, positive and within int |
| Descriptor.LengthIsMaximum | internal/hidpp/report.go:387-395 | The length of a report bounds every direction and is reached by one |
| Descriptor.FieldsFit | internal/hidpp/report.go:323-383 | Every parameter, item and total of an accepted descriptor is a non-negative 64-bit integer |
| Descriptor.UnsignedItem | internal/hidpp/report.go:398-407 | One to eight bytes are their little-endian value, within 64 bits |
| Descriptor.ReadItem | internal/hidpp/report.go:288-320 | Reads the item at the offset if all of it is there |
| Descriptor.ApplyGlobal | internal/hidpp/report.go:323-350 | A global item does to the parameters and the stack what the interpreter says, with its error |
| Descriptor.AddMainItem | internal/hidpp/report.go:351-383 | A data main item adds its rounded length to one report and direction; both overflows are caught before they happen |
| Descriptor.ApplyItem | internal/hidpp/report.go:322-384 | One item changes the parser's variables as it changes the item-level machine, and the map keeps agreeing with the fields |
| Descriptor.DescriptorReportLengths | internal/hidpp/report.go:278-396 | The byte-level loop terminates with the lengths, or the first error, of the items that the bytes spell |
| Descriptor.Largest | internal/hidpp/report.go:389-393 | The maximum over the directions, in any order |
| Descriptor.LargestPerReport | internal/hidpp/report.go:387-395 | The longest direction of every report, in any order |
| Descriptor.RecognizeDescriptor | internal/hidpp/report.go:216-259 | Accepted exactly when report 0x10 has 6 or 7 bytes of payload or report 0x11 has 19 or 20; the formats state the wire lengths and the padding, short before long whatever the map order |
| Descriptor.CollectFormats | internal/hidpp/report.go:222-254 | Exactly the two known reports with their wire payload, with or without one byte of padding |
| Descriptor.RecognizedFitsTheWire | internal/hidpp/report.go:222-252 | A report is recognised exactly when its described length is that of the HID++ report of its ID, or one more |
| DpiList.ProgressionIsArithmetic | internal/mxmaster/features.go:502-507 | A range expands to the longest arithmetic progression that does not pass its bound |
| DpiList.DecodeInvertsPrint | internal/mxmaster/features.go:486-520 | Decoding the print of any well-formed list, a zero word and any junk gives its expansion |
| DpiList.DecodeCharacterised | internal/mxmaster/features.go:486-520 | The decoder returns given values exactly for the prints of the well-formed lists with that expansion |
| DpiList.RangeListMeans | internal/mxmaster/features.go:486-520 | Byte by byte, what a first value, a range and a zero word stand for, up to 4096 values, and which ranges are errors |
| DpiList.RangeNeedsItsEnds | internal/mxmaster/features.go:494-501 | A list that starts with a range is an error |
| DpiList.AppendRange | internal/mxmaster/features.go:502-507 | The inner loop appends the whole progression, or stops exactly when the list would exceed 4096 values |
| DpiList.DecodeDpiList | internal/mxmaster/features.go:486-520 | The loop over the words is the recursive decoder, errors included |
| DpiList.Supported | internal/mxmaster/features.go:452-484 | Reading in chunks gives the reassembled list's decoding, or the first error |
| DpiList.AssembleFails | internal/mxmaster/features.go:455-463 | A failed call and a reply without list bytes end the reading with their own errors |
| DpiList.CutAlwaysTerminates | internal/mxmaster/features.go:464-520 | On data cut at its first aligned zero word the decoder never runs off the end |
| DpiList.SupportedReadsMemory | internal/mxmaster/features.go:452-484 | Words split across chunks, the last of which may be short, are joined: the result is the decoding of the device's memory cut at its first aligned zero word if 256 requests reach it, and a missing terminator if and only if they do not |
| DpiList.SupportedRoundTrip | internal/mxmaster/features.go:452-520 | A device that stores a well-formed list is read back as its expansion if and only if 256 requests reach the terminator |
| DpiList.NearestIsUnique | internal/mxmaster/features.go:553-566 | At most one supported value is closest with ties to the smaller |
| DpiList.NothingIsNearer | internal/mxmaster/features.go:553-573 | The same of every value that is closest with ties to the smaller, in plain order |
| DpiList.NearestDpi | internal/mxmaster/features.go:553-573 | Returns a supported value such that none lies strictly between it and its mirror image on the other side of the request, the smaller one if both are supported, and a supported request itself; fails on an empty list |
| Mouse.WheelCodec | internal/mxmaster/features.go:288-304 | The three mode bits survive any byte; what is written has no other bits |
| Mouse.WheelBits | internal/mxmaster/features.go:288-304 | Bit 0 is the hand-over to HID++, bit 1 the high resolution, bit 2 the inversion |
| Mouse.Device.GetStatus | internal/mxmaster/features.go:149-187 | A status is the present state, or an error when the device reports nonsense or a call fails |
| Mouse.Device.SetStatus | internal/mxmaster/features.go:197-230 | Sets mode and threshold and preserves torque on both versions; bad arguments never reach the device |
| Mouse.Device.SetThreshold | internal/mxmaster/features.go:232-240 | Sets the threshold and leaves the mechanical mode alone |
| Mouse.Device.SetTorque | internal/mxmaster/features.go:264-277 | Sets torque alone, within 1..100, only where it is advertised |
| Mouse.Device.SetMode | internal/mxmaster/features.go:372-375 | Sets the three wheel bits and clears the others |
| Mouse.Device.SetNearest | internal/mxmaster/features.go:575-588 | Success sets the closest supported DPI; a failed write may have taken effect; an empty list or a closest value of zero fails without a change |
| Mouse.Device.SetReporting | internal/mxmaster/features.go:834-845 | Sets both thumb wheel flags or fails, having happened or not |
| Mouse.Device.SetTemporaryDiversion | internal/mxmaster/features.go:714-731 | Changes the diversion of one known control and no other; a reply that names another control is an error |
| Configurator.ConfiguredOnlyTouches | internal/mxmaster/configurator.go:253-485 | The intended result differs from the initial state only in configured fields |
| Configurator.ConfiguredIdempotent | internal/mxmaster/configurator.go:253-485 | Applying a configuration twice is applying it once |
| Configurator.ConfiguredFieldsHold | internal/mxmaster/configurator.go:253-485 | In the intended result every present field has its value and every other one is kept, field by field |
| Configurator.ExpectedErrorMeans | internal/mxmaster/configurator.go:253-485 | Without failing calls Apply succeeds exactly when everything configured is there; a missing feature is reported only when one is missing |
| Configurator.PushKeepsLog | internal/mxmaster/configurator.go:510-517 | Part by part, pushing a snapshot keeps the log able to bring back every state that differs from the original in what it covers |
| Configurator.SnapshotsRestore | internal/mxmaster/configurator.go:487-508 | A log of snapshots, run last in first out, restores every part of the state they were taken of |
| Configurator.RestoredExactlyWhen | internal/mxmaster/configurator.go:250-517 | After a successful first Apply the log restores the settings if and only if the torque guard holds, and every part but torque in any case |
| Configurator.UnsafeTorqueStays | internal/mxmaster/configurator.go:312-351 | Without the guard the torque stays at the configured value, which is not the original one |
| Configurator.WheelByteRestoredExactlyWhen | internal/mxmaster/configurator.go:354-401 | The whole wheel byte comes back if and only if the wheel is not configured or its spare bits were clear |
| Configurator.UndoAllByPart | internal/mxmaster/configurator.go:503-505 | What the log does to one part depends on that part only |
| Configurator.Configurator.AddCleanup | internal/mxmaster/configurator.go:510-517 | A snapshot joins the log before its part is changed; the log stays good for the original state |
| Configurator.Configurator.ApplySmartShift | internal/mxmaster/configurator.go:275-337 | Mode, threshold and torque end as configured; without `enabled` the mode is never changed, not even by a failed call |
| Configurator.Configurator.ApplyWheel | internal/mxmaster/configurator.go:354-401 | After a success `enabled` is both the hand-over and the high resolution, `invert` the inversion, and omitted bits are as they were |
| Configurator.Configurator.ApplyDpi | internal/mxmaster/configurator.go:403-416 | DPI becomes the closest supported value and nothing is logged |
| Configurator.Configurator.ApplyThumbWheel | internal/mxmaster/configurator.go:418-458 | Both thumb wheel flags end as configured, omitted ones as they were |
| Configurator.Configurator.ApplyButtons | internal/mxmaster/configurator.go:460-485 | In any order of the controls, the listed ones end as configured and the others as they were |
| Configurator.Configurator.Apply | internal/mxmaster/configurator.go:253-273 | After a success every present field has its value, mode, threshold, torque, wheel bits, nearest DPI, thumb wheel flags and controls, and every other one is as it was; it succeeds without failing calls exactly when everything configured is there; the stages take effect one after the other; failure at any call leaves unconfigured fields alone and a log that restores every part of the original, torque under its guard; without failing calls the error is the predicted one |
| Configurator.Configurator.RunCleanup | internal/mxmaster/configurator.go:344-377 | Every part without a reported error is undone, failed calls account for the failed parts one by one, without failing calls everything within reach is undone, and if only the first call failed the wheel or control is handed back to the firmware |
| Configurator.Configurator.Close | internal/mxmaster/configurator.go:487-508 | Every part without a reported error is back at its original value, torque under its guard; n failed calls spoil at most n parts; without failing calls the log is undone completely, whether or not Apply had failed, and what is reported is exactly a recorded torque that cannot be written |
| Configurator.ApplyThenClose | internal/mxmaster/configurator.go:253-517 | However far Apply came, a Close without failing calls restores every field but torque, and torque under its guard; after a successful Apply the settings come back if and only if the guard holds, an unsafe torque is the configured one, the spare bits of the wheel byte come back if and only if the wheel is not configured or they were clear, and Close reports exactly a torque that the device came with and does not accept |
| Configurator.TorqueZeroIsLost | internal/mxmaster/configurator.go:312-351 | A device with torque 0 and a configured torque of 50 ends at 50, with mode and threshold as they were |
| Configurator.SpareBitIsLost | internal/mxmaster/configurator.go:354-401 | A device with a spare wheel bit set and a configured inversion gets its wheel mode back but not that bit |
| Configurator.RestoredYetReported | internal/mxmaster/configurator.go:344-352 | A device with torque 0 of which only the mode is configured is back as it was, and Close reports an error |
| Keyboard.ConsistentMeansAlternating | internal/mxmaster/actions.go:458-479 | A stream presses and releases consistently exactly when the events of every key alternate |
| Keyboard.PlanEffect | internal/mxmaster/actions.go:437-449 | The events of a reconcile lead from the keys held to exactly the keys desired, without a double press or release |
| Keyboard.PlanSparesSharedKeys | internal/mxmaster/actions.go:437-449 | A key that is still wanted is neither released nor pressed again |
| Keyboard.PlanKeepsOrder | internal/mxmaster/actions.go:437-443 | Keys are released in the reverse of the order in which they were pressed |
| Keyboard.PressesKeepOrder | internal/mxmaster/actions.go:445-449 | Keys are pressed in the desired order |
| Keyboard.PlanPrefixRels | internal/mxmaster/actions.go:437-463 | Whatever part of a plan gets out, its relative events are an initial part of the extra events in their order, and all of them if all of it gets out |
| Inputs.DesiredMeansWanted | internal/mxmaster/actions.go:490-517 | The desired keys are the union over the pressed buttons and the gesture |
| Inputs.DesiredOrderGrows | internal/mxmaster/actions.go:490-517 | Keys of lower controls come first, those of the gesture last |
| Inputs.NewRelativesMean | internal/mxmaster/actions.go:331-343 | Each newly pressed control with a relative action asks for exactly that, in the order of the controls |
| Inputs.MotionStaysExact | internal/mxmaster/actions.go:357-365 | As long as there is no gesture the sums that are compared with the threshold never wrap around in 32 bits |
| Inputs.DirectionMeans | internal/mxmaster/actions.go:579-593 | Left, right, up and down by the signs and sizes of the two components, ties horizontal |
| Inputs.MotionFollows | internal/mxmaster/actions.go:348-386 | The gesture automaton in these terms: release, too little motion, start, switch and refused commands |
| Inputs.GestureAsks | internal/mxmaster/actions.go:369-385 | A gesture that starts asks for exactly the relative event bound to it |
| Inputs.GestureStartsAtThreshold | internal/mxmaster/actions.go:348-386 | Every event keeps the motion below the threshold while there is no gesture; a gesture starts only on an event that brings it there, in the direction of that event |
| Inputs.OmittedDirectionIgnoredExactlyWhen | internal/mxmaster/actions.go:348-386 | An event whose direction has no action changes nothing if and only if no direction has one, and keeps the gesture if and only if no direction has one, or the event does not act, or its direction already is the gesture |
| Inputs.OmittedDirectionIsNotIgnored | internal/mxmaster/actions.go:354-385 | With one action to the left, 20 units to the right make the right the gesture, after which a single unit to the left is enough |
| Actions.OmittedDirectionTakesOver | internal/mxmaster/actions.go:348-386 | The same on a fresh handler, down to the key that is held |
| Inputs.WheelConservesMotion | internal/mxmaster/actions.go:620-629 | Over any run 120 times the clicks plus the remainder is the motion, and the remainder stays below a click |
| Inputs.OneWayTurnIsExact | internal/mxmaster/actions.go:620-629 | Motion in one direction yields the truncated quotient of the whole |
| Inputs.ConsumeSplits | internal/mxmaster/actions.go:620-629 | Clicks and remainder are the one way to split the motion with a remainder below a click and of its own sign |
| Inputs.ConsumeHiRes | internal/mxmaster/actions.go:620-629 | Truncating division splits the sum that way, and no conversion to 32 bits truncates, for every 32-bit delta |
| Inputs.PartOfTurnShows | internal/mxmaster/actions.go:409-419 | Of any part of a turn's events the clicks are shown as a whole or not at all |
| Inputs.StreamConservesMotion | internal/mxmaster/actions.go:388-419 | For every stream of input events, 120 times the clicks plus the remainder is the fine motion, but for the partial clicks that coarse turns forget |
| Inputs.TallySteps | internal/mxmaster/actions.go:388-419 | Which events add what to the motion and the coarse turns of which wheel |
| Inputs.StreamShowsTurns | internal/mxmaster/actions.go:388-419 | What every stream asks for adds up on each wheel's axes to the clicks and coarse turns, and to the fine motion, each with what bindings add |
| Inputs.LogShowsTurns | internal/mxmaster/actions.go:388-463 | An output log that grew by the relative events of a stream shows these sums on both wheels, and the clicks stay within one click of the motion |
| Inputs.SortIds | internal/mxmaster/actions.go:491-497 | The controls in ascending order, whatever the map order |
| Actions.ActionHandler.EmitAll | internal/mxmaster/actions.go:453-479 | However many events get out, the tracked keys are those that the emitted stream leaves down, in pressing order |
| Actions.ActionHandler.Reconcile | internal/mxmaster/actions.go:431-488 | An initial part of the plan is emitted; after a success the keys held are exactly those wanted, whatever failed before, in one synchronised report |
| Actions.ActionHandler.HandleButtons | internal/mxmaster/actions.go:321-346 | The pressed set is replaced, and after a success the keys held are those bound to it and to the gesture; a newly pressed command is refused before anything changes |
| Actions.ActionHandler.HandleRawXY | internal/mxmaster/actions.go:348-386 | The gesture that starts is the direction of the event by signs and sizes, and after a success the keys held are those bound to it and to the pressed controls; an acting event reconciles the keyboard, a quiet one leaves it alone, a release ends the gesture; an omitted direction is left alone exactly when stated |
| Actions.ActionHandler.Accumulated | internal/mxmaster/actions.go:357-365 | The sum that is compared with the threshold never overflows 32 bits |
| Actions.ActionHandler.HandleWheel | internal/mxmaster/actions.go:388-400 | Coarse events pass through and reset the accumulator; fine events ask for the motion and the clicks that it is worth, of which an initial part is emitted, on success all |
| Actions.ActionHandler.HandleThumbWheel | internal/mxmaster/actions.go:402-419 | Asks for the fine event and the clicks that the motion since the last reset is worth, of which an initial part is emitted, on success all |
| Actions.ActionHandler.Handle | internal/mxmaster/actions.go:191-201 | A successful button event or release settles the keyboard, any other success leaves a settled one settled; pressed controls, gesture, motion and remainders follow the automata whether or not the output fails, unless a command is refused, which changes nothing; an initial part of the relative events that the event asks for is emitted, on success all of them |
| Actions.ActionHandler.Run | internal/mxmaster/actions.go:160-187 | Over any stream of events and failures the keyboard invariant holds; a released worker leaves every key up; the relative events emitted are an initial part of those that the stream asks for: all of the handled events' and some of the failed one's; a stream handled to its end shows on both wheels its clicks and coarse turns, its fine motion and what bindings add |
| Actions.ActionHandler.ReleaseAll | internal/mxmaster/actions.go:528-539 | Only releases are emitted; after a success every key is up |
| Actions.ActionHandler.ReleaseGesture | internal/mxmaster/actions.go:292-304 | The gesture ends and the keys of the buttons stay |
| Actions.ActionHandler.Reset | internal/mxmaster/actions.go:238-248 | Releases everything unless closed |
| Actions.ActionHandler.Stop | internal/mxmaster/actions.go:255-284 | Closes for good; a clean stop leaves every key up |
| Actions.ActionHandler.Reconfigure | internal/mxmaster/actions.go:209-233 | New settings take effect only when the old keys could be released |
| Lifecycle.Child.Complete | internal/receiver/lifecycle.go:439-451 | Known metadata is overwritten only by known metadata |
| Lifecycle.Child.Initialize | internal/receiver/lifecycle.go:472-514 | Ready exactly after a validated protocol of at least 2, announced once; a removed handle is left alone |
| Lifecycle.ReceiverSession.Upsert | internal/receiver/lifecycle.go:436-460 | One handle per slot, announced first when it is new, completed otherwise |
| Lifecycle.ReceiverSession.RemoveChild | internal/receiver/lifecycle.go:534-549 | The handle leaves the map, its client closes, and the removal is its last event |
| Lifecycle.ReceiverSession.HandleDeviceEvent | internal/receiver/lifecycle.go:393-418 | A handle sleeps exactly after a notification that is sleeping or not connected; its state and announcements after any notification; with its own queue full the worker blocks |
| Lifecycle.ReceiverSession.Initialize | internal/receiver/lifecycle.go:472-514 | A queued handle is validated even if it left the map meanwhile, and stays removed if it was |
| Lifecycle.ReceiverSession.Run | internal/receiver/lifecycle.go:363-375 | Over every run of the worker: the map is the set of handles not removed, streams are legal, removal is absorbing, metadata is kept; it stops early exactly at the first connection at which more than 32 handles would wait |
| Lifecycle.ConnectionsWait | internal/receiver/lifecycle.go:462-470 | No more handles wait than awake devices connected, and as many when none is validated meanwhile |
| Lifecycle.Reconnecting | internal/receiver/lifecycle.go:363-417 | A device that connects again and again before it is validated blocks the worker if and only if it connects more than 32 times, and at the 33rd |
| Lifecycle.ReceiverSession.Close | internal/receiver/lifecycle.go:326-354 | Every handle is removed and closed without further events |
| Daemon.MatchesMeans | internal/mxmaster/configurator.go:52-73 | A device is selected by name and index if both are configured, by the one that is, and by the default name otherwise |
| Daemon.Session.ActivateTarget | internal/daemon/daemon.go:365-412 | It succeeds, is deferred or fails by what the configurator, the output and the actions answer; on every failing path everything acquired so far is released |
| Daemon.Session.CloseTarget | internal/daemon/daemon.go:414-427 | Releases exactly what the target holds |
| Daemon.Session.HandleChildEvent | internal/daemon/daemon.go:320-363 | A target ends when its child or a selected one sleeps or goes, and begins with a selected child that is ready; otherwise nothing changes. Whatever fails, what is open and not lost is what the active target holds, at most one configurator and one output |
| Daemon.Session.FireRetry | internal/daemon/daemon.go:301-315 | The timer assigns without closing: one target is lost exactly when another was active |
| Daemon.Session.TakeStep | internal/daemon/daemon.go:261-317 | One turn of the select loop moves between situations and loses at most one target |
| Daemon.Session.Run | internal/daemon/daemon.go:230-318 | What a whole session leaves open is what its losing turns dropped, two resources each: nothing if and only if the timer never activates a target over an active one, and in particular after child events alone |
| Daemon.RetryOverActiveLosesTarget | internal/daemon/daemon.go:296-315 | A deferred activation, a ready event and the armed timer lose a target, for every selected child |
| FeatureCache.DeviceSession.LookupFeature | internal/hidpp/feature.go:191-223 | Answers as the bytes of the device's reply say; failures are not cached, a cached feature costs no call and is asked for once per reset |
| FeatureCache.DeviceSession.Reset | internal/hidpp/feature.go:363-374 | Forgets everything but the root, so a device that changed is asked again |
| FeatureCache.DeviceSession.Close | internal/hidpp/feature.go:378-396 | The session refuses every call from now on |
| FeatureCache.DeviceSession.Run | internal/hidpp/feature.go:191-223 | Over every run of lookups, wakes and a closing each answer is the present device's own, or that of a failed call; every call is counted |
| FeatureCache.AskedOnce | internal/hidpp/feature.go:191-223 | Over every run the features asked for with success since the last wake are distinct, and the present device has them |
| FeatureCache.FoundStaysFound | internal/hidpp/feature.go:191-223 | A feature once found is found again, the same and without a call, until the device wakes or the session is closed |
| FeatureCache.WakeAsksAgain | internal/hidpp/feature.go:363-374 | The first lookup after a wake calls the device, and the answer is the woken device's own |
| FeatureCache.DeviceSession.LookupAny | internal/mxmaster/features.go:61-80 | The first feature of the list that the device has; only a missing feature lets the search go on |
| FeatureCache.DeviceSession.Validate | internal/hidpp/feature.go:128-186 | Accepted exactly for a right echo and a major version of at least 2; the version is recorded before it is judged |

## Left out

- Device nodes, ioctls and file descriptors (`internal/hidraw`, `internal/uinput`): the transport and the output are objects whose calls succeed or fail.
- D-Bus resume events, command-line flags, reconnect loops, logging and error texts.
- YAML decoding, key names and the compilation of actions: the model starts from compiled bindings and from numbers in the ranges that the configuration check allows.
- Discovery and naming of receivers and their devices (`internal/receiver/receiver.go`): only that a parsed notification names a slot from 1 to 6.
- Register requests (`internal/hidpp/register.go`): they are requests like any other.
- Clocks, contexts and timers: a timeout, a cancellation and the retry timer are steps that may be taken at any time.
- Writes without a response (`Session.Send`) are not steps of the protocol; they only take the write gate.
- Report subscriptions and their callbacks: a report that nobody claims is handed over, what is done with it is not modelled.
- Session.Dispatcher.AddPending: creating the transaction is part of it; the wrap-around of its 64-bit order after 2^64 registrations is not modelled.
- Session.Dispatcher.RemovePending: the sequences are values, so the in-place shift inside a shared backing slice is not captured.
- Protocol.ReturnedCallsAreGone: matching is by key only, so a late answer to a request that timed out may complete a newer request with the same key; nothing stronger is claimed.
- DPI is set but never restored, in the code and therefore in the model; the list of values that `Mouse.Device.SetNearest` reads is one call there, its chunks are in `DpiList`.
- Mouse.Device.Reporting: the reply is assumed to name the control that was asked about, whose ID the clean-up then uses; a reply too short to decode counts as a failed call.
- Configurator.Configurator.Close: the errors are reduced to the parts they concern; closing the event stream and running at most once are not modelled; a second run finds the log empty.
- Actions.ActionHandler.EmitAll: an event that takes effect although Emit reports an error is not modelled; an event emitted before a failed Sync may never be synchronised, and no claim is made that it is.
- Actions.ActionHandler.Run: one event at a time, under the handler's mutex; events are decoded before they reach it.
- Lifecycle.ReceiverSession.Run: devices that are enumerated when the receiver is opened are added by the opening goroutine, concurrently with the worker; the claims are about the worker's steps only, and the client of a handle is created without failing because slots are valid.
- Lifecycle.Child.Initialize: the ping is one step; notifications that arrive while it is under way wait for the worker.
- Daemon.Session.HandleChildEvent: of the metadata only name and index are modelled, and an event of a child reports the child's own.
- Daemon.Session.Run: the end of the context, of the transport or of the action stream is the end of the script.
- FeatureCache.DeviceSession.LookupFeature: concurrent lookups are serialized by the cache's mutex; closing during a call is not modelled.
- FeatureCache.DeviceSession.Close: dropping the event subscription and the handlers is not modelled.
