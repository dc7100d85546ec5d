# Verified models of the Trema core

Trema is an OpenFlow 1.0 controller framework: a C library with a Ruby front end. This project
models the parts of it whose correctness depends on state, interleavings, cursor arithmetic or
pointer surgery, and proves what they promise.

* **All-switches event forwarding** (`EventForward*.dfy`, `SwitchEvent*.dfy`). A controller asks
  that an event-forward entry be added or deleted in the switch manager and then in every switch.
  The request travels through the switch manager, the switch list, a fan-out with one timer per
  switch, and a gathering of responses and timeouts. `EventForwardProtocol` is the step system,
  `EventForwardInvariant` and `EventForwardSteps` hold the invariant and its preservation,
  `EventForwardRuns` ownership, isolation and progress over every run, `EventForwardHistory` ties the
  record that the steps keep to the events of the run, `EventForwardOutcome` says from the events
  what a requester is told, `EventForwardFanOut` which switches are asked how often, and
  `EventForwardInterface` has the handlers as methods on the module's state, each proved to perform
  exactly its step. `SwitchEvent` and `SwitchEventWrappers` put the Ruby wrappers on top as the
  protocol's client.
* **The service-list codec** (`Buffer.dfy`, `ServiceList.dfy`, `ServiceNames.dfy`): the growable
  buffer, the serializers that recompute a header pointer after every append, and the parser.
* **Byte order of variable-length records** (`ByteFields.dfy`, `FlowStats*.dfy`, `ByteOrder.dfy`,
  `PacketQueue*.dfy`, `StatsReply*.dfy`): flow stats with action lists, packet queues with property
  lists, the way of a stats reply message, and the second walk over flow stats in the Ruby extension.
  The record layouts follow sections 5.2.2, 5.2.3, 5.2.4 and 5.3.5 of the OpenFlow Switch
  Specification 1.0.0; `FlowStatsLayout` and `PacketQueue.PropByPosition` state them byte by byte.
* **The doubly linked list** (`DoublyLinkedList.dfy`), **the timer table** (`Timers.dfy`,
  `TimerRuns.dfy`) and **the wildcard word of a match** (`Match.dfy`).

Verify with `dafny verify dfyconfig.toml`.

## Assumptions about the environment

* A request that was sent is answered at most once, and a request whose send failed is never
  answered. A one-shot timer fires at most once and not after it was deleted.
* `efi_tx_table` and `waiting_dpid` are finite maps; inserting an existing key reports it.
* At most 2^32 dispatches happen in one run, so that transaction ids are fresh. The counter itself
  is modelled with its 32-bit wrap-around.
* User callbacks do not call back into the interface. Each handler is one atomic step.
* The envelope of a management message is well formed. `service_list` starts right behind the
  eight header bytes, and the byte behind a received message belongs to the receive buffer (the
  parser writes a terminator there).
* Both byte orders of the host are covered: `Order` is a parameter of every conversion.

## Where the code and its comments or documentation part

* A failed switch-list reply is handed on as an empty list, so the request is then reported as
  SUCCEEDED, although the documentation of the wrappers says that true means success on the manager
  and all switches (`EventForwardOutcome.FailedListIsSuccess`, and `EventForwardOutcome.FailedListRun`
  for a whole run). A reported success keeps that promise if and only if the list reply had not
  failed (`EventForwardOutcome.SuccessIsKeptIff`, `SwitchEvent.TrueIsKeptIff`).
* A repeated datapath id is skipped only while it is waiting. If its timer could not be set, the
  switch has its request and is asked again at the next occurrence
  (`EventForwardFanOut.AskedTwice`); `EventForwardFanOut.AskedOnceIff` says exactly when a switch is
  asked at most once, and `EventForwardFanOut.RequestCount` how often.
* `hton_packet_queue` reads the length field of its source after writing the one of its
  destination. In place on a little-endian host it converts the queue if and only if both bytes of
  the length are equal (`PacketQueue.HtonInPlaceIff`, with the failing input
  `PacketQueue.HtonInPlaceFails`).
* The walk of ruby/trema/stats-reply.c counts the body down in 16 bits while its cursor moves through
  the whole body. It gives all entries if and only if no non-empty tail of the records adds up to a
  multiple of 65536 bytes (`StatsReply.TruncationIff`); otherwise it ends in front of the first such
  tail (`StatsReply.ReadsUpTo`). A direct call with 8192 empty records gives nothing
  (`StatsReply.LongBodyVanishes`), one with 745 of them, 65560 bytes, gives them all
  (`StatsReply.LongBodyIsWhole`). The body of one OpenFlow message is shorter than 65536 bytes, so
  nothing is lost on the way a message takes (`StatsReplyMessage.ReceiveFlowStats`).
* The comment of `delete_dlist_element` speaks of searching for data; the code removes the element
  it is given.

## Model

| member | source | states |
|---|---|---|
| EventForwardSteps.StepKeepsInv | src/lib/event_forward_interface.c:554-786 | every enabled event keeps the whole invariant: transactions at rest are undecided, wait for someone, and have an armed timer per waiting switch; records have one owner; results follow from first answers |
| EventForwardSteps.SendAllSent | src/lib/event_forward_interface.c:671-716 | closed form of the fan-out: the result is SUCCEEDED iff every first occurrence of a switch was set up, exactly the switches that were armed somewhere are waiting, and no other transaction changes |
| EventForwardSteps.DispatchStepDispatched | src/lib/event_forward_interface.c:663-732 | a dispatch retires the request at once iff the list is empty or a set-up failed, and otherwise leaves it waiting for exactly the distinct switches of the list |
| EventForwardSteps.TimeoutClosed | src/lib/event_forward_interface.c:572-596 | the unconditional result check after a timeout retires the transaction of a waiting switch and, because transactions between steps have not failed, does nothing otherwise |
| EventForwardSteps.ResponseClosed | src/lib/event_forward_interface.c:599-645 | a response strikes its switch off and then retires the transaction iff it failed or nobody is left |
| EventForwardInvariant.FirstIsEarliest | src/lib/event_forward_interface.c:581-619 | the recursive reading of the event record is the earliest event of a switch in a transaction |
| EventForwardInvariant.NewTxid | src/lib/event_forward_interface.c:539-543 | the wrapping counter hands out an unused id for each of the first 2^32 dispatches |
| EventForwardRuns.RunKeepsInv | src/lib/event_forward_interface.c:554-786 | the invariant holds in every state of every run |
| EventForwardRuns.RunCanContinue | src/lib/event_forward_interface.c:554-786 | in every run, no enabled event would read a released record, and the run goes on with it |
| EventForwardRuns.EnvironmentIsFree | src/lib/event_forward_interface.c:663-770 | no answer, list or luck of the environment is left out: whatever was sent may be answered in any way, and whatever is armed may fire |
| EventForwardRuns.StepCalls | src/lib/event_forward_interface.c:554-569 | each step calls back exactly the request it retires, if that gave a callback, and no other |
| EventForwardRuns.RunCalls | src/lib/event_forward_interface.c:718-770 | the same at every step of every run |
| EventForwardHistory.AcceptedFollowsEvents | src/lib/event_forward_interface.c:757-786 | over every run the accepted requests are exactly the starts that were sent, the p-th start being request p |
| EventForwardHistory.RefusedFollowsEvents | src/lib/event_forward_interface.c:757-786 | the refused requests are exactly the starts that were not sent |
| EventForwardHistory.ManagerFollowsEvents | src/lib/event_forward_interface.c:735-754 | the manager stage failed for a request iff a manager reply of the run says so; a request whose list was asked for had a good one |
| EventForwardHistory.DispatchesFollowEvents | src/lib/event_forward_interface.c:236-261 | transactions are opened exactly by the list replies of the run, each for its own request with the list handed on |
| EventForwardHistory.ListFailuresFollowEvents | src/lib/event_forward_interface.c:239-245 | failed list replies on record are exactly those of the run |
| EventForwardHistory.VerdictsFollowEvents | src/lib/event_forward_interface.c:572-619 | the answers on record are the responses and timeouts of the run, in order, each for the txinfo it carries |
| EventForwardHistory.InfosFollowEvents | src/lib/event_forward_interface.c:676-710 | over every run a txinfo names a switch and the transaction of a list reply of the run, at a position whose request was sent; an armed timer, at one whose timer could be set |
| EventForwardOutcome.CallbackAtMostOnce | src/lib/event_forward_interface.c:757-786 | over every run at most one callback per request, none for a refused start, and exactly one for a retired request that gave a callback |
| EventForwardOutcome.OutcomeTheorem | src/lib/event_forward_interface.c:572-732 | over every run, from its events: reported SUCCEEDED iff every distinct switch of the list handed on was set up and first answered with success; reported FAILED iff the manager stage failed, a set-up failed, or a first event was a failure or timeout; callbacks carry exactly that |
| EventForwardOutcome.ResponseDecides | src/lib/event_forward_interface.c:180-192 | the response of a waiting switch ends the request as FAILED iff it failed at the management level or its result byte is not 0; otherwise it ends it as SUCCEEDED if it was the last one waited for |
| EventForwardOutcome.ManagerDecides | src/lib/event_forward_interface.c:735-754 | the reply of the switch manager ends the request as FAILED iff it failed in either way or the list request cannot be sent; otherwise exactly the switch list is asked for |
| EventForwardOutcome.OrderDoesNotMatter | src/lib/event_forward_interface.c:572-732 | two runs whose list replies name the same switches and whose events give the same first answers give the request the same fate, whatever the order and whatever else happened |
| EventForwardOutcome.ReplyIsUnique | src/lib/event_forward_interface.c:735-743 | a request gets at most one list reply |
| EventForwardOutcome.FailedListIsSuccess | src/lib/event_forward_interface.c:239-245 | a failed list reply is reported as SUCCEEDED at once, with nothing sent to any switch |
| EventForwardOutcome.FailedListRun | src/lib/event_forward_interface.c:236-245 | a whole run of three events in which the requester is told SUCCEEDED although no list was received |
| EventForwardOutcome.SuccessIsKeptIff | ruby/trema/switch-event.c:82-94 | over every run, a request reported SUCCEEDED had the agreement of the manager and of every switch of a list received, if and only if its list reply had not failed |
| EventForwardRuns.StaleEventIsHarmless | src/lib/event_forward_interface.c:581-619 | at every step of every run, an event whose transaction is gone or whose switch no longer waits changes no transaction and calls nobody, in spite of the result check |
| EventForwardRuns.EventsAreIsolated | src/lib/event_forward_interface.c:572-645 | in every run a response or timeout of one transaction leaves every other untouched: its entry, its request record, its txinfo records and timers; and its requester is not called |
| EventForwardRuns.EffectiveEventsMakeProgress | src/lib/event_forward_interface.c:572-645 | every event of a waiting switch strictly decreases the total number of waiting switches |
| EventForwardRuns.NeverStuck | src/lib/event_forward_interface.c:697-713 | for every transaction in the table some armed timer would end it |
| EventForwardOutcome.QuietMeansReported | src/lib/event_forward_interface.c:572-732 | when no timer is armed and no manager or list reply is outstanding, every accepted request has been reported, no request record or transaction is held, and a txinfo is held exactly for each switch that has not answered |
| EventForwardRuns.OwnershipTheorem | src/lib/event_forward_interface.c:69-96 | over every run a live request record has exactly one owner, a released one none; nothing is released twice; no timer or outstanding reply refers to a released txinfo |
| EventForwardRuns.NothingIsLost | src/lib/event_forward_interface.c:688-710 | every record ever allocated is live or has been released (a txinfo of a switch that never answers stays live) |
| EventForwardFanOut.MessagesOfRun | src/lib/event_forward_interface.c:514-535 | over every run, from its events: a start sends exactly its request to the switch manager iff it was accepted, a manager reply asks for the switch list iff the manager agreed, a list reply asks the switches its set-ups allow, responses and timeouts send nothing |
| EventForwardFanOut.RunFanOut | src/lib/event_forward_interface.c:671-716 | in every run a list reply sends, in order, exactly the requests that its set-ups allow, with the requester's operation |
| EventForwardFanOut.FanOut | src/lib/event_forward_interface.c:671-716 | for every list and every pattern of set-ups: a position sends unless its send fails or its switch is waiting |
| EventForwardFanOut.RequestCount | src/lib/event_forward_interface.c:675-710 | a switch is asked once for every time its timer could not be set before it could, and once more if it ever could |
| EventForwardFanOut.AskedOnceIff | src/lib/event_forward_interface.c:675-710 | a switch is asked at most once iff no request to it without a timer is followed by an occurrence that could be sent |
| EventForwardFanOut.AskedIff | src/lib/event_forward_interface.c:681-695 | a switch is asked at all iff some occurrence of it could be sent |
| EventForwardFanOut.AskedTwice | src/lib/event_forward_interface.c:697-710 | the same switch twice, with no timer for the first request, is sent two identical requests |
| EventForwardFanOut.DistinctIsDistinct | src/lib/event_forward_interface.c:671-675 | the list without repetitions has the same switches, once each |
| EventForwardFanOut.FanOutOnce | src/lib/event_forward_interface.c:671-716 | if every first occurrence is set up, each distinct switch gets exactly one request, in order of first occurrence |
| EventForwardRuns.MessagesAreFaithful | src/lib/event_forward_interface.c:681-686 | in every run whatever is sent for a request carries the operation that was asked for |
| EventForwardInterface.Interface.StartRequest | src/lib/event_forward_interface.c:757-786 | performs the start step: the record is handed over if the request was sent and released otherwise |
| EventForwardInterface.Interface.GetSwitchListAfterManager | src/lib/event_forward_interface.c:735-754 | performs the manager step |
| EventForwardInterface.Interface.SetUpSwitch | src/lib/event_forward_interface.c:672-716 | performs one position of the fan-out, including failed sends, failed timers and repetitions |
| EventForwardInterface.Interface.SetUpSwitches | src/lib/event_forward_interface.c:671-716 | the dispatch loop performs the fan-out over the whole list |
| EventForwardInterface.Interface.NewTx | src/lib/event_forward_interface.c:648-660 | inserts a transaction under a fresh id, so the assertion about a duplicate holds |
| EventForwardInterface.Interface.DispatchToAllSwitches | src/lib/event_forward_interface.c:663-732 | performs the dispatch step |
| EventForwardInterface.Interface.HandleSwitchListReply | src/lib/event_forward_interface.c:236-261 | performs the list step, a failed reply as an empty list |
| EventForwardInterface.Interface.CheckTxResultAndRespond | src/lib/event_forward_interface.c:554-569 | retires the transaction iff it has failed, and otherwise changes nothing |
| EventForwardInterface.Interface.GetTxid | src/lib/event_forward_interface.c:539-543 | the next value of the 32-bit counter |
| EventForwardInterface.Interface.SwitchResponseHandler | src/lib/event_forward_interface.c:599-645 | performs the response step |
| EventForwardInterface.Interface.SwitchResponseTimeout | src/lib/event_forward_interface.c:572-596 | performs the timeout step with its unconditional result check |
| EventForwardInterface.Interface.Deliver | src/lib/event_forward_interface.c:554-786 | any enabled event is handled by its step of the protocol and leaves the invariant intact |
| SwitchEvent.HandlerSeesLiveRecord | ruby/trema/switch-event.c:65-80 | the completion handler is never given a released `callback_info` |
| SwitchEvent.ClientStepKeepsInv | ruby/trema/switch-event.c:65-176 | wrapper calls and protocol events keep the client's records in step with the interface's |
| SwitchEvent.ClientRunCanContinue | ruby/trema/switch-event.c:65-176 | every history of client and environment can go on with whatever is enabled |
| SwitchEvent.ClientRunIsRun | ruby/trema/switch-event.c:95-176 | a history of wrapper calls and events, seen from the interface, is a run of the protocol |
| SwitchEvent.CallbackInfoTheorem | ruby/trema/switch-event.c:65-176 | over every history a `callback_info` is released at most once, by the wrapper iff the start was refused and otherwise by the one callback; it is live exactly while its request is in flight |
| SwitchEvent.BlockTheorem | ruby/trema/switch-event.c:65-80 | the block of a request is called with true iff the request earned success and with false iff it earned failure |
| SwitchEvent.TrueIsKeptIff | ruby/trema/switch-event.c:82-94 | a block called with true is told the truth about manager and switches iff the list reply had not failed |
| SwitchEventWrappers.Wrappers.AllSwitches | ruby/trema/switch-event.c:95-176 | performs the wrapper's step, and returns true iff the arguments are acceptable and the request was sent |
| SwitchEventWrappers.Wrappers.HandleCallback | ruby/trema/switch-event.c:65-80 | yields to the block if there is one and releases the record |
| SwitchEventWrappers.Wrappers.Deliver | ruby/trema/switch-event.c:65-80 | an interface event together with the completion handler it calls is the client's step |
| Buffer.Buffer.WithLength | src/lib/buffer.c:130-149 | an empty buffer with room for the given number of bytes |
| Buffer.Buffer.AppendFront | src/lib/buffer.c:173-201 | the new bytes come in front, the old contents stay behind them, in place and by reallocation alike; in place the new bytes are zero |
| Buffer.Buffer.GrowInPlace | src/lib/buffer.c:189-192 | moving the data back in the same block and clearing the gap gives zeros followed by the old contents |
| Buffer.Buffer.GrowByCopy | src/lib/buffer.c:90-104 | the reallocated block keeps the headroom and holds the old contents behind the new bytes |
| Buffer.Buffer.RemoveFront | src/lib/buffer.c:204-220 | drops the first bytes and nothing else |
| Buffer.Buffer.AppendBack | src/lib/buffer.c:223-248 | the old contents stay, the returned pointer denotes the first new byte in the current block, and the block is replaced iff the room is used up |
| Buffer.Buffer.Duplicate | src/lib/buffer.c:251-276 | same contents, headroom and capacity in fresh memory |
| Buffer.Perform | src/lib/buffer.c:173-276 | one operation agrees with the same operation on a plain byte sequence with unspecified new bytes |
| Buffer.Replay | src/lib/buffer.c:38-276 | every history of operations agrees with the same history on a plain byte sequence, whatever reallocates |
| Buffer.DuplicateIsIndependent | src/lib/buffer.c:251-276 | no history on a duplicate changes the original |
| Buffer.OriginalIsIndependent | src/lib/buffer.c:251-276 | no history on the original changes a duplicate |
| ServiceList.AppendName | src/lib/event_forward_interface.c:119-126 | after an append that may move the block, the pointer recomputed by offset denotes the header in the current block |
| ServiceList.AppendNames | src/lib/event_forward_interface.c:116-128 | for any list of names and any pattern of reallocations the header pointer stays on the header, and the bytes are prior content, header, names |
| ServiceList.AppendServices | src/lib/event_forward_interface.c:109-131 | the final bytes are prior content, then the header with type and count, then the terminated names |
| ServiceList.CreateRequest | src/lib/event_forward_interface.c:105-131 | the same for a given or a new buffer |
| ServiceList.CreateReply | src/lib/event_forward_interface.c:134-159 | the reply holds header with type, result and count, then the names |
| ServiceList.HeaderByPosition | src/lib/event_forward_interface.h:58-75 | type, result and padding at bytes 0 to 3, the count big-endian at bytes 4 to 7 |
| ServiceList.CreateConfigRequest | src/lib/event_forward_interface.c:404-411 | the request's length field counts the whole message, with type and command in place |
| ServiceNames.StrLen | src/lib/event_forward_interface.c:213-214 | finds the first NUL and reads nothing past the written terminator |
| ServiceNames.FindNames | src/lib/event_forward_interface.c:208-227 | for any bytes and any declared count: the first that many non-empty names, at increasing, non-overlapping, terminated positions |
| ServiceNames.Scan | src/lib/event_forward_interface.c:201-227 | the same including the terminator it writes, the only byte changed |
| ServiceNames.HandleReply | src/lib/event_forward_interface.c:162-233 | failed at management level or by result byte, also for a message that ends inside the header; else the names of the list |
| ServiceNames.SplitNames | src/lib/event_forward_interface.c:119-126 | splitting the serialized names gives back the names |
| ServiceNames.SplitJoins | src/lib/event_forward_interface.c:208-227 | splitting any bytes loses nothing: the names written out again are the bytes, with the last terminator where it is missing |
| ServiceNames.NonEmptyFilters | src/lib/event_forward_interface.c:215-225 | exactly the empty names are dropped, and the order is kept |
| ServiceNames.AtMostFromFront | src/lib/event_forward_interface.c:216-221 | of too many names the first ones are taken, as many as declared |
| ServiceNames.ListRoundTrip | src/lib/event_forward_interface.c:134-227 | parsing a serialized list yields exactly the non-empty names in order; with a wrapped count, its first so many |
| ServiceNames.ReplyParts | src/lib/management_service_interface.c:56-73 | where the envelope puts status, header and list |
| ServiceNames.ReplyRoundTrip | src/lib/event_forward_interface.c:134-233 | a serialized reply in its envelope is received as failed iff its status is 1 or its result is not 0, and otherwise as exactly the non-empty names in order |
| ServiceNames.FailureIsRefusal | src/lib/event_forward_interface.c:171-192 | the replies that the parser calls failed are those that the protocol counts as refusals |
| ByteFields.PlaceValues | src/lib/byteorder.c:29-49 | what a host of either order reads in bytes of any width: the big-endian and the little-endian sum |
| ByteFields.FlipChangesOrder | src/lib/byteorder.c:29-49 | for numbers of every width, turning the bytes around makes the one host read what the other wrote |
| ByteFields.ConvKeepsValues | src/lib/byteorder.c:29-213 | converting a record of any layout keeps every number and byte string, read in the other order |
| ByteFields.ConvTwice | src/lib/byteorder.c:29-213 | converting twice gives the record with its padding zeroed |
| ByteFields.ConvOfEnc | src/lib/byteorder.c:29-213 | converting the encoding of some values gives their encoding in the other order |
| FlowStats.ActionsThereAndBack | src/lib/byteorder.c:216-305 | a converted action list is well formed with the same boundaries, and converting back zeroes the padding and changes nothing else |
| FlowStats.WalkWellFormed | src/lib/byteorder.c:330-340 | on a well-formed list the cursor loop converts every action and ends at the end, whatever the destination held |
| FlowStatsMeaning.DecodeEncAction | ruby/trema/stats-reply.c:174-294 | an encoded action is decoded again, whatever follows it |
| FlowStatsMeaning.ConvActionMeaning | src/lib/byteorder.c:216-305 | converting an action keeps its length and meaning |
| FlowStatsLayout.ActionByPosition | ruby/trema/stats-reply.c:174-294 | what get_action reads for each type stands at the specified bytes |
| FlowStatsLayout.StructTurned | src/lib/byteorder.c:72-213 | conversion of an action of each type, byte for byte, whatever length it claims |
| FlowStatsLayout.WalkByPosition | src/lib/byteorder.c:330-340 | the walk writes structures only: what an action claims beyond its structure, and a rest too short for an action, are left as they were |
| FlowStatsLayout.HeaderByPosition | src/lib/byteorder.c:316-328 | the header of a record by byte position: what each field means and what conversion writes for it |
| FlowStatsLayout.TypesOfActions | src/lib/byteorder.c:216-259 | the known types and their sizes are exactly those of the actions there are |
| FlowStatsRecords.RecordThereAndBack | src/lib/byteorder.c:308-381 | for every well-formed record, ntoh after hton and hton after ntoh give it back with padding zeroed, on either kind of host |
| FlowStatsRecords.ConvKeepsMeaning | src/lib/byteorder.c:308-381 | conversion keeps every header field and every action in order |
| FlowStatsRecords.ConvEncRecord | src/lib/byteorder.c:308-381 | conversion takes the network form of every entry to its host form, byte for byte, and back |
| FlowStatsRecords.DecodeEncRecord | ruby/trema/stats-reply.c:357-388 | every entry is read back from its encoding |
| ByteOrder.NtohFlowStats | src/lib/byteorder.c:308-343 | for any record whose walk stays inside it, also with odd action lengths or a short rest: `dst` gets exactly what the walk over the private copy gives, however `dst` and `src` overlap, and nothing around it changes; fails iff the walk reaches an undefined action type |
| ByteOrder.ConvertedWellFormed | src/lib/byteorder.c:308-381 | for a well-formed record that is the converted record, whatever the destination held, so in place and separate agree |
| ByteOrder.HtonFlowStats | src/lib/byteorder.c:346-381 | the same in the other direction |
| ByteOrder.ConvertActionList | src/lib/byteorder.c:330-340 | the cursor loop performs the walk over any action bytes: structures in order, cursor moved by the length fields, a rest shorter than a header untouched |
| ByteOrder.ConvertAction | src/lib/byteorder.c:216-305 | writes the structure of one action in its place and touches nothing else, whatever length it claims; fails iff its type is undefined |
| PacketQueue.ConvPropsMeaning | src/lib/byteorder.c:448-493 | conversion keeps kind, length and rate of every property |
| PacketQueue.PropByPosition | src/lib/byteorder.c:448-493 | kind, length and rate stand at bytes 0, 2 and 8 and are turned around there; every other byte of the destination is left as it was |
| PacketQueue.RateIsKept | src/lib/byteorder.c:459-466 | the rate read after conversion is the rate that was there |
| PacketQueue.ConvQueueMeaning | src/lib/byteorder.c:496-563 | conversion keeps id, length and the whole property list, whatever the destination held |
| PacketQueue.QueueThereAndBack | src/lib/byteorder.c:496-563 | hton after ntoh and ntoh after hton preserve the queue, through any buffers |
| PacketQueue.ExactBudget | src/lib/byteorder.c:516-525 | with the true remaining length the loop converts everything and stops at the end |
| PacketQueue.HtonInPlaceIff | src/lib/byteorder.c:531-563 | in place, the loop produces the converted properties iff the host is big-endian or both length bytes are equal |
| PacketQueue.HtonInPlaceFails | src/lib/byteorder.c:551-553 | the queue without properties on a little-endian host is a failing input |
| PacketQueueConversion.ConvertProperties | src/lib/byteorder.c:551-560 | the property loop writes exactly what the walk with the given remaining length says and nothing behind the record |
| PacketQueueConversion.NtohPacketQueue | src/lib/byteorder.c:496-528 | for any queue whose walk stays inside it: header and walk over the private copy, the same whether `dst` is `src` or not |
| PacketQueueConversion.NtohWellFormed | src/lib/byteorder.c:516-525 | on a well-formed queue the walk converts every property |
| PacketQueueConversion.HtonPacketQueue | src/lib/byteorder.c:531-563 | header and walk as the code performs them, for separate and for equal buffers |
| PacketQueueConversion.HtonSeparate | src/lib/byteorder.c:531-563 | with separate buffers the whole queue is converted |
| StatsReply.WalkActions | ruby/trema/stats-reply.c:375-384 | the inner loop returns what get_action makes of each action in order, nil for an undefined type, also where its 16-bit counter wraps and the cursor goes on into the next record |
| StatsReply.ReadsByPosition | ruby/trema/stats-reply.c:175-294 | get_action reads the structure of the type at the specified bytes, whatever length the action claims |
| StatsReply.NilForUndefined | ruby/trema/stats-reply.c:175-294 | get_action gives nil exactly for a type that no action has |
| StatsReply.HandleFlowStats | ruby/trema/stats-reply.c:323-400 | the outer loop returns the entries of the walk through the whole body, for any body that it does not read past and on which it ends |
| StatsReply.ReadsGoodBody | ruby/trema/stats-reply.c:347-400 | on a concatenation of well-formed records of less than 65536 bytes that is one entry per record, in order, with its actions in order |
| StatsReply.BodyRoundTrip | ruby/trema/stats-reply.c:347-400 | the host-order body of every list of entries is a concatenation of well-formed records that means the list |
| StatsReply.ReceiveBody | src/lib/openflow_application_interface.c:1054-1071 | a body converted record by record means what the network bytes meant |
| StatsReplyMessage.ConvertBody | src/lib/openflow_application_interface.c:1052-1071 | for any body whose records stay inside the new buffer: the loop with two cursors and a 16-bit counter fills the buffer with every record converted; fails iff some record reaches an undefined action type |
| StatsReplyMessage.ConvertsGoodBody | src/lib/openflow_application_interface.c:1062-1070 | on a well-formed body every record is converted, whatever follows it in the message and whatever the new buffer held |
| StatsReplyMessage.ReceiveFlowStats | src/lib/openflow_application_interface.c:1008-1071 | one message, converted, handed on and walked: the entries are what the network bytes meant, and nothing is lost |
| StatsReplyMessage.MessageParts | src/lib/openflow_application_interface.c:1026-1040 | the body cut from the message that carries some entries is exactly their network form |
| StatsReplyMessage.MessageRoundTrip | src/lib/openflow_application_interface.c:1008-1071 | receiving the message that carries a list of entries, converting it and walking it gives exactly that list, on either kind of host |
| StatsReply.TruncationIff | ruby/trema/stats-reply.c:323-398 | the walk over the body of any list of entries gives exactly the list iff no non-empty tail of it adds up to a multiple of 65536 bytes |
| StatsReply.ReadsUpTo | ruby/trema/stats-reply.c:323-398 | for a body of any length, the walk gives the entries in front of the first tail that is a multiple of 65536 bytes long |
| StatsReply.LongBodyVanishes | ruby/trema/stats-reply.c:323-359 | 8192 empty entries, 720896 bytes: the counter starts at zero and nothing comes out |
| StatsReply.LongBodyIsWhole | ruby/trema/stats-reply.c:359-398 | 745 empty entries, 65560 bytes: the counter starts at 24, wraps, and all of them come out |
| DoublyLinkedList.CreateDlist | src/lib/doubly_linked_list.c:49-60 | a list of one element |
| DoublyLinkedList.InsertBefore | src/lib/doubly_linked_list.c:70-95 | the new element is in front of the given one, and links in both directions describe the new sequence |
| DoublyLinkedList.InsertAfter | src/lib/doubly_linked_list.c:104-129 | the new element is behind the given one, and links in both directions describe the new sequence |
| DoublyLinkedList.GetFirst | src/lib/doubly_linked_list.c:137-152 | the first element, from any element |
| DoublyLinkedList.GetLast | src/lib/doubly_linked_list.c:161-176 | the last element, from any element |
| DoublyLinkedList.Find | src/lib/doubly_linked_list.c:186-211 | from any element: the nearest match ahead, else the nearest behind, and nothing iff no element of the list matches |
| DoublyLinkedList.DeleteElement | src/lib/doubly_linked_list.c:222-242 | the sequence without that element, still linked in both directions |
| DoublyLinkedList.DeleteDlist | src/lib/doubly_linked_list.c:251-276 | from any element: every element of the list is released exactly once, first to last, and none is touched after its release |
| DoublyLinkedList.Perform | src/lib/doubly_linked_list.c:70-242 | an operation edits the sequence at its position and nowhere else; all other elements keep identity, place and data |
| DoublyLinkedList.Replay | src/lib/doubly_linked_list.c:70-242 | every history of insertions and deletions leaves a well-linked list with the data of the same history on a plain sequence |
| Timers.TimerTable.Add | ruby/trema/timers.rb:31-37 | replaces or appends the timer's data |
| Timers.TimerTable.Step | ruby/trema/timers.rb:41-47 | one turn of the loop, with a handler that may re-arm timers meanwhile |
| Timers.TimerTable.Fire | ruby/trema/timers.rb:40-51 | a whole tick: every timer's turn, then the sweep |
| Timers.TimerTable.DeleteSpent | ruby/trema/timers.rb:48-50 | removes exactly the spent one-shots and keeps the order |
| TimerRuns.ArmMeans | ruby/trema/timers.rb:31-37 | arming gives a timer, new or not, its whole interval, leaves every other timer alone, and puts a new one last |
| TimerRuns.TickFiresInOrder | ruby/trema/timers.rb:40-47 | in one tick the timers that are due fire once each, in the order in which they were added |
| TimerRuns.SweepKeepsOrder | ruby/trema/timers.rb:48-50 | the sweep keeps the order of the timers that stay |
| TimerRuns.TickSeen | ruby/trema/timers.rb:40-51 | a tick as one timer sees it depends on that timer and its own handler only |
| TimerRuns.NextKeepsValid | ruby/trema/timers.rb:31-51 | the table and its iteration order stay consistent whatever happens |
| TimerRuns.RunSeen | ruby/trema/timers.rb:31-51 | over every history only the number of ticks matters to an undisturbed timer |
| TimerRuns.PeriodicTheorem | ruby/trema/timers.rb:31-47 | from any table: a periodic timer that is armed with n >= 1 and then left alone has fired floor(t/n) times after t ticks; with n < 1, at every tick |
| TimerRuns.OneShotTheorem | ruby/trema/timers.rb:31-51 | from any table: a one-shot that is armed and then left alone fires exactly once, at tick n, and is then absent |
| TimerRuns.RearmedOneShotTheorem | ruby/trema/timers.rb:31-51 | a one-shot that is armed and then re-armed by its own handler survives the sweep of that tick, and so fires every n ticks |
| Match.InitWildcards | ruby/trema/match.c:461-560 | for every combination of options each present one clears exactly its own bits, and each prefix writes exactly its own six bits |
| Match.BitByPosition | ruby/trema/match.c:117-155 | each field has the bit that section 5.2.3 of the OpenFlow Switch Specification 1.0.0 gives it |
| Match.AddressesByPosition | ruby/trema/match.c:461-462 | the address fields are the six bits from 8 and from 14 on |
| Match.OneBit | ruby/trema/match.c:466-560 | clearing or setting the bit of one field changes no other field and neither address field |
| Match.Rewrite | ruby/trema/match.c:528-547 | rewriting one address field changes no single-bit field and not the other address field |
| Match.MeaningIsUnique | ruby/trema/match.c:461-462 | the ignored fields and bits determine the whole word |
| Match.PrefixReadsBack | ruby/trema/match.c:308-326 | decoding an address field gives 32 less the ignored bits |
| Match.PrefixOfAnyWord | ruby/trema/match.c:315-324 | decoding any word: 32 less the six bits, and no prefix from 32 on |
| Match.PrefixRoundTrip | ruby/trema/match.c:308-326 | a prefix length from 0 to 32 comes out as it went in, for both addresses, whatever the other options |
| Match.WildcardsFrom | ruby/trema/match.c:117-155 | the word ignores exactly the fields whose symbols are in the list |
| Match.OrderDoesNotMatter | ruby/trema/match.c:117-155 | lists that name the same fields give the same word: order, repetition and unknown symbols do not matter |

## Left out

- `finalize_event_forward_interface` and `_cleanup_tx_table` (they drop transactions without a callback): the end of a run.
- Malformed envelopes in `handle_efi_reply`; the decoding of the switch-list bytes into datapath ids (a list is given as its ids).
- The messenger, hash table and timer libraries: only the contracts under "Assumptions". The heap cells that hold the keys of `waiting_dpid` are not counted among the records; the waiting set is a set of ids.
- `set_*` and `dump_*` requests and the single-switch wrappers of ruby/trema/switch-event.c: one request and one reply, they would only add easy members.
- Mutexes of the buffer and of the list: each operation is atomic.
- `free_buffer`, `dump_buffer` and the buffer's `user_data`.
- `die` on a NULL element in the list functions: an `Element` is never null here.
- Conversions of other records (ports, tables, queue counters and so on) and the other branches of `handle_stats_reply`: straight-line field assignments.
- The runs of per-field assignments in the conversions are represented by layout tables (`FlowStats.ActionFields`, `FlowStats.FLOW_FIELDS`, `PacketQueue.PropFields`) and one generic conversion; the order of the assignments inside one fixed-size record is not represented.
- The constructors of Ruby action and match objects and the range checks inside them: an action is the record of its fields. The Ruby hash that the source reuses from record to record is not modelled.
- `get_property` of ruby/trema/queue-get-config-reply.c and `delete_timer` of ruby/trema/timers.rb: no property is claimed for them.
- A handler that adds a new timer during a tick: Ruby refuses new keys while a hash is iterated, so only re-arming existing timers is modelled, and the exception is not.
- ByteOrder.NtohFlowStats: a record whose walk leaves it or stands still (an action of length 0, or longer than what is left, or a structure that does not fit) is excluded by the precondition; the original then touches memory outside the record or does not stop. The same for a record shorter than its header.
- ByteOrder.HtonFlowStats: the same.
- ByteOrder.ConvertActionList: the same.
- ByteOrder.ConvertAction: an action whose structure does not fit the record is excluded, as above.
- PacketQueueConversion.NtohPacketQueue: a walk that leaves the queue, and an undefined property or one too short for its fields, which the original asserts away or reads past, are excluded.
- PacketQueueConversion.HtonPacketQueue: the same; `PacketQueue.HtonInPlaceIff` says when a walk in place leaves the queue or stays incomplete.
- ServiceNames.HandleReply: a message that ends inside the header and says that it succeeded is excluded; the original's list length then wraps around and it writes outside the message.
- StatsReply.HandleFlowStats: a body on which a cursor runs past its end with the counter not at zero, or a length of zero keeps cursor and counter for ever, is excluded by the precondition; the original then reads behind the body or does not stop.
- StatsReply.WalkActions: the same for the actions of one record, whose walk may go on into the following records but not past the body.
- StatsReplyMessage.ConvertBody: bodies with a record that does not fit the new buffer, or whose conversion strays, are excluded, because the original then writes outside the buffer; other stats types are not modelled. The copy of the message that the source takes first is left out, because it is only read.
- StatsReplyMessage.ReceiveFlowStats: states what comes out for well-formed bodies only; for others it is the composition of `StatsReplyMessage.ConvertBody` and `StatsReply.HandleFlowStats`.
- Match.InitWildcards: models the wildcard word; the values written into the other match fields, with their narrowing casts, are not modelled.
- Match.WildcardsFrom: models the wildcard word handed to `set_match_from_packet`, which is not part of this model.
