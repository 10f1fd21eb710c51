# rel4u: a verified model of the reliable-UDP core

This project models the core of rel4u, a reliable-UDP library in C: the sliding windows with selective
acknowledgment, the bounded queue between application and worker threads, the hand-off between the two,
the server's session table, the round-trip estimator and the packet header. It proves what the protocol
is for: over a network that loses, duplicates, delays and reorders, ordered messages arrive exactly once
and in order, unordered ones exactly once, and nothing is acknowledged that was not accepted.

## How the model is laid out

Each imperative component has two halves.

- **Reference functions over unbounded numbers.** `SendSpec`, `RecvSpec`, `QueueSpec`, `HandoffSpec`,
  `OutboundSpec`, `SessionSpec`, `ServerSpec` and `Rtt` describe a component as a value and each operation as a function.
  Message n of a window that started at `isn` travels as the 32-bit word `Wire(isn, n)`, so wraparound is
  explicit and the theorems are about true message numbers.
- **Classes that do what the C code does.** `SendWindow`, `RecvWindow`, `Mpmc`, `Handoff.Client`,
  `Server.SessionTable` and `Rtt.Estimator` keep the slot rings, 32-bit counters, linked nodes and arrays, and update them in place.
  Every method is proved equal to its reference function.

The step systems apply the same reference functions, so a step of `Link` is what a call of `PushMsg`,
`ResendSlot`, `DeliverData`, `GetAckInfo` or `OnAckPacket` does.

The theorems are proved about the reference functions: about one operation (`AckTheory`, `Newest`),
about all runs of a session (`Link`, `LinkProofs`, `Recovery`, `Rounds`), about what becomes of a session's
messages after it (`Application` up to the application's queue, `Reconnect` and `Downstream` across a
reconnect, in either direction), about all interleavings of threads waiting on the queue (`WaitProtocol`),
and about all runs of the server's table, with connects, packets, timers, kicks and sends in any order
(`ServerSpec`; `ServerMeaning` says what each step means to a client). `Hosting` joins sessions and table: a
session in the table is one end of two links for as long as it lives. `Scenarios` holds the small runs that
serve as inputs.
`Words` and `SeqNum` hold the 32-bit and power-of-two arithmetic underneath.

## Assumptions, stated where they are used

- Window capacities are powers of two from 2 to 2^30. The one further capacity the code accepts, 2^31, turns
  negative in the `(int32_t)capacity` casts, and a window of that size refuses every reliable message
  (`SendWindow.UsableCapacities`).
- A session table has fewer than 2^31 slots, as the `int32_t` slot index needs.
- The network does not deliver data or acks beyond a certain age (`Link.FreshData`, `Link.FreshAck`). Both
  limits are the exact ones: `LinkProofs.StaleDataLimit` and `AckTheory.StaleAckLimit`.
- One session is one direction of traffic; both sides start at the same sequence number. The other
  direction is a second copy of the same system, and piggybacked acks are the `EmitAck` step.
- Clock readings, malloc outcomes, session tokens and which thread a signal wakes are inputs.
- `dropped_count`, byte totals and the count of broadcasts are unbounded.

## Findings

- An ack that lags the head by exactly 2^31 compares as both older and newer, and the cumulative loop
  takes it as newer (`AckTheory.StaleAckLimit`, `SeqNum.Antipodes`).
- The resend counter is 8 bits wide, so after 256 resends a message is sampled again, against section 3 of
  RFC 6298. An ack follows Karn's rule if and only if none of the messages it newly acks has been resent a
  positive multiple of 256 times (`AckTheory.KarnsRule`).
- Reclaiming into a full DROP_LAST ring evicts the messages just reclaimed: only the oldest un-acked one
  and the newest that fitted survive (`HandoffSpec.ReclaimOverflow`).
- A reconnect can lose what the client sent in three ways. Selectively acked messages are not reclaimed, so
  one still waiting in the buffer of a server that forgets the session is lost
  (`Reconnect.ForgottenSessionCanLose`). A server that still knows the address keeps its windows while the
  client numbers from 0 again, so new messages under numbers the server has passed are taken for duplicates
  and acked (`Reconnect.KeptSessionCanLose`, `Reconnect.KeptSessionSwallows`). And the queue may have no room.
  `Reconnect.ReconnectLosesNothingIff` gives the exact condition for both servers. For a kept session it is
  room in the queue and a send window on which no ack has taken effect; then the session simply goes on
  (`Reconnect.KeptSessionGoesOn`), and otherwise the largest number the server has accepted is lost
  (`Reconnect.LargestIsLost`). A forgotten session hands up twice what was handed up and is still un-acked
  (`Reconnect.ForgottenSessionRepeats`).
- What the server sent fares no better. A forgotten session discards its un-acked messages
  (`Downstream.ForgottenSessionDiscards`). A kept one goes on sending from where it was to a client that
  expects number 0 again, and ordered traffic never gets past the first number already acked
  (`Downstream.KeptSessionStalls`); only with no ack in effect does it start over cleanly
  (`Downstream.KeptSessionStartsOver`).
- The workers ignore the result of pushing to the application's queue, so an acked message can be refused or
  evicted there (`Application.AckedButDropped`). The application gets everything if and only if every push
  finds room, which can be seen before the push (`Application.ApplicationGets`, `QueueSpec.TakesOneMore`).
- On a constant sample the estimator is exact precisely below 2^29 ms (`Rtt.SampleLimitIsSharp`).
- The timeout bounds are 20 and 2000 ms as in the code; docs/protocol.md gives 50 and 1000.

## Model

| member | source | states |
|---|---|---|
| SeqNum.DiffExact | src/core/rel4u_window.h:30-32 | the signed 32-bit difference of two wrapped numbers is the true difference if and only if that fits an int32 |
| SeqNum.Antipodes | src/core/rel4u_window.h:14-28 | `seq_lt` holds both ways exactly at distance 2^31, and neither way exactly on equal words |
| SeqNum.SlotInjective | src/core/rel4u_window.c:55-56 | numbers less than a capacity apart index different ring slots, across 32-bit wraparound |
| SeqNum.SlotPeriodic | src/core/rel4u_window.c:278-279 | a number and the one a capacity later share a slot |
| Words.AndMask | src/core/rel4u_window.c:55-55 | bitwise and with capacity - 1 is the remainder by the capacity |
| Words.PowerOfTwoTest | src/core/rel4u_window.c:7-9 | the `c & (c - 1)` test accepts exactly the powers of two |
| SendWindow.AcceptedCapacities | src/core/rel4u_window.c:6-9 | up to 2^30 the init test accepts exactly the capacities the window proofs need |
| SendWindow.UsableCapacities | src/core/rel4u_window.c:34-51 | an empty window takes a reliable message for every accepted capacity but 2^31; a window of 2^31 refuses all of them |
| SendWindow.SendWindow.constructor | src/core/rel4u_window.c:11-21 | a new window is empty, starts at the given number, and satisfies the ring invariant |
| SendWindow.SendWindow.Reset | src/core/rel4u_window.c:157-165 | from any valid window, reset gives the empty window at the given number |
| SendWindow.SendWindow.CanSendNow | src/core/rel4u_window.c:34-38 | the two tests together say exactly that fewer than a capacity of numbers are between head and next |
| SendWindow.SendWindow.PushMsg | src/core/rel4u_window.c:40-75 | oversized, full, accepted reliable and unreliable pushes: result code, number assigned, and whole new window; a legal reliable push is accepted if and only if fewer than a capacity of numbers are between head and next |
| SendSpec.PushedIsDue | src/core/rel4u_window.c:55-66 | a message pushed at t is listed by an expiry scan, limit permitting, if and only if it is un-acked and at least the timeout in milliseconds has passed since t on the nanosecond clock |
| AckTheory.PushedFeeds | src/core/rel4u_window.c:86-102 | a message pushed at t and acked before any resend feeds the estimator (now - t) / 1000000 ms in 32 bits, in its turn among the messages the ack covers |
| SendWindow.RingAfterPush | src/core/rel4u_window.c:55-66 | storing the new slot keeps every number of the window in its own slot with its own content |
| SendWindow.RingAfterRetire | src/core/rel4u_window.c:82-104 | retiring the head disturbs no other number's slot |
| SendWindow.RingAfterMark | src/core/rel4u_window.c:112-117 | marking one number acked disturbs no other number's slot |
| SendWindow.SendWindow.OnAckPacket | src/core/rel4u_window.c:77-133 | for every ack_num and mask, window, in-flight count and estimator become those of the reference `OnAck`, and the ring invariant holds |
| SendWindow.SendWindow.CumulativeLoop | src/core/rel4u_window.c:81-104 | the cumulative loop computes the reference and advances the head at most a capacity |
| SendWindow.SendWindow.SelectiveLoop | src/core/rel4u_window.c:106-132 | the 32-bit mask loop computes the reference |
| SendSpec.WindowWord | src/core/rel4u_window.c:110-113 | a word passes the two range tests exactly when it is the word of a number in the window, and which |
| SendSpec.UnackedFits | src/core/rel4u_window.c:36-37 | the in-flight count never exceeds the distance from head to next |
| AckTheory.CumulativeClosed | src/core/rel4u_window.c:81-104 | closed form of the cumulative loop: the new head, and which acked marks survive |
| AckTheory.SelectiveClosed | src/core/rel4u_window.c:106-132 | closed form of the mask loop: exactly the window numbers whose bit is set become acked |
| AckTheory.OnAckClosed | src/core/rel4u_window.c:77-133 | closed form of an ack for every ack_num and mask: the head, the acked numbers, and the estimator fed once, oldest first, by each newly acked number whose resend counter reads zero, and by nothing else |
| AckTheory.StaleAckLimit | src/core/rel4u_window.c:82-82 | an old ack leaves the head alone if and only if it lags less than 2^31 |
| AckTheory.KarnsRule | src/core/rel4u_window.c:86-125 | for every window, ack_num and mask, the samples taken are exactly those of messages sent once if and only if no un-acked message below the new head or covered by the mask was resent a positive multiple of 256 times |
| SendSpec.ExpiredOldestFirst | src/core/rel4u_window.c:135-155 | the expiry scan lists only due un-acked numbers, in ascending order, and skips none unless the list is full |
| SendWindow.SendWindow.GetExpired | src/core/rel4u_window.c:135-155 | the scan over wrapping words returns the slots of exactly those numbers |
| SendWindow.SendWindow.RetransmitExpired | src/core/rel4u_client.c:533-551 | packet i carries the number and content of the i-th due message; only send times and resend counters move, and the timeout backs off exactly when something was due |
| SendSpec.ResentIsDue | src/core/rel4u_client.c:545-547 | a message sent again at t is due again if and only if it is un-acked and a full timeout has passed since t |
| SendSpec.OnTimerMeaning | src/core/rel4u_client.c:533-551 | of a timer round: exactly the due messages get the new send time and one more resend, and the timeout is doubled up to its maximum if and only if something was due |
| RecvWindow.RecvWindow.constructor | src/core/rel4u_window.c:194-209 | a new receive window is empty and satisfies the ring invariant |
| RecvWindow.RecvWindow.Reset | src/core/rel4u_window.c:220-227 | reset gives the empty window at the given number |
| RecvWindow.RingAfterAdvance | src/core/rel4u_window.c:368-374 | clearing the slot at `expected` makes the ring reflect the window moved up by one |
| RecvWindow.RingAfterAdmit | src/core/rel4u_window.c:335-348 | filling one slot makes the ring reflect the buffer with that number added |
| RecvWindow.RecvWindow.Classify | src/core/rel4u_window.c:326-340 | old, beyond the window, already buffered and new words are told apart as the reference does |
| RecvWindow.RecvWindow.OnDataPacket | src/core/rel4u_window.c:229-355 | for every mode byte and every amount of room: result code, output slots and whole new window |
| RecvWindow.RecvWindow.PopReady | src/core/rel4u_window.c:357-381 | the pop loop hands out what the reference pop does and leaves its window |
| RecvWindow.RecvWindow.SkimReady | src/core/rel4u_window.c:297-320 | the drain inlined in the unordered branch computes its reference |
| RecvWindow.RecvWindow.GetAckInfo | src/core/rel4u_window.c:383-403 | ack_num is one before `expected`; the mask is the reference mask even for windows smaller than 32 |
| RecvSpec.MaskBits | src/core/rel4u_window.c:390-401 | bit i is set if and only if number expected + i is buffered |
| RecvSpec.PopThenDrain | src/core/rel4u_window.c:357-381 | popping any number of items and then draining equals draining |
| RecvSpec.LimitedThenDrain | src/core/rel4u_window.c:297-352 | a packet with limited output followed by a drain equals one with unlimited output; leftover room means nothing is left |
| RecvWindow.DeliverData | src/core/rel4u_server.c:434-477 | for every mode and batch size the worker hands up exactly what unlimited output would give and leaves the slot at `expected` empty; an unreliable packet leaves the reliable window alone |
| RecvWindow.DrainInBatches | src/core/rel4u_client.c:484-509 | repeated batched pops hand up the full drain |
| Newest.PassesIffNewest | src/core/rel4u_window.c:251-267 | an unreliable-ordered packet is handed up if and only if its number exceeds every number that arrived before, over histories of any length in which each number is within 2^31 of the largest so far |
| Newest.NearIsSharp | src/core/rel4u_window.c:252-252 | up to a full turn of the words that distance is exactly what is needed |
| LinkProofs.DeliverMeaning | src/core/rel4u_window.c:325-352 | within the age limit a new word is read as the number it was sent for and an old one changes nothing |
| LinkProofs.StaleDataLimit | src/core/rel4u_window.c:326-340 | an old packet leaves the receive window alone unless its word has come round to a vacant number: the exact age limit |
| LinkProofs.SoundAckEffect | src/core/rel4u_window.c:77-133 | a receiver's ack, however stale or repeated, moves the head to what the receiver then expected and marks exactly the numbers its bits name |
| LinkProofs.OwnAckEffect | src/core/rel4u_window.c:77-133 | an ack made and applied now moves the head to `expected` and marks exactly the buffered numbers within 32 of it |
| LinkProofs.OwnAckIsSound | src/core/rel4u_window.c:383-403 | every number an ack speaks for has been accepted |
| LinkProofs.DrainHandsUpOrdered | src/core/rel4u_window.c:357-381 | a drain hands up exactly the ordered messages it passes, in order |
| LinkProofs.StepInv | src/core/rel4u_window.c:40-403 | send, resend, delivery, ack, ack delivery and loss all keep the session invariant |
| LinkProofs.RunInv | src/core/rel4u_window.c:40-403 | the session invariant holds in every state of every run |
| Recovery.ExactlyOnceInOrder | src/core/rel4u_window.c:229-403 | in every run the ordered messages handed up are exactly those numbered below `expected`, in order and once each |
| Recovery.UnorderedExactlyOnce | src/core/rel4u_window.c:270-322 | in every run the unordered messages handed up are exactly the accepted ones, once each and unaltered |
| Recovery.UnorderedAtOnce | src/core/rel4u_window.c:283-295 | a step accepts a new unordered message if and only if it hands that message up, before anything else |
| Recovery.AckSoundness | src/core/rel4u_window.c:77-133 | in every run head <= expected <= next <= head + capacity, and everything acked was accepted |
| Recovery.RunExtends | src/core/rel4u_window.c:229-403 | between any two states of a run nothing handed up is taken back and nothing accepted is forgotten |
| Recovery.SelectiveRetransmissionSuffices | src/core/rel4u_window.c:77-155 | with a receiver capacity at least the sender's, one copy of each un-acked message in any order and one ack empty the window |
| Recovery.EveryOrderRecoversIff | src/core/rel4u_window.c:330-333 | every order of resending works if and only if what was sent reaches no further than the receiver's window |
| Recovery.OldestFirstRecovers | src/core/rel4u_window.c:142-152 | resending from the oldest up works for a receiver of any capacity |
| Rounds.ExpiryRoundRecovers | src/core/rel4u_client.c:535-551 | for every limit per round, with all un-acked messages due, one round delivered and acked moves the head past everything it sent, and empties the window unless it sent as many as the limit |
| Rounds.ResentPacketsDeliver | src/core/rel4u_client.c:545-551 | the packets of a round, read by their words and contents, bring the receiver to where one copy of each due message would, and hand up the same |
| Rounds.RoundReaches | src/core/rel4u_client.c:535-551 | a round is made of steps of the link, so what holds of all runs holds through the rounds |
| Rounds.RoundsRecover | src/core/rel4u_client.c:535-551 | ceil(un-acked / limit) such rounds empty the window, for every limit and every capacity at either end; everything sent has then been handed up, the ordered messages in order and each message once |
| Reconnect.DeliveredIff | src/core/rel4u_window.c:229-381 | in every reachable state a message has been handed up if and only if it is accepted and not waiting for its turn |
| Reconnect.RestartedMeaning | src/core/rel4u_client.c:516-528 | after a reconnect the new window carries, numbered from 0, the reliable messages from the front of the queue left by reclaim, as many as fit |
| Reconnect.RestartedCarries | src/core/rel4u_client.c:345-360 | with room in the queue, the new numbers from 0 on go to the un-acked messages in their old order |
| Reconnect.KeptSessionSwallows | src/core/rel4u_server.c:352-380 | a server that kept the session ignores, within its reach, exactly the new messages numbered below `expected` or held in its buffer, and its ack retires the first min(expected, number sent) of them, up to 2^31 numbers |
| Reconnect.LostMeaning | src/core/rel4u_server.c:434-477 | up to the age limit, a new number is lost if and only if the kept server ignores it and it carries no message the server had accepted before |
| Reconnect.LargestIsLost | src/core/rel4u_server.c:352-380 | once an ack has taken effect, the largest number the kept server has accepted is lost |
| Reconnect.KeptSessionGoesOn | src/core/rel4u_server.c:352-380 | with room and no ack in effect, the restarted window, the kept receiver and what is in flight satisfy the session invariant |
| Reconnect.ReconnectLosesNothingIff | src/core/rel4u_client.c:345-360 | from every reachable state and for every queue: nothing is lost, now or later, if and only if the queue has room for the un-acked messages and either the server forgot the session and no acked message waited in its buffer, or it kept the session and no ack has taken effect at the client |
| Reconnect.ForgottenSessionRepeats | src/core/rel4u_client.c:345-360 | a message has been handed up and is sent anew if and only if it was handed up and is un-acked |
| Reconnect.ForgottenSessionCanLose | src/core/rel4u_window.c:176-178 | a run after which a selectively acked ordered message is neither handed up nor un-acked |
| Reconnect.KeptSessionCanLose | src/core/rel4u_server.c:352-380 | a run after which the one un-acked message, sent anew as number 0, is ignored by the kept window and retired by its ack |
| Downstream.ForgottenSessionDiscards | src/core/rel4u_session.c:103-117 | the new session of a client the table had forgotten has an empty send window |
| Downstream.KeptSessionStalls | src/core/rel4u_server.c:352-380 | with the client's receive window started over and a number already acked at the server, `expected` never passes that number and no ordered message from it on is handed up, on every path of up to 2^31 numbers |
| Downstream.KeptSessionStartsOver | src/core/rel4u_server.c:352-380 | the server's window and the restarted client satisfy the session invariant if and only if no ack has taken effect at the server |
| QueueSpec.EvictsShortestPrefix | src/core/rel4u_mpmc.c:100-117 | eviction removes the shortest sufficient prefix of oldest items and nothing else |
| QueueSpec.PushOk | src/core/rel4u_mpmc.c:72-222 | every push keeps the item or byte bound of the mode |
| QueueSpec.BoundMeaning | src/core/rel4u_mpmc.c:72-222 | within bounds means at most `capacity` items on a ring, at most `max_bytes` of 32 bytes an item plus all payload bytes on a list, and no payload above 9216 bytes |
| QueueSpec.DynamicRoom | src/core/rel4u_mpmc.c:92-112 | a list has room for an item if and only if the bytes in use, 32 and its payload fit `max_bytes`; a payload above 9216 bytes is refused without effect |
| QueueSpec.PushConserves | src/core/rel4u_mpmc.c:72-222 | a legal push adds exactly one to queued plus dropped |
| QueueSpec.DropLastAccepts | src/core/rel4u_mpmc.c:92-145 | DROP_LAST refuses a legal item if and only if it could never fit or memory runs out |
| QueueSpec.FittingPush | src/core/rel4u_mpmc.c:72-222 | an item that fits is placed at its end without loss under either policy |
| QueueSpec.Conservation | src/core/rel4u_mpmc.c:72-254 | after any operations in either mode and policy, legal items offered equal those popped plus queued plus dropped |
| QueueSpec.NeverReordered | src/core/rel4u_mpmc.c:72-254 | after any pushes at the back and pops, what was popped and is queued is what was offered, in its order, with some items struck out |
| QueueSpec.NothingDroppedIff | src/core/rel4u_mpmc.c:72-254 | nothing at all is struck out if and only if the drop count is zero |
| QueueSpec.NothingDroppedIffRoom | src/core/rel4u_mpmc.c:72-222 | the drop count is zero if and only if every legal push found room and memory in the queue as it was |
| QueueSpec.PushGrowth | src/core/rel4u_mpmc.c:72-222 | a push makes the queue longer if and only if the item is legal, fits beside everything queued and gets its memory |
| Application.HandedIsLegal | src/core/rel4u_server.c:440-447 | in every run nothing handed up is too long for the application's queue |
| Application.ApplicationGets | src/core/rel4u_server.c:440-474 | end to end over every run: the application gets a selection of what was offered, in order; all of it if and only if every push found room; and then the reliable messages of a session reach it as handed up, the ordered ones once each in the order sent, among any other traffic |
| Application.AckedButDropped | src/core/rel4u_server.c:440-447 | under either policy, a run and a queue in which an acked message handed up is neither popped nor queued |
| Mpmc.Mpmc.constructor | src/core/rel4u_mpmc.c:5-39 | a new queue is empty in either mode; a byte limit of zero becomes 1048576 |
| Mpmc.RingDropHead | src/core/rel4u_mpmc.c:228-230 | advancing the head of a ring of any capacity drops exactly the first item |
| Mpmc.RingAddBack | src/core/rel4u_mpmc.c:88-90 | writing at the tail appends one item |
| Mpmc.RingAddFront | src/core/rel4u_mpmc.c:164-166 | stepping the head back and writing prepends one item |
| Mpmc.Mpmc.UnlinkHead | src/core/rel4u_mpmc.c:102-112 | unlinking the head node removes the first item and its bytes and keeps the list well linked both ways |
| Mpmc.Mpmc.LinkAt | src/core/rel4u_mpmc.c:125-144 | linking a node at either end adds the item there and its bytes and keeps the list well linked |
| Mpmc.Mpmc.EvictFor | src/core/rel4u_mpmc.c:100-117 | the eviction loop terminates with room, having evicted what the reference evicts, or refuses under DROP_NEW unchanged |
| Mpmc.Mpmc.PushFixed | src/core/rel4u_mpmc.c:75-91 | a push on the ring refines the double-ended sequence with its full policy |
| Mpmc.Mpmc.PushDynamic | src/core/rel4u_mpmc.c:168-221 | a push on the list refines it too, including a failed allocation after evictions |
| Mpmc.Mpmc.BytesInUse | src/core/rel4u_mpmc.c:92-144 | the byte counter of a list is 32 bytes an item plus the payload lengths, and never above the limit |
| Mpmc.Mpmc.PushAt | src/core/rel4u_mpmc.c:72-222 | both pushes in both modes refine the reference push |
| Mpmc.Mpmc.TryPop | src/core/rel4u_mpmc.c:224-254 | a pop in both modes returns and removes the first item, or reports an empty queue |
| WaitProtocol.RunInv | src/core/rel4u_mpmc.c:274-335 | the waiting invariant holds in every state of every interleaving, with spurious wakeups and timeouts |
| WaitProtocol.NoLostWakeups | src/core/rel4u_mpmc.c:274-326 | while a thread is blocked, queued items number at most the threads woken and not yet resumed |
| WaitProtocol.UntimedFailure | src/core/rel4u_mpmc.c:301-314 | an untimed wait gives up if and only if the queue is empty and broadcasts since entry are not a multiple of 2^32 |
| WaitProtocol.TimedFailure | src/core/rel4u_mpmc.c:315-321 | a timed wait gives up if and only if the queue is empty and its time ran out or broadcasts since entry are not a multiple of 2^32; a zero timeout never waits |
| WaitProtocol.EnterMeaning | src/core/rel4u_mpmc.c:298-321 | a call takes the first item at once if there is one, fails at once on an empty queue with a zero timeout, and otherwise waits with its timeout |
| WaitProtocol.ResumeMeaning | src/core/rel4u_mpmc.c:309-326 | a thread that has the mutex back takes the first item, or fails exactly when it gives up, or waits again as before |
| WaitProtocol.WakeAllFrees | src/core/rel4u_mpmc.c:328-335 | a wake_all leaves no thread blocked, and each gives up on an empty queue, short of 2^32 broadcasts since it entered |
| WaitProtocol.DestroyFrees | src/core/rel4u_mpmc.c:41-70 | a destroy does so too and leaves the queue empty |
| WaitProtocol.PlainPushCondition | src/core/rel4u_mpmc.c:256-263 | an unsignalled push of any item loses a wakeup if and only if a thread is blocked, the queued items are all spoken for, and the item finds room and memory |
| HandoffSpec.DrainInOrder | src/core/rel4u_client.c:516-528 | a drain takes a prefix of the queue, numbers its reliable messages consecutively in FIFO order, sends each item once under the number assigned to it, and stops only at an empty queue or full window |
| Handoff.DrainSendQueue | src/core/rel4u_client.c:516-528 | the drain loop on the real queue and window computes the reference |
| HandoffSpec.UnackedItemsCount | src/core/rel4u_window.c:171-189 | reclaim considers exactly as many messages as are un-acked |
| HandoffSpec.ReclaimWithRoom | src/core/rel4u_window.c:167-192 | with room, reclaim puts the un-acked messages in sequence order before the old contents and counts them |
| HandoffSpec.ReclaimKeepsAllIff | src/core/rel4u_window.c:185-187 | reclaim keeps everything if and only if the queue's bound admits it |
| HandoffSpec.ReclaimOverflow | src/core/rel4u_mpmc.c:151-167 | what a DROP_LAST ring without room holds after reclaim |
| HandoffSpec.DrainThenReclaim | src/core/rel4u_client.c:345-360 | draining an empty window and reclaiming before any ack restores the queue, less unreliable messages |
| Handoff.ReclaimUnacked | src/core/rel4u_window.c:167-192 | the reclaim loop on the real window and queue computes the reference and leaves the window alone |
| Handoff.Client.TriggerReconnect | src/core/rel4u_client.c:345-360 | reclaim, then both windows with their unreliable counters, the estimator, session id, ack flag and activity time start over; or nothing but the state changes when reconnecting is disabled |
| SessionSpec.LruScan | src/core/rel4u_session.c:84-93 | the scan finds the live session with the oldest time, lowest index on ties, and fails only when all times are UINT64_MAX |
| SessionSpec.PlaceMeaning | src/core/rel4u_session.c:70-101 | a table that is not full yields a free slot; a full one the least recent session or none by policy |
| SessionSpec.AllocateOk | src/core/rel4u_session.c:65-119 | allocation keeps the table invariant |
| ServerMeaning.Newcomer | src/core/rel4u_session.c:103-118 | a newcomer that is answered gets a connecting session with a non-zero token, empty windows starting at 1, unreliable counter 1 and the estimator at its defaults; the other slots stay as they were |
| SessionSpec.FreeOk | src/core/rel4u_session.c:128-133 | freeing keeps the table invariant |
| ServerSpec.StepOk | src/core/rel4u_server.c:349-551 | every step, sending and retransmitting included, keeps the live count, ids, non-zero tokens, one session per address, and sound windows |
| ServerSpec.RepeatedConnect | src/core/rel4u_server.c:352-380 | a connect request from a live address gets that session's token and touches only its time |
| ServerSpec.ConnectTwice | src/core/rel4u_server.c:352-380 | an answered connect request is answered alike again, by the same slot |
| ServerSpec.Isolation | src/core/rel4u_server.c:382-477 | a packet touches only the session of its own address and token |
| ServerMeaning.DataArrives | src/core/rel4u_server.c:434-477 | a reliable data packet under the address and token of a session goes through its receive window, and what that hands up is handed up |
| ServerMeaning.NextArrives | src/core/rel4u_server.c:434-477 | the packet with the number a session expects has its message handed up first and moves `expected` on, in every table that satisfies the invariant |
| ServerMeaning.OthersBringNothing | src/core/rel4u_server.c:404-477 | no other packet hands up a reliable message or touches the receive window |
| ServerMeaning.AckArrives | src/core/rel4u_server.c:413-427 | the ack fields of every packet but CONNECT_ACK and DISCONNECT reach send window and estimator; those two leave both alone |
| ServerMeaning.PacketTouches | src/core/rel4u_server.c:404-432 | every packet counts as activity; all but DISCONNECT connect a connecting session, DISCONNECT closes it, and only a heartbeat is answered |
| ServerMeaning.StrangerIsReset | src/core/rel4u_server.c:382-402 | a packet without a session of its address and token changes nothing and is answered by a reset with its token and number, unless it is a reset, disconnect or reject |
| ServerMeaning.KickCloses | src/core/rel4u_server.c:217-243 | disconnecting a live client closes its session and takes its token away; no other session is touched |
| ServerSpec.SweepMeaning | src/core/rel4u_server.c:522-551 | the timer pass closes exactly the live sessions idle for at least the timeout, and the other connected ones retransmit |
| ServerMeaning.IdleMeaning | src/core/rel4u_server.c:526-530 | idle means at least the timeout in milliseconds since the last activity, on the 64-bit nanosecond clock |
| ServerMeaning.TimerSendsDue | src/core/rel4u_server.c:522-551 | the timer pass sends a connected client that is not idle exactly its due messages, at most 16 and oldest first, under their own numbers, and sends any other nothing |
| ServerSpec.RunInv | src/core/rel4u_server.c:349-551 | in every run the table invariant holds and activity times are when addresses were last heard |
| ServerSpec.EvictsLeastRecent | src/core/rel4u_session.c:84-99 | in every run a newcomer to a full DROP_OLD table takes the slot heard least recently and the rest stay as they were |
| ServerSpec.RejectedIff | src/core/rel4u_server.c:359-372 | exactly when a newcomer is rejected, and that the table then stays as it was |
| Server.SessionTable.constructor | src/core/rel4u_session.c:5-28 | a new table has no live session and satisfies the invariant |
| Server.SessionTable.FindByAddr | src/core/rel4u_session.c:46-57 | the scan returns the first live session of the address, or none |
| Server.SessionTable.FindOldest | src/core/rel4u_session.c:84-93 | the scan loop computes the reference scan |
| Server.SessionTable.AllocateSlot | src/core/rel4u_session.c:65-119 | slot, eviction flag and whole new table |
| Server.SessionTable.FreeSlot | src/core/rel4u_session.c:128-133 | freeing a slot gives the reference table |
| Server.SessionTable.HandleConnect | src/core/rel4u_server.c:351-380 | a connect request gives the reference table and reply and keeps the invariant |
| Server.SessionTable.HandlePacket | src/core/rel4u_server.c:382-477 | any other packet gives the reference table, reply and reliable messages handed up, and keeps the invariant |
| Server.SessionTable.DisconnectClient | src/core/rel4u_server.c:217-243 | disconnecting frees the slot of a live client and reports any other |
| Server.SessionTable.RunTimers | src/core/rel4u_server.c:522-551 | the timer loop computes the reference, returns the packets sent again, and keeps the invariant |
| OutboundSpec.ServerDrainInOrder | src/core/rel4u_server.c:483-516 | a drain takes a prefix of pending item and queue; each connected client's window numbers exactly its items, in order, and each is sent to it once under its number; it stops only at a full window or an empty backlog |
| OutboundSpec.AddressedMeaning | src/core/rel4u_server.c:537-549 | packets of a session go to its client and to no other |
| OutboundSpec.DrainBacklogOk | src/core/rel4u_server.c:483-516 | a drain keeps the table invariant, send windows included |
| Hosting.SlotFollowsLinks | src/core/rel4u_server.c:349-551 | whatever the server does, a session that goes on is moved by steps of its two links and hands up what its link does, given that packets under its address and token are its client's |
| Hosting.AllocationStarts | src/core/rel4u_session.c:103-118 | a newcomer's answered connect request leaves a session that starts two links |
| Hosting.SessionGuarantees | src/core/rel4u_server.c:349-551 | at every moment of a session's life, among all other clients: ordered messages handed up exactly once in order, unordered ones exactly once, and nothing acked that the client had not accepted |
| ServerDrain.DrainServerQueue | src/core/rel4u_server.c:483-516 | the pending-item loop computes the reference, packets included, and keeps the table valid: no item is lost or overtaken |
| Rtt.Estimator.constructor | src/core/rel4u_rtt.c:4-14 | defaults for zero arguments and the initial clamp |
| Rtt.InitMeaning | src/core/rel4u_rtt.c:4-14 | zero arguments give 200, 20 and 2000 ms, and an initial timeout between the bounds is taken as it is |
| Rtt.Estimator.UpdateSample | src/core/rel4u_rtt.c:16-43 | the field updates compute the reference sample with 32-bit truncation |
| Rtt.Estimator.OnTimeout | src/core/rel4u_rtt.c:45-52 | doubling with truncation and the upper clamp |
| Rtt.BackoffDoubles | src/core/rel4u_rtt.c:45-52 | after k timeouts in a row, for every k, the RTO is the smaller of 2^k times what it was and the maximum, and nothing else moves |
| Rtt.BackoffGrows | src/core/rel4u_rtt.c:45-52 | so the RTO grows strictly until it reaches the maximum and then stays |
| Rtt.SampleMeaning | src/core/rel4u_rtt.c:16-43 | below 2^29 ms: first and later values of SRTT and RTTVAR, and RTO = SRTT + 4 RTTVAR unless that is outside the bounds, and then the bound it passed |
| Rtt.SampleIsExact | src/core/rel4u_rtt.c:16-43 | below 2^29 ms no operation wraps and the update is that of sections 2.2 and 2.3 of RFC 6298 |
| Rtt.SampleLimitIsSharp | src/core/rel4u_rtt.c:32-33 | on a constant sample the second update is exact if and only if the sample is below 2^29 |
| Rtt.HistoryBounds | src/core/rel4u_rtt.c:4-52 | over every history SRTT stays between the extreme samples, RTTVAR in [1, max(1, largest)] and RTO in its bounds |
| Rtt.ConstantSampleConverges | src/core/rel4u_rtt.c:19-39 | on a constant sample r, from a fresh or used estimator, after a known number of updates and for good, SRTT is in [r - 7, r] and the unclamped RTO in [r, r + 21] |
| Header.EncodeHeader | src/core/rel4u_packet.c:11-35 | a short buffer is refused untouched; otherwise the first 24 bytes are the header in network order and the rest is kept |
| Header.BigEndian | src/core/rel4u_packet.c:11-35 | each byte of the header by value: every 16- and 32-bit field has its most significant byte first, at its own offset |
| Header.DecodeHeader | src/core/rel4u_packet.c:37-74 | the result code and fields for every buffer |
| Header.DecodeOfEncode | src/core/rel4u_packet.c:11-74 | decoding an encoded header gives it back, or the code of the first failing test |
| Header.EncodeOfDecode | src/core/rel4u_packet.c:37-74 | encoding an accepted header reproduces its 24 bytes, and the payload lies inside the datagram |

## Left out

- Sockets, polling, wakeup pipes, address parsing and the clock (src/platform): input and output.
- Thread creation and joining, mutexes: each critical section is one step.
- Argument null checks, allocation failure at creation, destruction of windows and tables: easy members.
- Statistics other than `dropped_count`, the in-flight count, the live count and byte totals.
- The client's handshake loop, packet filter, heartbeats and connect timeouts: short tests with no invariant beyond their guards.
- The server's heartbeats and standalone acks: they only emit what `GetAckInfo` computes.
- The DISCONNECT packet sent to a client that is disconnected by `rel4u_server_disconnect_client`: a header with its token.
- Session token uniqueness: tokens come from clock and pointer bits and are inputs here.
- The SYN cookies of docs/protocol.md and the eviction notice of docs/internals.md: not implemented by the code.
- Exactly-once delivery across reconnects: the code does not provide it; `Reconnect` and `Downstream` say what is lost and repeated. Packets of the old session still in flight at a reconnect are followed into the new one only where the session goes on (`Reconnect.KeptSessionGoesOn`).
- Server.SessionTable.HandlePacket: a session's windows and estimator are held as values and updated by their reference functions, so their update in place inside the table is not captured.
- SendWindow.SendWindow.constructor: capacity 2^31 is not constructed, because `SendWindow.UsableCapacities` shows that such a window takes no message.
- RecvWindow.RecvWindow.constructor: capacity 2^31 is not constructed, for the same reason.
- Server.SessionTable.constructor: window size 2^31 and tables of 2^31 or more slots are not constructed; the latter overflow the slot index.
- Server.SessionTable.RunTimers: a session's windows are values there too.
- The handing up of unreliable messages by the server step; `RecvWindow.RecvWindow.OnDataPacket` covers those modes.
- The byte total of a fixed-mode queue: a constant set at creation.
- The memory behind a queue node is counted with the 64-bit node size of 32 bytes.
