# A model of the robot protocol server and its proofs

The repository is a small C server that lets one TCP client at a time control a robot. This project models in
Dafny the parts of it that are hard to get right by reading, and proves what they promise.

* **Log ring buffer** (`Wire.dfy`, `RingBuffer.dfy`, `RingThreads.dfy`). A byte ring with one slot kept open. The
  class copies in two chunks over a real array, as the C code does, and is proved against a FIFO queue. The step
  system splits every operation into taking the semaphore, computing the space, copying one byte, publishing
  an index and giving the semaphore, and proves what every interleaving of any number of producers and
  one lock-free consumer keeps. The `lock_give` left on the empty read is part of it: the
  ring tolerates any number of empty reads with one producer and none with two or more.
* **Framing** (`Framing.dfy`, `FrameStream.dfy`). `read_header` hunts for the magic number in a sliding 18-byte
  window and a loop assembles the payload, over scripts of recv results. Proved: resynchronisation, and exactly
  when a fragmented list of frames is recovered.
* **Dispatch** (`Dispatch.dfy`). One response for each accepted header, and an outgoing stream that
  parses by its own length fields.
* **Session** (`Session.dfy`, `SessionRuns.dfy`, `SessionTurns.dfy`, `RobotServer.dfy`). The TCP thread, the timeout
  thread and the caller of stop, one assignment or call per step. Theorems hold for all schedules. Where an unlocked gap
  shows, a lemma gives a reachable state that shows it.
* **Move goals** (`MoveGoal.dfy`). The variable-length payload, its validator in truncating 32-bit arithmetic, its
  encoding and its deep copy.
* **Goals and motion** (`GoalMachine.dfy`, `MockRobot.dfy`). The multi-group goal state machine as a function over runs
  of commands, and the in-place class that implements it.
* **Robot under the server** (`ControlledRobot.dfy`, `ControlledRobotRuns.dfy`). Both together: what is left moving when
  nobody is connected.
* **Fault rules** (`FaultInject.dfy`). The stateful rule table against a pure reading of the message history.

In all step systems an event that its thread cannot perform now changes nothing, so every list of events is a
schedule and "for all lists of events" means "in every reachable state".

## Findings

* The validator's arithmetic is exact for trajectory counts up to 8,259,552, and beyond that only for counts whose
  size without tolerances is a multiple of 2^32 (`MoveGoal.ValidatorExactness`). On payloads that the server takes it
  is exact if and only if the count is within the bound or that size, modulo 2^32, is 0 or above 104,016
  (`MoveGoal.ReceivedExactness`); a 144-byte frame with a count of 16,268,816 shows the failure
  (`MoveGoal.SmallFrameForManyPoints`). The tolerance count is then looked up about 4 GiB past the payload; if that
  out-of-bounds read yields 0, the frame is accepted and stored (`GoalMachine.StoredCopyNotWhole`).
* The port of a registered client is its own session's except between the statements of `add_client` that set
  `connected` and clear `udp_port_registered` (`SessionRuns.RegisteredPortIsThisSessions`,
  `SessionRuns.StalePortInTheWindow`).
* A client that connects between the timeout check and the removal is removed for its predecessor's silence
  (`SessionRuns.NewcomerTimedOut`). A client heard after the check is removed all the same, whether its command is
  handled before `remove_client` takes the mutex (`SessionRuns.HeardYetTimedOut`) or inside it, up to the
  statement that disconnects it (`SessionRuns.HeardInsideRemoval`). Until the timeout has passed once more since the
  check, those are the only ways: `SessionRuns.RemovalAfterSilence` is an equivalence up to that statement.
* The socket is read anew for the header, for every piece of a payload and for the response. After a removal
  completed since the poll, or since the header, they use descriptor 0 (`SessionRuns.TransfersStayHome`,
  `SessionRuns.HeaderComesAstray`, `SessionRuns.PayloadComesAstray`, `SessionRuns.ReplyGoesAstray`).
* A peer that closes its end is removed at the next read if and only if errno does not still say "try again" from an
  earlier one; after one such read it is never removed by the TCP thread (`FrameStream.ClosedPeer`,
  `FrameStream.ClosedPeerIsNotNoticed`).
* A window that starts with 0x52 but is no header makes `read_header` ask for no bytes at all, so the recv returns 0
  and errno decides whether the client is removed (`FrameStream.StuckWindow`).
* The robot can be found moving outside a session exactly when a command that starts motion (a test trajectory with
  servo power, or a goal that is accepted) is handled outside one, or stop disconnects a client while it moves
  (`ControlledRobot.NobodyMeansRestExactly`). With frame handling as one step the first can still happen, exactly
  while `remove_client` is between its callback and `connected = false` (`ControlledRobot.NobodyMeansRestInTurns`).
  A run for each: `ControlledRobotRuns.LateCommandMoves`, `ControlledRobotRuns.FrameDuringRemovalMoves`,
  `ControlledRobotRuns.StopLeavesItMoving`.
* Cancelling goal 0 reaches the first group without a goal. Each group but the first is independent of the others if
  and only if no cancel of goal 0 finds it without a goal accepted by it afterwards
  (`GoalMachine.GroupIndependence`, `GoalMachine.GoalZeroIsShared`). An id repeated in an earlier
  group, even by a finished goal, shields a live goal from being cancelled (`GoalMachine.CancelReaches`,
  `GoalMachine.StaleIdShields`).
* `MSG_CHECK_GROUP` compares a signed index with the number of groups: the answer is right exactly for the
  non-negative ones, and every negative one is confirmed (`MockRobot.CheckGroupIsExact`,
  `MockRobot.NegativeGroupConfirmed`).
* The destination `header + offset` at `robot_protocol.c:212` is scaled by the size of the header: as written, the recv
  after a shift of the window fills bytes from 18 * offset on, outside the 18-byte header. The model takes
  the byte offset that lines 227-229 compute.
* `logging/include/ring_buffer.h:47` says that the write functions return the bytes not written. The code
  returns the bytes written, and so does the model.

## Model

| member | source | states |
|---|---|---|
| Wire.ByteOrder | protocol.h:5-24 | Multi-byte integers lie lowest byte first and signed ones are two's complement |
| RingBuffer.Published | logging/src/ring_buffer.c:84-101 | Bytes laid into the free slots are appended to the queue, in order, by moving the head past them |
| RingBuffer.Dropped | logging/src/ring_buffer.c:146-184 | Moving the tail past n queued bytes removes exactly the n oldest |
| RingBuffer.FreeSlotIsNotQueued | logging/src/ring_buffer.c:28-37 | Writing any of the free slots changes nothing in the queue; no free slot is a queued one |
| RingBuffer.Ring.FreeSpace | logging/src/ring_buffer.c:28-37 | Free and used space add up to one less than the buffer: one slot stays open |
| RingBuffer.Ring.Contents | logging/src/ring_buffer.c:146-184 | The queued bytes, oldest first, as many as the used space, read by wrapping from the tail |
| RingBuffer.RingBuffer.Initialize | logging/src/ring_buffer.c:5-26 | An empty buffer is refused and nothing changes; otherwise the ring is empty, the storage zeroed, the semaphore 1 |
| RingBuffer.RingBuffer.FreeSpace | logging/src/ring_buffer.c:39-54 | The space that a write can still take, one slot short of the buffer, with the semaphore as before |
| RingBuffer.RingBuffer.UsedSpace | logging/src/ring_buffer.c:66-82 | The number of queued bytes, with the semaphore as before |
| RingBuffer.RingBuffer.WriteInner | logging/src/ring_buffer.c:84-101 | The two-chunk copy appends exactly the given bytes to the queue |
| RingBuffer.RingBuffer.WriteExactN | logging/src/ring_buffer.c:103-122 | All bytes are appended if they fit, otherwise none; the return value says which; the semaphore is as before |
| RingBuffer.RingBuffer.WriteN | logging/src/ring_buffer.c:124-144 | The leading bytes that fit are appended and counted; the semaphore is as before |
| RingBuffer.RingBuffer.CopyOut | logging/src/ring_buffer.c:165-176 | The two-chunk copy out hands over exactly the n oldest bytes and leaves the ring and the rest of the destination alone |
| RingBuffer.RingBuffer.ReadN | logging/src/ring_buffer.c:146-184 | The oldest bytes are handed over in order and removed; the semaphore gains one exactly on a read of the empty ring |
| RingThreads.SemaphoreAccounting | logging/src/ring_buffer.c:103-163 | On every schedule count plus threads inside is 1 plus empty reads, so producers exclude each other until the first empty read |
| RingThreads.OneProducerFifo | logging/src/ring_buffer.c:84-184 | One producer and the lock-free consumer: on every schedule, bytes returned followed by bytes queued are the published writes |
| RingThreads.ManyProducersFifo | logging/src/ring_buffer.c:103-122 | Any number of producers, until an empty read: the output is a prefix of whole records, and each thread's records come in the order of its successful calls |
| RingThreads.SlotsAreOwned | logging/src/ring_buffer.c:84-184 | Stale space estimates are conservative: the slot about to be written is not queued, and is not the one about to be read |
| RingThreads.ReadStarts | logging/src/ring_buffer.c:156-163 | A read finds the ring empty exactly when it is; otherwise it is for as many bytes as asked for or queued |
| RingThreads.ReadRuns | logging/src/ring_buffer.c:146-184 | With nobody in between, the steps of a read return exactly the oldest bytes, as many as asked for or queued, drop them and change nothing else |
| RingThreads.EmptyReadIsCounted | logging/src/ring_buffer.c:160-163 | Only a read of an empty ring leads to the extra give, which raises the semaphore and changes nothing else |
| RingThreads.WriteRuns | logging/src/ring_buffer.c:103-144 | With nobody in between, the steps of a write append the leading bytes that fit, or for an exact write all, record the call and leave the semaphore as it was |
| RingThreads.CallGivesUp | logging/src/ring_buffer.c:115-118 | A call that has nothing to write, or no room for it, leaves everything as it was |
| RingThreads.CallBegins | logging/src/ring_buffer.c:103-117 | A write of no bytes, or with the semaphore at 0, does not begin; any other computes what fits |
| RingThreads.ConsistentStep | logging/src/ring_buffer.c:84-184 | Every step of every thread keeps the queue equation, both estimates and every thread's history, while producers exclude each other |
| RingThreads.ClashBreaksFifo | logging/src/ring_buffer.c:160-163 | One empty read lets two producers in, both copy to the same slot and the ring is no queue any more |
| RingThreads.OneByteRing | logging/src/ring_buffer.c:28-37 | A ring of one byte never holds or hands out anything, on any schedule |
| RingThreads.EmptyReadsTolerated | logging/src/ring_buffer.c:146-184 | For every size: the ring is a queue on all schedules with at most k empty reads if and only if k is 0, there is at most one producer, or the ring has one byte |
| Framing.Resync | robot_protocol.c:207-236 | On a greedily served stream 18 is returned iff the first 0x52 starts the magic number and 18 bytes follow; then the header is those bytes, exactly that much is consumed, and nothing discarded could have begun a frame |
| Framing.HuntIsSound | robot_protocol.c:207-236 | For every script: a header is only returned from the stream's first 0x52 on, and the bytes taken are exactly those through its end |
| Framing.HuntIsComplete | robot_protocol.c:207-236 | On a greedily served stream a header that comes first in what is kept and what is still to come is found, whatever window the hunt is at |
| Framing.Connection.Receive | robot_protocol.c:212-218 | The bytes received stand at the offset and nothing else changes; errno changes only on an error |
| Framing.Connection.Slide | robot_protocol.c:221-233 | Without the magic number in front, the window's bytes from the first 0x52 on are moved to the front |
| Framing.Connection.ReadHeader | robot_protocol.c:207-236 | The loop returns the code, the header and the rest of the stream of the hunt proved sound and complete |
| Framing.Connection.ReceivePiece | robot_protocol.c:302-315 | One turn of the payload loop puts the received bytes in place and counts them, or ends the payload |
| Framing.Connection.ReadPayload | robot_protocol.c:300-315 | The received count stays within the length, without 32-bit wrap, and the payload is what the recv results deliver, or nothing |
| Framing.Connection.ServeNext | robot_protocol.c:285-325 | One pass of the loop: a message reaches the handler only with a whole header and a whole payload of its stated length |
| Framing.ServeOnce | robot_protocol.c:285-325 | A message's payload has the length its header states, at most the maximum; every pass takes something from a non-empty script |
| FrameStream.FramesRecovered | robot_protocol.c:285-325 | For every list of frames, headers with too large a length among them, and every cut of their bytes into non-empty pieces, exactly those frames are served and exactly those headers refused, in order, iff each header arrives whole |
| FrameStream.OversizedRefused | robot_protocol.c:319-323 | The header at the first 0x52 of a greedy stream is refused if its length exceeds the maximum, and the thread goes on with the bytes after it |
| FrameStream.PayloadDecides | robot_protocol.c:292-319 | A whole header's message is handled with exactly the payload that arrives, or the payload has failed |
| FrameStream.ShortReads | robot_protocol.c:219-220 | Part of a header is dropped and the client stays |
| FrameStream.FailingReads | robot_protocol.c:213-218 | A failing recv removes the client unless it is to be tried again |
| FrameStream.StuckWindow | robot_protocol.c:225-229 | A window that starts with 0x52 but is no header asks for nothing, and errno decides |
| FrameStream.ShortRefill | robot_protocol.c:219-220 | A refill that comes short is dropped together with the window |
| FrameStream.PayloadReadExactly | robot_protocol.c:300-319 | For every script the payload loop yields the bytes asked for iff that many arrive before a recv returns nothing |
| FrameStream.ClosedPeer | robot_protocol.c:213-218 | A read of a closed peer removes the client if and only if errno does not still say "try again" |
| FrameStream.ClosedPeerIsNotNoticed | robot_protocol.c:213-218 | After one read that was to be tried again, any number of reads of a closed peer are ignored |
| FrameStream.CollectOfFlowing | robot_protocol.c:300-315 | However a payload is cut into positive pieces, its bytes are collected and the rest of the stream is left |
| Dispatch.ParseEncodeAll | robot_protocol.c:107-156 | A stream of encoded responses parses, by its own length fields, into exactly those responses |
| Dispatch.EncodedHeader | protocol.h:119-126 | Every field of a response's header by its byte offset, the length least significant byte first |
| Dispatch.RegistrationOutcome | robot_protocol.c:329-397 | On the policy and the payload's bytes: which registrations are confirmed with 0x05, which refused with 0x06, and which cost the client its connection |
| Dispatch.UnversionedRegistration | robot_protocol.c:358-384 | Port 27655 without a version byte is confirmed unless the policy rejects |
| Dispatch.OtherOutcomes | robot_protocol.c:398-425 | Which callback answers which message, and what answers when it or its result is missing |
| Dispatch.OtherClosings | robot_protocol.c:288-323 | What else removes the client and what else is answered |
| Dispatch.EveryFrameAnswered | robot_protocol.c:292-430 | A list of frames that arrive with whole headers gets as many responses as it is long, or as it takes to the first rejected version, the i-th for the i-th frame |
| Dispatch.OneAnswerEach | robot_protocol.c:292-430 | The response to each accepted header stands behind exactly as many responses as headers were accepted before it, and there are no others |
| Dispatch.ClientThread.Send | robot_protocol.c:146-156 | Header and payload are appended to the outgoing bytes as one encoded response |
| Dispatch.ClientThread.Register | robot_protocol.c:328-397 | Under each version policy, also by the payload's bytes alone: the one response, whether the port is stored, and whether the client is removed |
| Dispatch.ClientThread.Handle | robot_protocol.c:279-430 | One response for an accepted header and none otherwise; the client is removed without a header, after a failed payload or a rejected registration |
| Dispatch.ClientThread.ServeClient | robot_protocol.c:238-432 | A whole session's outgoing bytes parse into exactly one response for each accepted header, each in its place |
| Session.GoodStep | robot_protocol.c:158-564 | Every step of every thread keeps the session invariant: places, callbacks, sockets, registration and time |
| Session.IdleBound | robot_protocol.c:441-445 | With whole-second readings, expiry implies more than floor(timeout_ms/1000) seconds of real silence and follows from a second more |
| SessionRuns.SocketsClosedOnce | robot_protocol.c:158-205 | On every schedule each accepted socket is closed at most once, is open only while carried or owned, at most one controlling socket is open, and after stop each was closed exactly once |
| SessionRuns.CallbacksBalance | robot_protocol.c:182-200 | Whenever the mutex is free, connection minus disconnection callbacks is 1 while connected and 0 otherwise; stop tears down without a callback |
| SessionRuns.RegisteredPortIsThisSessions | robot_protocol.c:170-177 | A connected, registered client's port is positive and of its own session, iff the thread is outside two statements of add_client |
| SessionRuns.StalePortInTheWindow | robot_protocol.c:375-380 | Inside that window a state is reachable in which the newcomer carries the last session's port |
| SessionRuns.TimeoutIsExact | robot_protocol.c:437-456 | On every schedule a client found expired was silent for more than floor(timeout_ms/1000) seconds, and is found expired from a second later on |
| SessionRuns.RemovalAfterSilence | robot_protocol.c:437-456 | On every schedule, from the check to the statement of remove_client that disconnects and for as long as the timeout after the check: the client about to be removed has been silent for longer than the timeout if and only if nobody came and no command was handled since the check |
| SessionRuns.NewcomerTimedOut | robot_protocol.c:448-449 | A reachable run in which a client is removed the moment it connected, for another one's silence |
| SessionRuns.HeardYetTimedOut | robot_protocol.c:448-449 | A reachable run in which a client is removed the moment a command of its own was handled |
| SessionRuns.HeardInsideRemoval | robot_protocol.c:326 | A reachable run in which a silent client's command is handled while remove_client runs, and the client is removed the moment it was heard |
| SessionRuns.TransfersStayHome | robot_protocol.c:285-425 | On every schedule each header was read from the polled client's socket, and each piece of a payload received from and each response sent to the socket its header came from, if and only if no removal was completed in between; otherwise descriptor 0 |
| SessionRuns.HeaderComesAstray | robot_protocol.c:285-287 | A reachable state in which a header was read from descriptor 0 instead of the polled socket |
| SessionRuns.PayloadComesAstray | robot_protocol.c:303-305 | A reachable state in which a piece of the payload was read from descriptor 0 instead of the client's socket |
| SessionRuns.ReplyGoesAstray | robot_protocol.c:413-416 | A reachable state whose last response went to descriptor 0 instead of the client's socket |
| SessionRuns.AddRuns | robot_protocol.c:158-187 | The steps of add_client, uninterrupted, admit the socket with a cleared registration or reject it |
| SessionRuns.RemoveRuns | robot_protocol.c:189-205 | The steps of remove_client, uninterrupted: one callback, one close, a zeroed record, or nothing |
| SessionRuns.IdleRuns | robot_protocol.c:442-456 | The steps of the timeout check, uninterrupted, decide by the comparison and leave the mutex free before any removal |
| SessionRuns.StopRuns | robot_protocol.c:557-563 | The end of stop: one close and a zeroed record without a callback, or nothing |
| SessionTurns.HandledRestartsClock | robot_protocol.c:326 | Every frame that is handled, whatever it asks for, restarts the idle clock |
| SessionTurns.OnlyHeardRestartsClock | robot_protocol.c:170-174 | Nothing else does, but for getting control |
| SessionTurns.HeardIsNotExpired | robot_protocol.c:437-456 | On every schedule, whatever follows a handled frame: no check whose reading is within floor(timeout_ms/1000) seconds of it finds the client expired |
| SessionTurns.AcceptTurn | robot_protocol.c:273-283 | A new socket gets control if nobody has it and is closed otherwise, with nothing else changed |
| SessionTurns.PollTurn | robot_protocol.c:285 | A readable socket is read only while a client is connected, and the socket polled is that client's |
| SessionTurns.FailedSelectTurn | robot_protocol.c:256-268 | A bad descriptor removes the client, another error or stop ends the thread |
| SessionTurns.TurnAgrees | robot_protocol.c:285-430 | Left alone, the interleaved thread removes, registers, restarts the clock and responds exactly as the sequential one does with the same frame, under every policy |
| SessionTurns.TimeoutTurn | robot_protocol.c:437-456 | Left alone, the timeout thread removes a client idle for longer than the timeout and changes nothing otherwise |
| RobotServer.RobotServer.AddClient | robot_protocol.c:158-187 | Control goes to the socket iff nobody has it; the record, the history and the thread end as the interleaved steps say |
| RobotServer.RobotServer.Accept | robot_protocol.c:273-283 | An accepted socket is in control afterwards, or closed |
| RobotServer.RobotServer.RemoveClient | robot_protocol.c:189-205 | One disconnection callback and one close if a client is connected, else nothing; agrees with the interleaved steps |
| RobotServer.RobotServer.CheckIdle | robot_protocol.c:440-456 | The critical section alone decides whether the client is idle for more than the timeout and changes nothing; agrees with the interleaved steps, which remove in a section of its own |
| RobotServer.RobotServer.CheckTimeout | robot_protocol.c:437-456 | If the client is idle for more than the timeout, whoever is connected by the time of the removal is removed; otherwise nothing happens |
| RobotServer.RobotServer.StoreUdpPort | robot_protocol.c:376-380 | The port and the flag are set and nothing else of the record changes |
| RobotServer.RobotServer.Stop | robot_protocol.c:534-564 | The client's socket is closed and its record zeroed without a callback; agrees with the interleaved steps |
| MoveGoal.ValidatorExactness | robot_protocol.c:29-79 | The 32-bit validator decides as unbounded arithmetic would, for all sizes and tolerance words, iff the count is at most 8,259,552 or its size is a multiple of 2^32 |
| MoveGoal.SmallCountsAreExact | robot_protocol.c:29-79 | Up to the bound, acceptance is: count nonzero, tolerances 0 or as many, size at least 16 + 264 traj + 256 tol |
| MoveGoal.BoundIsTight | protocol.h:233-236 | At 8,259,553 with as many tolerances the computed size is 280 |
| MoveGoal.ReceivedExactness | robot_protocol.c:294 | On all payloads of at most 104,016 bytes the validator is exact iff the count is at most 8,259,552 or its wrapped size is 0 or above 104,016 |
| MoveGoal.SmallFrameForManyPoints | robot_protocol.c:47-69 | A payload of 144 bytes is accepted for a count of 16,268,816 points |
| MoveGoal.MiddleCountsAreNot | robot_protocol.c:69-71 | Past the bound a payload that holds the points but not the tolerances passes |
| MoveGoal.AcceptedIsComplete | robot_protocol.c:29-79 | Within the bound, a payload is accepted iff its own counts fit its bytes and the tolerance count is right |
| MoveGoal.DecodeEncode | protocol.h:199-231 | An encoded goal, whatever follows it, decodes to itself through the access macros' offsets |
| MoveGoal.EncodeRoundTrip | robot_protocol.c:29-79 | Any goal within the bound, encoded and with anything appended, is accepted, decodes to itself and has the computed size |
| MoveGoal.AcceptedIsEncoded | robot_protocol.c:29-79 | Conversely every accepted payload within the bound starts with the encoding of the goal it decodes to |
| MoveGoal.CopySize | robot_protocol.c:81-91 | The bytes a deep copy takes: a whole goal's own size, and never more than an accepted payload has |
| MoveGoal.DeepCopy | robot_protocol.c:81-105 | For every readable goal, whole or not: a destination that is too small is left alone; otherwise it starts with exactly the goal's bytes |
| MoveGoal.CopyOfEncoded | robot_protocol.c:81-105 | The copy of an encoded goal with anything appended is its encoding alone, is accepted again, and copying it again changes nothing |
| MoveGoal.CopyOfAccepted | robot_protocol.c:81-105 | The same for every accepted payload: its copy has the exact size and the same meaning, and is its own copy |
| GoalMachine.GroupsAlwaysOk | tests/protocol/mock_robot.c:345-478 | After every run: motion equals trajectory activity; an accepted goal is never pending; an active goal means motion, servo power and a stored payload copy of the recorded size |
| GoalMachine.KeptIsGoal | tests/protocol/mock_robot.c:370-393 | What is stored has the unbounded computed size iff the count is within the validator's bound, and then equals its own encoding |
| GoalMachine.StoredGoalsAreWhole | tests/protocol/mock_robot.c:370-393 | After every run a stored copy is a whole goal iff its own trajectory count is within the bound |
| GoalMachine.StoredCopyNotWhole | tests/protocol/mock_robot.c:370-393 | A run after which, the word past the payload being 0, group 0 is active with a stored copy that is not a whole goal |
| GoalMachine.TerminalUntilAccepted | tests/protocol/mock_robot.c:309-478 | A terminal state is left only by accepting a new goal |
| GoalMachine.FieldWriters | tests/protocol/mock_robot.c:109-478 | Only an accepted goal writes id, stored copy and start, only updates write progress, only a test trajectory sets a resting group moving |
| GoalMachine.LiveGoalKept | tests/protocol/mock_robot.c:358-364 | No command displaces a live goal: its id, stored copy and start stay |
| GoalMachine.IdChangesAfterTheEnd | tests/protocol/mock_robot.c:358-364 | Over whole runs a live goal's group gets another id only after the goal has ended |
| GoalMachine.GoalRefused | tests/protocol/mock_robot.c:345-364 | Without power, for a missing or busy group, or with a bad payload, a goal changes nothing |
| GoalMachine.GoalTaken | tests/protocol/mock_robot.c:380-406 | Any other goal is active at once, with its stored copy, start and no progress |
| GoalMachine.FreshRobot | tests/protocol/mock_robot.c:46-120 | At most five idle groups; nothing moves and no goal is taken before power is switched on |
| GoalMachine.NothingWithoutPower | tests/protocol/mock_robot.c:97-132 | Until power is switched on, on every run nothing moves and no goal is taken; afterwards power stays on |
| GoalMachine.ProgressIsElapsedTime | tests/protocol/mock_robot.c:467-468 | Until it is due, a goal left alone reports the time since its start as of the last update |
| GoalMachine.MotionReportsAgree | tests/protocol/mock_robot.c:298-326 | Stop-all answers what is-in-motion would have; the status byte is nonzero iff it is, bit g iff group g moves; after stop-all or disconnection both report no motion |
| GoalMachine.MaskBits | tests/protocol/mock_robot.c:207-213 | Bit g of the status byte is set iff group g moves |
| GoalMachine.GroupIndependence | tests/protocol/mock_robot.c:309-478 | Each group ends every run as it ends the run of the commands that concern it, if and only if it is the first or no cancel of goal 0 finds it without a goal being accepted by it afterwards |
| GoalMachine.GroupsAreIndependent | tests/protocol/mock_robot.c:309-478 | With one group, or if no command cancels goal 0, no group depends on another's commands |
| GoalMachine.GoalZeroIsShared | tests/protocol/mock_robot.c:19-26 | With two groups a run of three commands, with an encoded one-point goal, in which cancelling goal 0 reaches group 1 |
| GoalMachine.CancelReaches | tests/protocol/mock_robot.c:427-443 | Cancelling a live goal's id stops its group iff no earlier group holds the id |
| GoalMachine.StaleIdShields | tests/protocol/mock_robot.c:427-443 | A run of four commands after which cancelling group 1's live goal changes nothing, because group 0 was stopped in a goal of the same id |
| GoalMachine.GoalIsEchoed | tests/protocol/mock_robot.c:583-606 | A goal accepted by group 0 is echoed as its encoding alone, without what was appended, until another one is accepted |
| GoalMachine.GoalSucceedsWhenDue | tests/protocol/mock_robot.c:460-478 | An accepted goal that is left alone is active and moving until the first update a second after its acceptance, and succeeded at rest from then on |
| GoalMachine.StoppingAborts | tests/protocol/mock_robot.c:309-342 | Stop-all, stop-group and disconnection leave the group at rest and abort exactly a live goal; everything else of the group stays |
| MockRobot.MockRobot.constructor | tests/protocol/mock_robot.c:46-95 | At most five groups, all idle, without servo power |
| MockRobot.MockRobot.TurnServoPowerOn | tests/protocol/mock_robot.c:97-107 | Servo power is on and no group changes |
| MockRobot.MockRobot.StartTrajectory | tests/protocol/mock_robot.c:109-132 | With servo power group 0 is set moving; without it the answer is -1 and nothing changes |
| MockRobot.MockRobot.InMotion | tests/protocol/mock_robot.c:298-307 | Whether some configured group moves |
| MockRobot.MockRobot.MotionStatus | tests/protocol/mock_robot.c:207-213 | The byte whose bit g says that configured group g moves |
| MockRobot.MockRobot.StopMotion | tests/protocol/mock_robot.c:309-326 | Every configured group is stopped, its live goal aborted; the answer says whether there was anything to stop |
| MockRobot.MockRobot.StopGroup | tests/protocol/mock_robot.c:328-342 | One group is stopped; an index out of range changes nothing and is answered with 0 |
| MockRobot.MockRobot.AcceptGoal | tests/protocol/mock_robot.c:345-425 | A sound goal for an existing, free group with servo power is stored and started under the drawn id; otherwise -1 and no change |
| MockRobot.MockRobot.FindGroupWithGoal | tests/protocol/mock_robot.c:19-26 | The first configured group that holds the id, if any |
| MockRobot.MockRobot.CancelGoal | tests/protocol/mock_robot.c:427-443 | The first group with the id is cancelled and stopped if its goal is not terminal; otherwise -1 and no change |
| MockRobot.MockRobot.UpdateGoalProgress | tests/protocol/mock_robot.c:460-478 | Progress in thousandths of the milliseconds elapsed by each group's own clock reading; goals that reach 1 succeed and stop |
| MockRobot.MockRobot.EchoTrajectory | tests/protocol/mock_robot.c:277-290 | The stored copy of a configured group, if it has one |
| MockRobot.MockRobot.OnDisconnection | tests/protocol/mock_robot.c:488-495 | Everything is stopped as by stop-all |
| MockRobot.MockRobot.HandleMoveGoal | tests/protocol/mock_robot.c:560-582 | The goal is accepted and confirmed with its id and point count, or refused without a change |
| MockRobot.MockRobot.HandleEcho | tests/protocol/mock_robot.c:583-607 | A whole stored copy is echoed exactly |
| MockRobot.MockRobot.HandleStop | tests/protocol/mock_robot.c:644-658 | Group -1 stops every group, any other one; the reply says whether there was something to stop |
| MockRobot.EffectOf | tests/protocol/mock_robot.c:525-671 | Which message, by its number and payload bytes, has which effect, and that no other has any |
| MockRobot.StatusFields | tests/protocol/mock_robot.c:445-457 | The goal status by its byte offsets, with the number of each state |
| MockRobot.ReplyBytes | tests/protocol/mock_robot.c:525-716 | A confirmation has kind 5 and no payload, a refusal kind 6 and a signed code, a truth value is one byte |
| MockRobot.CheckGroupIsExact | tests/protocol/mock_robot.c:692-707 | The reply says whether the group exists if and only if the index is not negative; a negative one is confirmed |
| MockRobot.NegativeGroupConfirmed | tests/protocol/mock_robot.c:706 | Group -5 is confirmed |
| MockRobot.MockRobot.HandleCommand | tests/protocol/mock_robot.c:521-716 | Each message's command is applied, and each kind of message has the reply that the state says, with every wrong payload length and unknown type refused |
| ControlledRobot.NobodyMeansRest | robot_protocol.c:189-205 | On every schedule, while nobody is connected and stop closed nobody, nothing moves and no goal is live, unless since the last disconnection callback a command that starts motion was handled outside any session |
| ControlledRobot.NobodyMeansRestExactly | robot_protocol.c:326-425 | On every schedule, stop included, the robot is at rest in every state outside a session if and only if no command that starts motion is handled outside a session and stop disconnects no client while the robot moves |
| ControlledRobot.OnlyStartingMoves | tests/protocol/mock_robot.c:521-716 | Of a robot at rest, exactly a test trajectory with servo power and an accepted goal make a moving one |
| ControlledRobot.CommandReaches | robot_protocol.c:326-430 | Whatever command a handled frame carries is applied to the robot, whether or not the client is still there |
| ControlledRobot.NothingElseReaches | robot_protocol.c:189-205 | Besides handled frames only the disconnection callback and progress updates change the robot |
| ControlledRobot.UpdateReaches | tests/protocol/mock_robot.c:460-478 | An update ends just the active goals that are due, and the connection does not notice |
| ControlledRobot.NobodyMeansRestInTurns | tests/protocol/mock_robot.c:488-495 | With frame handling as one step, wherever the other threads are: the robot is at rest in every state outside a session if and only if no starting command is served while remove_client is between its callback and clearing `connected`, and stop disconnects no client while the robot moves |
| ControlledRobotRuns.LateCommandMoves | robot_protocol.c:285-326 | A reachable state: the server runs, nobody is connected, and the robot moves because of a late command |
| ControlledRobotRuns.FrameDuringRemovalMoves | robot_protocol.c:195-200 | The same reached with frames handled in one step, by one served inside remove_client |
| ControlledRobotRuns.StopLeavesItMoving | robot_protocol.c:557-563 | A reachable state: stop has returned and the robot still moves |
| FaultInject.FaultInject.constructor | tests/protocol/fault_inject.c:9-12 | No rules, no history |
| FaultInject.FaultInject.AddRule | tests/protocol/fault_inject.c:14-24 | The first unused slot gets the rule, counting from now on, and -1 iff there is none |
| FaultInject.FaultInject.Reset | tests/protocol/fault_inject.c:26-30 | No rules, no history |
| FaultInject.FaultInject.Evaluate | tests/protocol/fault_inject.c:38-69 | Whether one rule answers the message, with its counter and flag; no other rule changes |
| FaultInject.FaultInject.Check | tests/protocol/fault_inject.c:32-76 | For every table and history shorter than 2^32: the answer is the history's first match, and counters and flags stay what the history says |
| FaultInject.FirstMatch | tests/protocol/fault_inject.c:36-74 | The first rule that fires on the history, or none |
| FaultInject.OnlyRuleAnswers | tests/protocol/fault_inject.c:47-69 | One rule answers each message that reaches its threshold, counted on the messages alone, and a one-shot rule only the first |
| FaultInject.LowerSlotWins | tests/protocol/fault_inject.c:36-74 | Of two rules that fire on a message the one in the later slot never answers |
| FaultInject.AddedLater | tests/protocol/fault_inject.c:14-24 | Adding a rule changes nothing in the account of the messages before it |
| FaultInject.OneShotFiresOnce | tests/protocol/fault_inject.c:42-69 | A one-shot rule answers at most one message of any history |
| FaultInject.FaultsUseUpRules | tests/protocol/fault_inject.c:36-74 | If every slot is unused or holds a one-shot rule, the number of faults is the number of rules used up |
| FaultInject.OneShotTableIsBounded | tests/protocol/fault_inject.c:36-74 | A table whose slots are unused or hold one-shot rules yields at most as many faults as it has rules, so at most 8 |

## Left out

Assumptions and modelling decisions:

- Memory ordering: steps are sequentially consistent. Each space computation is one atomic step, although the code
  loads `head` or `tail` twice in it; `ring_buffer_write_inner` is taken to read `head` once for the copy.
- Wire.ByteOrder: the protocol uses the host's byte order; the host is taken to be little-endian.
- Framing.Connection.ReadHeader: the destination at `robot_protocol.c:212` is taken as a byte offset, as lines 227-229
  compute it, and not as the scaled pointer that is written there.
- Framing.Connection.Receive: recv with MSG_WAITALL may return fewer bytes than asked for, like any other.
- Session.GoodStep: sockets are numbered by acceptance, so the reuse of descriptors is not modelled; reading a frame
  takes a step for its header and one for each piece of its payload; writing `last_command` and handling it is one more,
  sending the response another; both callbacks are configured.
- RobotServer.RobotServer.CheckTimeout: the record that the other threads leave in the gap between check and removal is
  an input; which records they can leave is in the step system.
- FrameStream.ClosedPeer: errno is changed by a failing recv and by no other call.
- Dispatch.ClientThread.ServeClient: allocations succeed, sends are complete, and the callbacks are functions of how
  many messages were handled before, the header and the payload.
- MoveGoal.DeepCopy: the bytes that it copies can be read.
- MockRobot.MockRobot.AcceptGoal: the id is the first nonzero value drawn; that the drawing loop ends is not modelled.
  Progress is a real number. Groups are values in an array that is updated in place.
- MockRobot.MockRobot.HandleCommand: the capabilities are an input, as is the echo of a stored copy that is not whole,
  which reads past the copy's end. Time stamps, the layout of a double and the bytes that the goal status leaves
  unset are inputs. Heartbeat time, motion mode and error records are not kept.
- GoalMachine.KeptIsGoal: a word read past a payload's end is an input, called `beyond`.
- FaultInject.FaultInject.Check: nothing is stated once 2^32 messages have been checked and counters have wrapped.

Not modelled:

- Socket setup, bind, listen, select, byte order, thread creation and `robot_protocol_start`: foreign calls.
- The UDP status messages, `logging/src/logging.c` and `logging/src/udp_broadcast.c`.
- `ring_buffer_destroy`, null-pointer guards and failing allocations.
- `fault_inject_execute`: it sleeps or shuts a socket down.
- `mock_robot_move_goal`, which no message reaches; error messages, capabilities, axis positions and
  their decay.
