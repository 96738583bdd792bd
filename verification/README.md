# What the home automation network keeps

A Dafny model of the stateful core of the repository, with proofs about whole runs. The source is C; what it changes
in place is changed in place here too (classes, arrays, loops), and what several threads or devices do to each other is
a state machine over their steps.

The model does what the code does. Where the code falls short of what its comments or its own other branches intend, the
code is kept and the theorem says exactly when the intended property holds. These places are listed under
"Where the code and its intent part".

## The modules

- `RwLock`, `LockProgress`: the reader/writer lock of `queue/rdwr.c`, one atomic step of one thread at a time, over a
  mutex and a condition variable as IEEE Std 1003.1-2017 describes them (System Interfaces, `pthread_cond_signal`,
  `pthread_cond_wait`): a signal wakes at least one sleeper, a sleeper may wake unprompted.
- `ListMemory`, `OutputList`: the sorted list of `queue/ollist_threads_rw.c` on an explicit heap, where a freed node
  is really gone. Every operation is proved against the map the list stands for.
- `SharedList`, `Linearizability`: any number of threads on that list under that lock, traversals one node per step.
  `SharedReads`: what that means for each find and toggle, told by the inserts and toggles before it. `SharedProgress`: finds run side
  by side, and nobody is ever stuck.
- `EspNow`, `Election`, `ElectionRuns`: the ESP-NOW pairing as two devices and a radio that loses, duplicates and reorders
  frames and loses send callbacks. `EspFrame`: the bytes of its frames.
- `Framing`, `Relay`, `EndToEnd`: the TCP framing, the queue record between two threads of a client, and the way of a message
  from the client that sends it to the client that acts on it. `Endpoints`: the two ends of a link as they are coded.
  `ListenThread`: the server's threads as they are coded. `SocketWrites`: several threads writing frames to shared sockets, one send
  at a time. `LiveRelay`: the end-to-end theorem over those sends, with the timer and a changing table.
- `ClientTable`, `TableRuns`: the server's table of clients, its invariant over every run, routing and heartbeat.
- `Bus`, `Outputs`: the register window, the ports behind it, and the agreement between the list of outputs and the ports.
  `BusThreads`: several threads of several processes on the three ports.
- `Wrappers`, `Bytes`: small types.

`dafny verify dfyconfig.toml` checks everything.

## What the main results assume

- End to end (`EndToEnd`, `LiveRelay`): bodies are at most 48 bytes, no message asks the server to disconnect anybody, and nobody is
  logged off meanwhile. The server writes a frame with several sends and no lock around them (server/thread_server.c:839-856,
  939-945). So the theorem speaks of runs in which no two threads are in the middle of frames to the same client;
  `SocketWrites.StreamsWholeIff` shows that nothing but the choice of sockets can guarantee that, and since every thread may write to
  every client, the server does not. `EndToEnd.EndToEnd` is the step with whole turns that `LiveRelay` reduces to.
- Output coherence (`Outputs`): these are theorems about `set_output`. Its only call stands in an `#if 0` block (tasks.c:493-517); the
  tasks that are compiled call `change_output` and leave the list alone, so there only `Outputs.LastCommandWins` applies.

## Where the code and its intent part

- Removing the head of the list leaves `first` pointing at freed memory: `OutputList.OutputList.Remove` says that there is a list
  afterwards exactly when it was not the head (queue/ollist_threads_rw.c:96-103).
- The ESP-NOW payload loop writes 10 bytes behind the frame: `EspFrame.Sender.Prepare` shows them
  (esp-idf/espnow/espnow_example_main.c:167-168).
- The election compares with `>=`: with equal magic numbers both devices can win, and only then
  (`ElectionRuns.BothCanWinIffEqual`). The comment says "bigger" (esp-idf/espnow/espnow_example_main.c:280-285).
- A configured count of 0 means 65536 frames, because it is decremented before it is tested (`Election.UnicastConservation`).
- A reused slot keeps the `dirty_flag`, the name and the time stamp of its last client (`TableRuns.NewClientSurvivesIffClear`,
  `TableRuns.SilenceDoomsNext`; server/thread_server.c:286-321).
- Logging a client off lowers `no_threads` without closing the gap: the last client can no longer be reached and loses its slot to
  the next connection (`TableRuns.LogoffKeepsCompactIffLast`, `TableRuns.LogoffStrandsLast`; server/thread_server.c:785-789).
- The status handler compares names with a buffer that it has meanwhile appended text to, so an answer reaches only the slots up to
  the first stamped bearer of the name (`TableRuns.AnswerClearsIff`). A client that was logged off once and returned stands behind
  its own old slot and is never heard again (`TableRuns.ReturningClientIsShadowed`, `TableRuns.ShadowedNeverHeard`;
  server/thread_server.c:479-508).
- The thread of a client that was logged off goes on and reads from slot 0 (`ListenThread.ThreadServes`; server/thread_server.c:373-378).
- The Linux client takes the length of its status reply from the buffer of the request, not from its name
  (`Endpoints.LinuxReplyIdentifiesIff`; client/thread_client.c:148-155). The ESP client does it right.
- `real_banks` is filled for twenty outputs only, so outputs 20 to 39 all drive the bit of output 0
  (`Outputs.SharesBitIff`; cmd_tasks.c:178-256).
- `olLoadConfig` inserts record i under i with whatever port the file holds, while `set_output` inserts under the port: list and ports
  stay in agreement exactly when the list is steady (`Outputs.OutputsStayCoherent`), and two records with one port are not
  (`Outputs.StrayPortFails`; cs_client/config_file.c:60-61).
- Two threads that send to one client at the same time tear both frames (`SocketWrites.FrameTorn`, `SocketWrites.TornIsLost`).
- Commands 50, 51, 60 and 61 end `get_host_cmd_task`: what is queued behind them is never dispatched (`EndToEnd.UpToEndExact`;
  cmd_tasks.c:428-435).
- `winpeek8` gives the bus back before it reads (`Bus.Nbus.WinPeek8`; client/nbus.c:238-239); the port writes are safe because they
  hold the bus around it (`Bus.Nbus.OutPort`).
- `nbuslocked` belongs to a process, the semaphore to the machine: a second thread of a process walks past the lock, and port updates
  are safe exactly when no process has two threads on the bus (`BusThreads.UpdatesSafeIff`; client/nbus.c:274, client/nbus.c:298).
- `get_dest` reads the table before it tests the index; its result does not depend on what it finds there
  (`ClientTable.Server.GetDest`; server/thread_server.c:51).

## Model

| member | source | states |
|---|---|---|
| RwLock.StepKeepsInv | queue/rdwr.c:25-76 | every step of every thread keeps the mutex exclusive, the counters exact and every sleep justified |
| RwLock.MutualExclusion | queue/rdwr.c:25-76 | in every reachable state, with any number of threads, the counters equal the numbers of readers and writers inside, a writer excludes everybody, and the mutex has one owner |
| RwLock.ReadersSleepOnWriters | queue/rdwr.c:25-33 | a reader sleeps only while a writer writes, or while that writer is about to broadcast |
| RwLock.NoLostWakeup | queue/rdwr.c:35-76 | with mutex and lock free and somebody asleep, another thread is already awake and will test again: signal for the last reader and broadcast for the writer lose nobody |
| RwLock.LastReaderSignalsOnlyWriters | queue/rdwr.c:43-46 | why one signal is enough: whoever sleeps when the last reader leaves is a writer |
| RwLock.UnlockNeverRefused | queue/rdwr.c:35-76 | the -1 branches of the unlock functions are never taken by a thread that took the lock |
| RwLock.TwoHolders | queue/rdwr.c:25-76 | exact counters leave only readers to hold the lock together |
| LockProgress.NoDeadlock | queue/rdwr.c:25-76 | while any thread is inside a call or holds the lock, some thread can step, without a new call or a spurious wake-up |
| LockProgress.StepLowersRank | queue/rdwr.c:25-76 | every step but a new call or a spurious wake-up lowers a rank, even the broadcast that wakes everybody |
| LockProgress.EveryCallCompletes | queue/rdwr.c:25-76 | under every schedule a run without new calls is bounded, and when it cannot go on every thread has returned |
| ListMemory.EarlyExit | queue/ollist_threads_rw.c:146-155 | stopping at the first larger index never misses a key |
| ListMemory.Acyclic | queue/ollist_threads_rw.c:36-84 | a strictly increasing list visits no node twice |
| ListMemory.PathUnique | queue/ollist_threads_rw.c:36-84 | memory and first node determine the list, so the ghost path of the model adds no freedom |
| ListMemory.StoreNode | queue/ollist_threads_rw.c:59-64 | overwriting the record of one node is one map update, and the list stays well formed |
| ListMemory.LinkNode | queue/ollist_threads_rw.c:69-81 | linking a node between smaller and larger indices is one map update, and the list stays sorted, acyclic and ended |
| ListMemory.UnlinkNode | queue/ollist_threads_rw.c:96-109 | unlinking and freeing a node behind the head is one map removal |
| OutputList.OutputList.Search | queue/ollist_threads_rw.c:56-67 | the traversal stops at the index, the first larger one or the end, and tells whether the map has the key |
| OutputList.OutputList.Insert | queue/ollist_threads_rw.c:36-84 | insert is map update; a node is made exactly when the key is new |
| OutputList.OutputList.Find | queue/ollist_threads_rw.c:135-162 | find is map lookup |
| OutputList.OutputList.Toggle | queue/ollist_threads_rw.c:226-256 | toggle makes the one record's `onoff` 0 if it was 1 and 1 otherwise, returns that, and changes nothing else; on a miss nothing at all |
| OutputList.OutputList.Remove | queue/ollist_threads_rw.c:87-112 | remove is map removal if and only if the key is not the head's; otherwise `first` dangles and no list is left |
| OutputList.OutputList.FindOp | queue/ollist_threads_rw.c:198-223 | of the outputs on the port that an input other than 0x41 feeds, the one with the smallest index is reported; failure hands out the last record of the list |
| OutputList.FedAt | queue/ollist_threads_rw.c:204-218 | the first match on the way is the match with the smallest index in the map |
| OutputList.NoneFed | queue/ollist_threads_rw.c:204-223 | a walk to the end without a match means that the map has none |
| Linearizability.StepKeepsAll | queue/ollist_threads_rw.c:36-84 | every step of every thread keeps the list well formed, every cursor on it, the log legal, and the list equal to the replayed log |
| Linearizability.CursorInside | queue/ollist_threads_rw.c:56-67 | whatever other threads do, a traversal's cursor is at a position of the well-formed list, everything before it smaller |
| Linearizability.Linearizable | queue/ollist_threads_rw.c:36-84 | in every run of any number of threads the results are those of one sequential map, the list stands for that map, and no thread ever reads freed memory |
| Linearizability.EachCallOnce | queue/ollist_threads_rw.c:135-162 | every call takes effect exactly once, in its thread's order, and returns the logged result |
| Linearizability.TakesEffectInside | queue/ollist_threads_rw.c:226-256 | an operation takes effect between its call and its return, inside its protected section |
| Linearizability.RealTimeOrder | queue/ollist_threads_rw.c:36-84 | what has returned comes in the log before what is called later |
| SharedReads.ReadsLastWrite | queue/ollist_threads_rw.c:36-256 | in every run a find returns the data of the last insert of its index, with `onoff` flipped modulo 2 as often as the index was toggled since; a toggle returns, as 0 or 1, the state it leaves |
| SharedReads.ReadsNothing | queue/ollist_threads_rw.c:135-162 | before the first insert of an index there is nothing to find or toggle |
| SharedReads.TogglesReturnBits | queue/ollist_threads_rw.c:235-253 | every toggle that found its index returned 0 or 1 |
| SharedReads.ToggledTwice | queue/ollist_threads_rw.c:241-245 | two toggles of a 0/1 record with no other write between give the record back, one gives the opposite |
| SharedProgress.FindsShare | queue/ollist_threads_rw.c:135-145 | a find that tests the lock is let in whenever no thread is in an insert or a toggle, however many finds are inside |
| SharedProgress.WritersAlone | queue/rdwr.c:52-61 | an insert or a toggle is let in exactly when nobody has the lock |
| SharedProgress.NeverStuck | queue/ollist_threads_rw.c:36-256 | while any insert, find or toggle is in progress, some thread can step, without a new call or a spurious wake-up |
| Election.StepKeepsInv | esp-idf/espnow/espnow_example_main.c:196-321 | every event keeps the invariant over both devices and every frame in the air: among others, state 1 in a frame implies state 1 of its sender |
| Election.ElectionSafety | esp-idf/espnow/espnow_example_main.c:280-300 | with distinct magic numbers never both devices are in unicast mode, and only the larger one ever gets there |
| Election.MutualKnowledge | esp-idf/espnow/espnow_example_main.c:244-301 | when a device starts unicast the other has heard a genuine broadcast of it, and each has the other as a peer |
| Election.UnicastConservation | esp-idf/espnow/espnow_example_main.c:209-235 | frames sent plus callbacks to come equal the planned number plus the outstanding send, of which there is at most one; a task that ended by "Send done" sent exactly the planned number |
| Election.UnicastCallbackProgress | esp-idf/espnow/espnow_example_main.c:209-235 | every handled unicast callback brings the end nearer by one |
| Election.PhasesOnlyForward | esp-idf/espnow/espnow_example_main.c:190-311 | unicast excludes broadcast, broadcast once left never returns and no broadcast reaches the radio again, at most one broadcast send is outstanding |
| Election.BroadcastEndsIff | esp-idf/espnow/espnow_example_main.c:297-311 | a device has left broadcast mode if and only if it has gone unicast itself or has received a unicast frame |
| Election.UnicastSilencesReceiver | esp-idf/espnow/espnow_example_main.c:304-311 | after a received unicast frame the receiver hands no further broadcast frame to the radio, whatever follows |
| Election.BroadcastReceived | esp-idf/espnow/espnow_example_main.c:244-303 | exactly when a received broadcast makes the sender a peer, sets the state, starts unicast or ends the task |
| Election.FirstSend | esp-idf/espnow/espnow_example_main.c:188-194 | the first send leaves one broadcast outstanding, or ends the task |
| Election.BroadcastCallback | esp-idf/espnow/espnow_example_main.c:199-236 | in broadcast mode the next broadcast follows and says whether the other was heard by now; out of it nothing is sent |
| Election.UnicastCallback | esp-idf/espnow/espnow_example_main.c:209-236 | the task is done exactly when as many frames were sent as configured, or 65536 for a count of 0; until then the next one goes to the same device |
| ElectionRuns.Handshake | esp-idf/espnow/espnow_example_main.c:188-273 | from the initial state some run makes both devices hear and answer each other |
| ElectionRuns.CanFinish | esp-idf/espnow/espnow_example_main.c:209-235 | whenever a unicast send is outstanding, some run ends the task by "Send done" |
| ElectionRuns.ElectionCanComplete | esp-idf/espnow/espnow_example_main.c:175-322 | some run lets a device whose magic number is not smaller win and send exactly the planned number of frames |
| ElectionRuns.LoserFallsSilent | esp-idf/espnow/espnow_example_main.c:304-311 | some run brings the winner into unicast mode and the other one out of broadcast mode |
| ElectionRuns.BothCanWinIffEqual | esp-idf/espnow/espnow_example_main.c:285-299 | both devices can end up in unicast mode if and only if their magic numbers are equal |
| EspFrame.FrameRoundTrip | esp-idf/espnow/espnow_example_main.c:124-173 | parsing a prepared frame gives back its fields, for every payload and every checksum function |
| EspFrame.SealedBytes | esp-idf/espnow/espnow_example_main.c:160-171 | every byte of a prepared frame in numbers: the packed little-endian fields, and a checksum over the whole frame with its own field zero |
| EspFrame.ShiftCycles | esp-idf/espnow/espnow_example_main.c:169-170 | the counter behind the payload runs from 30 down to 2 and round again |
| EspFrame.AcceptedIsSealed | esp-idf/espnow/espnow_example_main.c:124-149 | the parser accepts nothing but frames that preparing their own fields and payload would give |
| EspFrame.Sender.Prepare | esp-idf/espnow/espnow_example_main.c:152-173 | the buffer holds the sealed frame, then 10 bytes of payload pattern too many, then what it held before; one sequence number moves |
| EspFrame.Parse | esp-idf/espnow/espnow_example_main.c:124-149 | the verdict on the bytes given, and the checksum field cleared whatever the verdict |
| EspFrame.SecondParse | esp-idf/espnow/espnow_example_main.c:140-148 | the same buffer passes twice exactly when its checksum is zero |
| EspFrame.PrepareAll | esp-idf/espnow/espnow_example_main.c:152-173 | in any sequence of frames prepared by a new sender, the n-th of each type carries n modulo 65536, read from its own bytes, however the types alternate |
| EspFrame.NumbersCountFrames | esp-idf/espnow/espnow_example_main.c:160-162 | the counter of each type, moved as each frame moves it, is the number of earlier frames of the type modulo 65536 |
| Framing.WireLengthDecodes | client/thread_client.c:476-498 | the two nibbles decode to the length modulo 256 |
| Framing.WireLengthExact | client/thread_client.c:476-498 | the length field of a frame is exact if and only if the length is below 256 |
| Framing.RecordLengthDecodes | client/thread_client.c:163-164 | the two overlapping bytes decode, by or, to the length modulo 4096 |
| Framing.RecordLengthExact | cmd_tasks.c:335-336 | the length field of a queue record is exact if and only if the length is below 4096 |
| Framing.FrameBytes | client/thread_client.c:485-512 | every byte of a frame in numbers |
| Framing.FrameRoundTrip | server/thread_server.c:800-856 | a frame is read back, whatever follows it, if and only if its body is shorter than 256 bytes |
| Framing.StreamRoundTrip | client/thread_client.c:452-512 | reading the concatenated frames gives back exactly the messages and consumes every byte, for both head layouts |
| Relay.RecordRoundTrip | client/thread_client.c:158-175 | a command put into a queue record is taken out unchanged, and every byte of the record in numbers |
| EndToEnd.DeliveryExact | server/thread_server.c:562-573 | an ordinary command of a live client above slot 0 is sent to the first live slot of its destination, and nowhere else, if that slot lies below `no_threads`; otherwise nowhere |
| EndToEnd.CompactDelivery | server/thread_server.c:562-573 | in a table without gaps it is delivered if and only if some live client has the destination |
| EndToEnd.ConnectedIsServed | server/thread_server.c:286-321 | a client that has just connected, the only one for its destination, gets exactly what is sent there |
| EndToEnd.KeptIsNotPassedOn | server/thread_server.c:432-561 | what the server handles itself, what has no known command, and what slot 0 sends is passed on to nobody |
| EndToEnd.LeftExact | server/thread_server.c:411-415 | every turn of a connected client's thread takes its next message: what is left are exactly the messages beyond its turns |
| EndToEnd.ListenTakesFirst | server/thread_server.c:411-573 | one turn of the server's thread, written in one go, takes exactly the sender's first message and sends it to its slot and to no other |
| EndToEnd.ServeRelays | server/thread_server.c:411-573 | under every schedule of whole turns each client is sent the frames of exactly the messages routed to it and the timer's questions, in the order of the turns |
| EndToEnd.DispatchExact | cmd_tasks.c:323-435 | queue and dispatcher hand on every command and body unchanged and in order, up to the first that ends the task |
| EndToEnd.UpToEndExact | cmd_tasks.c:428-435 | all commands are dispatched if and only if none that ends the task stands before the last; otherwise exactly those up to it |
| EndToEnd.TakenInOrder | server/thread_server.c:411-415 | what was taken from a sender followed by what still waits is what it sent: nothing lost, doubled or reordered |
| EndToEnd.EndToEnd | server/thread_server.c:562-573 | for all messages, senders and schedules of whole turns the receiver reads whole frames to the last byte and dispatches the arrivals up to the first that ends its task; the arrivals are, sender by sender, exactly the messages meant for it by their numbers and the table (`Meant`), in order and unchanged |
| Endpoints.Socket.SendMsg | client/thread_client.c:485-512 | the byte-by-byte sends append exactly one frame |
| Endpoints.Socket.GetFrame | client/thread_client.c:452-482 | the reads take exactly one frame, or eight bytes that are no preamble, or nothing |
| Endpoints.Client.ListenOnce | client/thread_client.c:118-176 | one frame in: a record in the queue, a status reply or the end, and never two of these |
| Endpoints.Client.Listen | client/thread_client.c:112-176 | the loop over whatever has arrived puts into the queue exactly the records that the end-to-end theorem speaks of |
| Endpoints.HostTask.TakeAll | cmd_tasks.c:313-435 | the task takes out of the records exactly the commands that the end-to-end theorem speaks of, and has returned if and only if one of the records ends it |
| Endpoints.LinuxReplyIdentifiesIff | client/thread_client.c:148-155 | the reply identifies the client if and only if its name is no longer than the string in the request's buffer |
| Endpoints.ShortNamesAreSafe | client/thread_client.c:139-157 | names no longer than command byte and request text always identify, whatever the buffer held |
| Endpoints.EspClient.ReadOnce | esp-idf/tcp_client.c:119-162 | a status request is answered with the whole name, whatever the buffer held; other frames with nothing |
| Endpoints.EspReplyIdentifies | esp-idf/tcp_client.c:152-157 | that answer, read back by the server, always bears the name |
| ListenThread.Hub.ListenOnce | server/thread_server.c:370-577 | one turn of the thread over every command: the new table, what each client is sent, and that nobody else's input is touched; from a slot without a connection nothing is read |
| ListenThread.Hub.AskOnce | server/thread_server.c:684-706 | the timer's visit: the table's miss or logoff, and a question to exactly the client that has not missed one |
| ListenThread.Hub.Dispatch | server/thread_server.c:432-577 | the branches over the command have the effect on table and sockets that the message calls for |
| ListenThread.Hub.DisconnectAll | server/thread_server.c:523-541 | every polled client is told and its slot cleared; `no_threads` stays |
| ListenThread.Hub.SlotOf | server/thread_server.c:373-378 | the last slot with the thread's socket, or slot 0 |
| ListenThread.ThreadServes | server/thread_server.c:373-378 | a thread serves its client's slot while the client is connected, and slot 0 once it is logged off |
| ListenThread.TurnIsEvent | server/thread_server.c:456-554 | what each command number does to the table, as one of the events that the theorems over all runs speak of, or nothing |
| ListenThread.NameInExact | server/thread_server.c:455-462 | the name in a body is its text up to the first zero |
| ListenThread.PassedOnExact | server/thread_server.c:562-573 | the coded thread passes an ordinary command on to exactly the first live slot of its destination below `no_threads`, unchanged |
| ListenThread.DisconnectsTold | server/thread_server.c:523-554 | a disconnect is told to exactly the slots it closes; the other commands the server handles are told to nobody |
| ListenThread.AskedIffKept | server/thread_server.c:684-706 | the timer asks, with command 58, exactly the client it visits and does not log off |
| ListenThread.RoutesStay | server/thread_server.c:456-517 | no message but a disconnect changes where any other message goes |
| ListenThread.SentOnlyToLive | server/thread_server.c:523-573 | in a sound table nothing is ever sent to a dead slot |
| SocketWrites.PushKeepsWhole | server/thread_server.c:839-856 | a send on a socket where no other thread is in the middle of a frame leaves every socket with whole frames and at most one frame's beginning |
| SocketWrites.FrameTorn | server/thread_server.c:839-856 | two threads that may write to one client have a schedule in which both preambles come first |
| SocketWrites.TornIsLost | client/thread_client.c:452-482 | the reader of such a stream takes the second preamble for a length and never gets either command |
| SocketWrites.StreamsWholeIff | server/thread_server.c:935-950 | every socket carries whole frames under every schedule if and only if no two threads ever write to the same one |
| LiveRelay.StepKeepsInv | server/thread_server.c:370-577 | every read, visit and single send of an orderly run keeps the bytes and the table in step with whole turns over the first table |
| LiveRelay.TurnsRelay | server/thread_server.c:370-577 | so does every orderly run of the listen threads and the timer |
| LiveRelay.EndToEndWhileChanging | server/thread_server.c:839-856 | the end-to-end theorem over single sends, while clients name themselves, the timer asks and they answer: whenever nobody is in the middle of a frame to a client, what it was sent is right |
| LiveRelay.SomeRunDeliversAll | server/thread_server.c:370-577 | whatever the clients sent, such a run exists that reads all of it from every connected slot and writes every frame to its end |
| LiveRelay.TakeStarts | server/thread_server.c:562-573 | a thread that reads an ordinary command starts writing it to exactly the first live slot of its destination below `no_threads` |
| LiveRelay.VisitAsks | server/thread_server.c:684-706 | a visit makes the timer start asking exactly a client that it keeps |
| ClientTable.Server.constructor | server/thread_server.c:133-141 | the initial table is sound and empty |
| ClientTable.Server.GetDest | server/thread_server.c:48-54 | the bound by `highest_sock` never ends the search early: the result is the first slot with the destination, whatever lies behind the table |
| ClientTable.Server.Accept | server/thread_server.c:286-321 | the slot at `no_threads` gets the socket and, for a known address, the destination; it keeps the rest of what the last client left there; no other slot changes, and the table stays sound |
| ClientTable.Server.Logoff | server/thread_server.c:773-791 | exactly the live slots of that name are closed, `no_threads` drops by their number, the table stays sound |
| ClientTable.Server.Visit | server/thread_server.c:684-708 | a visit counts one miss and logs off, by name, at the second |
| ClientTable.Server.UpdateStatus | server/thread_server.c:479-516 | the slots an answer clears, with the comparison text that grows on the way |
| TableRuns.RunKeepsSound | server/thread_server.c:286-554 | every run of connections, visits, answers, names, logoffs and disconnects keeps the table sound |
| TableRuns.RoutingSound | server/thread_server.c:48-54 | in every reachable state `get_dest` finds the first live slot of a destination and MAX_THREADS exactly when there is none; sockets are bounded, `no_threads` never below the live slots |
| TableRuns.ConnectRegisters | server/thread_server.c:286-321 | a connecting client is registered under its socket and its destination, and no other slot changes |
| TableRuns.ConnectedIsFound | server/thread_server.c:286-321 | in a table without gaps the only client for a destination is found under it and can be reached as soon as it has connected |
| TableRuns.SurplusMoves | server/thread_server.c:286-554 | only a connection onto a live slot and a disconnect of all change how far `no_threads` is ahead of the live slots |
| TableRuns.CountsExactly | server/thread_server.c:286-554 | in runs without these two `no_threads` is exactly the number of live slots |
| TableRuns.DisconnectExact | server/thread_server.c:542-554 | a disconnect closes, clears and counts off exactly the first live slot of its destination below `no_threads` |
| TableRuns.DisconnectAllExact | server/thread_server.c:523-541 | a disconnect of all clears exactly the live slots below `no_threads` |
| TableRuns.LogoffExact | server/thread_server.c:773-791 | a logoff closes exactly the live slots of the name and keeps name, flag and stamp |
| TableRuns.CompactReachesAll | server/thread_server.c:562-573 | in a table without gaps every live client can be reached |
| TableRuns.AcceptKeepsCompact | server/thread_server.c:286-321 | in a table without gaps a connection overwrites nobody and leaves no gap |
| TableRuns.LogoffKeepsCompactIffLast | server/thread_server.c:773-791 | logging a name off leaves no gap if and only if the live slots of that name, however many, were the last ones in use |
| TableRuns.LogoffStrandsLast | server/thread_server.c:773-791 | otherwise the client in the last slot, if the only one for its destination, stays connected and becomes unreachable, its slot the next to be given away |
| TableRuns.AnswerMisses | server/thread_server.c:479-508 | an answer leaves every slot alone whose name does not begin with the answering name |
| TableRuns.AnswerClearsIff | server/thread_server.c:479-508 | an answer clears a slot of its name if and only if no stamped slot of that name stands before it |
| TableRuns.HeartbeatExact | server/thread_server.c:684-708 | over all interleavings that leave the slot alone, flag and logoff are exactly the visits since the last answer |
| TableRuns.LoggedOffIffSilent | server/thread_server.c:684-708 | a client that starts with a clear flag is logged off if and only if two visits passed without an answer in between |
| TableRuns.GoneIffMissedTwice | server/thread_server.c:684-708 | the counting of visits and answers equals the plain description: two visits with no answer in between, anywhere in the run |
| TableRuns.NewClientSurvivesIffClear | server/thread_server.c:286-321 | a new client survives its first visit if and only if its slot's old flag was clear |
| TableRuns.SilenceDoomsNext | server/thread_server.c:286-321 | whoever takes the slot of a client logged off for silence is logged off at the first visit, unless an answer comes before it |
| TableRuns.ReturningClientIsShadowed | server/thread_server.c:773-791 | a client that had answered, was logged off from any slot but the last and returns under its name takes a connected client's slot and is shadowed by its own old one |
| TableRuns.ShadowedNeverHeard | server/thread_server.c:479-508 | a shadowed client is logged off at its second visit however often it answers |
| Bus.WindowRecombines | client/nbus.c:218-228 | the split address recombines to its lower 27 bits, so to itself if and only if it is below 2^27 |
| Bus.SplitExact | client/nbus.c:218-228 | the two parts in numbers |
| Bus.Nbus.Poke16 | client/nbus.c:67-92 | a nested access runs inside the caller's critical section, a single one in its own; the lock flag is left as found |
| Bus.Nbus.Peek16 | client/nbus.c:94-126 | the same for reads, with the value behind the window |
| Bus.Nbus.WinPoke8 | client/nbus.c:218-228 | one register is written, in one critical section, the lock flag left as found |
| Bus.Nbus.WinPeek8 | client/nbus.c:230-240 | the register is read and none is changed; on its own it is two critical sections, not one |
| Bus.Nbus.OutPort | client/ioports.c:36-78 | the binary digit of the byte's value at the bit becomes 1 exactly for `onoff` 1, its other digits and all other bytes stay, and all accesses of the read-modify-write lie in one critical section |
| Bus.SetBitExact | client/ioports.c:44-47 | the written bit gets its value and the other seven keep theirs |
| Bus.SetBitDigits | client/ioports.c:44-47 | the same in numbers: the digit v / 2^j % 2 for every j |
| Bus.BitIsDigit | client/ioports.c:44-47 | the bit under 1 << i is the binary digit at position i of the byte's value |
| BusThreads.StepKeepsInv | client/nbus.c:267-328 | with one thread a process every step keeps the semaphore exclusive, nbuslocked exact, and what a thread has read the value of its port |
| BusThreads.AccessesInsideLock | client/nbus.c:267-328 | with one thread a process every access of a read-modify-write finds nbuslocked set |
| BusThreads.UpdateLost | client/ioports.c:36-78 | with two threads of one process a schedule exists in which any change of one bit is lost to a command for another bit of the port |
| BusThreads.UpdatesSafeIff | client/ioports.c:36-78 | under every schedule the three ports, whatever they held, hold what the commands give one after the other, if and only if no process has two threads on the bus |
| Outputs.FirstTwentyAt | cmd_tasks.c:178-256 | outputs 0 to 19 are eight a port, in order |
| Outputs.OnIsADigit | client/ioports.c:36-78 | such an output is on exactly when that binary digit is 1 |
| Outputs.SharesBitIff | cmd_tasks.c:178-256 | two outputs drive the same bit if and only if they are the same, or both are output 0 or one that the table does not list |
| Outputs.DriveExact | tasks.c:568-604 | a command sets its own bit and keeps every other bit of every port |
| Outputs.LastCommandWins | tasks.c:568-604 | after any sequence of commands each output holds the last value commanded for its bit, or its old one |
| Outputs.Controller.ChangeOutput | tasks.c:568-604 | of outputs 0 to 19, number k sets binary digit k % 8 of the byte at 0x10300 + k / 8 and nothing else; the others drive the bit the table gives them |
| Outputs.Controller.SetOutput | tasks.c:281-361 | record, list and port after a call, for every type and every phase of the button |
| Outputs.SetOutputKeepsCoherent | tasks.c:281-361 | one call on any output of a steady list, of any type, keeps every record equal to the bit of its port, and the list steady |
| Outputs.OutputsStayCoherent | tasks.c:281-361 | a board is coherent after every sequence of calls if and only if it is coherent now and steady: whatever can flip is under its own port if it can flip again, and every other record on its bit yields to its copy |
| Outputs.ListedSteadyIff | tasks.c:281-361 | with every output under its own port, steady means that none that can flip shares its bit with another |
| Outputs.MobileSteadyIff | tasks.c:281-324 | ordinary switches and toggles are steady if and only if each is under its own port and at most one of output 0 and the outputs from 20 on is listed |
| Outputs.FirstTwentySteady | cmd_tasks.c:178-256 | twenty outputs of any type, each under its own port, are steady |
| Outputs.StrayPortFails | cs_client/config_file.c:58-62 | two records loaded with the same port disagree with their bit after two calls |
| Outputs.SharedBitCoherentIff | tasks.c:281-361 | a call on an output of any type keeps coherence if and only if it drives nothing, or every other record on the bit but the one its copy replaces already has the new state |
| Outputs.CallsComeTo | tasks.c:289-347 | what any number of calls makes of a record: type 0 follows the last value, types 2 and 3 hear the first call only, type 4 the first two, other types none |
| Outputs.RecordIsPressed | tasks.c:281-361 | among any other calls on the board an output's record is what its own calls make of it, if no other record has that output for its port |
| Outputs.ToggleEverySecondCall | tasks.c:302-324 | a type 1 output called k times from reset 0 has toggled ceil(k/2) times, whatever the values: from 0 or 1, its `onoff` is (`onoff` + ceil(k/2)) % 2 |

## Left out

- Sockets, message queues, semaphores, WiFi, sleeps, printing and wall-clock time: byte sequences, FIFO queues, an abstract lock and
  register map, or parameters stand for them. A thread that would block has taken nothing yet; end of file and short reads are not modelled.
- The checksum `esp_crc16_le` is any function; a frame damaged on the way is taken to be rejected, so it has no step.
- The hard-coded broadcast address of the ESP-NOW program is taken to reach the other device; more than two devices are not modelled.
- The ESP-NOW send buffer has `len` bytes in the source; `EspFrame.Sender.Prepare` needs the 10 more that the loop writes.
- EspFrame.Sender.Prepare: asks for a buffer of `len` plus 10 bytes, because with the `len` bytes of the source the loop leaves the buffer and C gives no meaning to what follows.
- ClientTable.Server.Accept: a full table and a failed `accept` (socket -1) are excluded; the source writes behind the table, or stores the -1.
- ListenThread.Hub.ListenOnce: frames that do not fit the 50-byte buffer are excluded, since the source reads them without a test; after a bad preamble the source also calls `logoff_client` with a name from behind the table, which is not modelled.
- Endpoints.HostTask.TakeAll: records whose length field leaves the 255-byte buffer are excluded; the source copies without a test.
- Endpoints.Socket.GetFrame: takes a whole frame or nothing; end of file, short reads and a reader that blocks in the middle are not modelled.
- ListenThread.Hub.Dispatch: the client list and the status notice, which go to the Windows client by `send_msgb`, are not modelled.
- Endpoints.Client.Listen: every frame has to fit the 50-byte buffer, as for a single turn.
- Endpoints.EspClient.ReadOnce: frames that do not fit the 100-byte buffer are excluded, since the source reads them without a test.
- Endpoints.Client.ListenOnce: the same bound on the frame, for the same reason.
- The Windows client branch, `get_msgb`, `send_msgb`, the client list and the status notice sent to it: the other endpoint is not in the repository.
- Names are compared as whole strings; the fixed sizes of the name buffers and the growth of the comparison buffer beyond 50 bytes are not modelled.
- Two threads reading one socket (the thread of a logged-off client beside that of slot 0) could take one frame in pieces; frames are read whole here.
- EndToEnd.EndToEnd: messages that ask to disconnect are excluded, because they change the table; bodies are at most 48 bytes, what both buffers hold; each turn writes its frame in one go, which `LiveRelay` removes.
- LiveRelay.EndToEndWhileChanging: the same exclusions, and runs in which two threads tear each other's frames or the timer logs somebody off.
- What a client does with a dispatched command beyond the record it was unpacked from, and `add_msg_queue`.
- `ollist_removeall_data` and `ollist_change_data`, which read or keep nodes they have freed; `ollist_find_data_ip`, `ollist_show`, `ollist_printfile`.
- Removal is not part of the concurrent system, since removing the head leaves no list; `malloc` failure is not modelled.
- Pointers that `ollist_find_data` returns and callers use after the lock is released: `Outputs.Controller.SetOutput` writes through one at once, as a single thread.
- A missed toggle returns an uninitialised variable: the model returns None and claims nothing about it.
- The GPIO strobes inside one 16-bit access, and what the registers behind the window do: the window is a map from addresses to bytes, split as the address arithmetic of the source implies.
- Several threads of one process on the bus that find `nbuslocked` cleared in the middle of a read-modify-write: the source then locks for single accesses; `BusThreads` has no such steps, and `BusThreads.UpdatesSafeIff` needs none.
- Starvation: new readers may come for ever while a writer waits; `LockProgress.EveryCallCompletes` speaks of runs without new calls.
- `cs_client/config_file.c` (file records), `monitor_input_task`, temperature conversion, `server/ioports.c` and `server/nbus.c` (the same code as the client's), `esp-idf/tcp_client_v4.c` (the same framing), the Arduino sketches.
