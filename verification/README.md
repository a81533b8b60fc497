# Verified model of the RPG game server

A Dafny model of the C++ game server (`game_server/`) and of the sending half of its
dummy client (`dummy_client/`), with proofs about its protocols. It models:

- **Framing** (`Framing.dfy`, `Overflow.dfy`, `RingBuffer.dfy`, `Receiver.dfy`): the
  16384-byte circular buffer and the drain loop that cuts a TCP byte stream into
  length-prefixed packets, against a reference parser that sees the whole stream at once,
  and which streams can overflow the buffer.
- **Packets, end to end** (`Packets.dfy`, `EndToEnd.dfy`): the ten packed structs, the
  client's partial-send loop, and the dispatch that casts a frame back to a struct.
- **Sending** (`SendProtocol.dfy`, `Sender.dfy`): the send queue, its mutex and the atomic
  flag of a session under any number of posting threads and completions.
- **Ownership** (`Ownership.dfy`): accept slots, the session table, which thread may touch
  the receive side of a session, and who keeps a session alive.
- **Write-behind cache** (`WriteBehind.dfy`, `Cache.dfy`, `SyncLoop.dfy`, `DbPool.dfy`):
  Redis values and dirty marks, the flusher's pop, read and write steps, the MySQL rows and
  the connection pool.
- **Logger** (`Json.dfy`, `Logger.dfy`): JSON escaping and the response parser against
  section 7 of RFC 8259, the two queues and their shutdown, the one-minute limit.
- **Rooms** (`Rooms.dfy`): capacity, registration, the double-checked lookup, and how
  sessions get lost in rooms that are no longer registered.

Concurrent parts are transition systems. An action is one lock region, one access to an
atomic or one call into the kernel, Redis or MySQL; `Apply` says what it does, `Run` follows
a list of actions, and theorems range over all runs (`Reachable`). Threads that carry no
data of their own are counted, so their number is unbounded. Beside each system stands a
class with the fields and methods of the C++ class, whose methods take these actions one by
one or have contracts on the real fields. What sockets, Redis and MySQL answer is a parameter
of these methods.

Where the code does not do what one would expect, the model keeps the code and says exactly
when it does:

- a bad header ends the drain round (`DrainKeepsUp`), and may make the ring overflow
  (`OverflowDecided`);
- a synchronous `WSASend` error or a send completion of zero bytes strands the queue
  (`NoLostWakeup`, `EventuallyDelivered`);
- a failed UPDATE or GET is not retried (`StepCoverage`), and an error reply to GET is
  written to MySQL as a stat (`FlushedStep`, `ErrorReachesRow`);
- a `Stop` during a flush is not followed by another flush (`FinalFlush`, `StopDuringFlush`);
- `ParseLlmResponse` does not understand `\r` and `\u00XX` (`ParseInvertsEscape`);
- `CreateRoom` may take the place of a map's room, a room may be destroyed with a session
  in it, and a session may end up in no room (`CreateDisplaces`, `StepLoses`,
  `NewRoomAdmits`);
- a failed `WSARecv` or a handler that throws leaves a connection in the table that is never
  read again (`AttendedStep`, `DeafForever`);
- a session is never destroyed, because its overlapped receive refers to it for ever
  (`NeverDestroyed`), although architecture.md:492-498 says that its reference count drops
  to zero when the peer closes the connection.

The README of the repository says that SyncWorker scans Redis keys; the code reads the dirty
set, and the model follows the code.

## Model

| member | source | states |
|---|---|---|
| `Bytes.FromToLE` | game_server/Packet.h:32-36 | a little-endian integer of any width reads back as the number written, if it fits |
| `Bytes.ToFromLE` | game_server/Packet.h:32-36 | and any bytes are the encoding of the number they read as |
| `Bytes.ToLEAt` | game_server/Packet.h:32-36 | byte i of the encoding is the digit of weight 256 to the i, so the least significant byte comes first |
| `Packets.HeaderBytes` | game_server/Packet.h:33-36 | the size and the id of a header are its bytes 0, 1 and 2, 3 as little-endian numbers |
| `Packets.StructSizes` | architecture.md:79-92 | the ten packed structs have the documented sizes, all of them within 4..512 |
| `Packets.EncodeIsWire` | game_server/Packet.h:30-142 | every struct lies on the wire as its size, its id and its fields in declaration order with their widths, written out, without padding |
| `Packets.EncodedHeader` | game_server/Packet.h:33-36 | the header of an encoded struct, whatever follows it, reads back as its length and its packet id |
| `Packets.HeaderOnWire` | game_server/Packet.h:7-18 | the ids 1000 to 1009 and the sizes in the first four bytes of each of the ten structs, in figures |
| `Packets.HandleEncode` | game_server/Packethandler.cpp:13-57 | for each of the ten structs the dispatch hands its handler exactly the struct that was encoded, also from a longer frame |
| `Packets.EncodeHandle` | game_server/Packethandler.cpp:13-57 | conversely a frame as long as its struct is the encoding of what the handler gets, so decoding loses nothing |
| `Packets.HandleByBytes` | game_server/Packethandler.cpp:13-57 | for every frame, told by its bytes: dropped as too short, dropped as unknown, too short for its struct, or handled |
| `Packets.HandlerByBytes` | game_server/Packethandler.cpp:20-50 | which of the ten handlers runs, by the id in bytes 2 and 3 |
| `Packets.CastKeepsBytes` | game_server/Packethandler.cpp:20-50 | the fields of a cast struct are the bytes behind the header as they stand |
| `Framing.LookAtBytes` | game_server/RingBuffer.cpp:71-85 | the look at the first bytes, in figures: fewer than 4 wait, a size below 4 or above 512 is bad, and a frame is taken when it is complete |
| `Framing.ParseSplit` | game_server/RingBuffer.cpp:67-91 | the reference parser is compositional: parse a prefix, carry its rest over, parse on, and frames and rest are those of the whole stream |
| `Framing.DrainAgrees` | game_server/Session.cpp:113-114 | the drain loop may stop early at a bad header, yet what it handled followed by the frames of what it left are the frames of its input |
| `Framing.DrainKeepsUp` | game_server/RingBuffer.cpp:79-82 | one round handles every complete frame if and only if the input has at most one bad header and nothing complete behind it |
| `Framing.ReceiveAgrees` | game_server/Session.cpp:107-115 | one receive completion, overflow included, keeps handled packets plus buffered frames equal to the frames of all accepted bytes |
| `Framing.ReceiveByBytes` | game_server/Session.cpp:107-115 | a receive that would make more than 16384 bytes changes nothing; any other only moves frames from the buffer to the handlers |
| `Framing.ChunkingAgrees` | game_server/Session.cpp:107-115 | the same after any list of chunks, from any state in which it holds |
| `Framing.AnyChunking` | game_server/Session.cpp:107-115 | from a new session, for every stream with or without malformed headers and every chunking, the handled packets are a prefix of the reference parse and the buffer holds the remainder |
| `Framing.ChunkingsDifferByLag` | game_server/Session.cpp:107-115 | two chunkings of the same bytes handle the same packets in the same order, one possibly further than the other |
| `Framing.WellFormedNeverOverflows` | game_server/Session.cpp:107-112 | if all headers declare 4..512, chunks of at most 8192 bytes never reach the overflow branch, at most 511 bytes stay buffered and every complete frame is handled |
| `Framing.KeepingUpNeverOverflows` | game_server/Session.cpp:107-115 | the same as long as each round meets at most one bad header with nothing complete behind it |
| `Framing.MalformedOverflow` | game_server/RingBuffer.cpp:79-82 | a malformed stream can overflow: receives of zero bytes leave the ring eight bytes short of full, and the third one finds no space |
| `Overflow.DrainedMonotone` | game_server/Session.cpp:113-114 | of two sessions on the same stream, the one that is ahead and has received more is ahead after its round too, wherever the bad headers lie |
| `Overflow.FullReceivesLag` | game_server/Session.h:41 | no way of receiving a part of a stream in at most 8192 bytes at a time has taken less of it than full receives have |
| `Overflow.NoOverflowFits` | game_server/Session.cpp:108-112 | whether chunks overflow is told by the parser positions between them |
| `Overflow.OverflowDecided` | game_server/Session.cpp:107-115 | any stream, malformed or not, is received without overflow under every chunking of at most 8192 bytes if and only if each beginning of it is when it arrives in full receives |
| `Ring.RingBuffer.constructor` | game_server/RingBuffer.h:24-27 | a new ring is empty and its write position is the read position plus the size modulo 16384 |
| `Ring.RingBuffer.Write` | game_server/RingBuffer.cpp:5-23 | appends all bytes to the queue if no more than 16384 come together and otherwise changes nothing, across the end of the array |
| `Ring.RingBuffer.Peek` | game_server/RingBuffer.cpp:25-41 | copies exactly the oldest bytes of the queue to the destination and changes nothing else; too long a request copies nothing |
| `Ring.RingBuffer.Read` | game_server/RingBuffer.cpp:43-50 | copies the oldest bytes and drops exactly these from the queue |
| `Ring.RingBuffer.Ignore` | game_server/RingBuffer.cpp:52-57 | drops the oldest bytes, or everything if there are fewer |
| `Ring.RingBuffer.TryAssemblePacket` | game_server/RingBuffer.cpp:67-91 | with n the first two bytes as a little-endian number: nothing below 4 bytes, four bytes dropped if n is below 4 or above 512, else the first n bytes as a packet once they are there |
| `Ring.UnwrapWritten` | game_server/RingBuffer.cpp:9-21 | one or two copies at the write position are an append to the queue, and the positions stay consistent |
| `Ring.UnwrapDropped` | game_server/RingBuffer.cpp:47-48 | moving the read position modulo the size drops from the front of the queue, and the positions stay consistent |
| `Receiver.SessionReceiver.DrainRing` | game_server/Session.cpp:113-114 | the loop over the circular buffer handles and leaves exactly what the drain of its byte queue says |
| `Receiver.SessionReceiver.OnRecvCompleted` | game_server/Session.cpp:107-115 | the imperative receive path refines one step on values, so it keeps the agreement with the reference parser; beyond 16384 bytes buffer and handled packets stay as they are |
| `EndToEnd.DummyClient.SendPacket` | dummy_client/DummyClient.cpp:30-40 | success means exactly the packet entered the stream, failure that a proper prefix of it did and that the last send() failed, whatever send() answers |
| `EndToEnd.SendAll` | dummy_client/main.cpp:57-66 | after any partial sends the wire holds the structs that went out, all of them unless a send() failed, and otherwise a proper piece of the next one |
| `EndToEnd.EncodedOneByOne` | dummy_client/main.cpp:57-66 | structs are encoded one by one |
| `EndToEnd.DeliveredOneByOne` | game_server/Packethandler.cpp:13-57 | and each is delivered once |
| `EndToEnd.HandledOneByOne` | game_server/Session.cpp:113-114 | frames are dispatched one by one |
| `EndToEnd.StreamParses` | dummy_client/main.cpp:57-66 | a stream of encoded structs is well-formed, and the reference parser cuts it at exactly the struct boundaries |
| `EndToEnd.CutStreamParses` | game_server/RingBuffer.cpp:79-85 | so is a stream that ends inside a struct, and the parser leaves exactly that last piece |
| `EndToEnd.RoundTrip` | game_server/Session.cpp:107-115 | for every list of structs, every partial-send pattern with or without a failure, and every chunking into at most 8192 bytes, the handlers run on exactly the structs that went out, and the ring ends empty or with the piece of the failed one |
| `EndToEnd.PartialRoundTrip` | game_server/Session.cpp:107-115 | while only a beginning of the stream has arrived, the handlers have run on the first few of the structs sent |
| `EndToEnd.Serve` | game_server/IocpCore.cpp:88-92 | the same on the ring buffer object: a worker that runs completions of any sizes until the stream ends |
| `EndToEnd.SendAndServe` | dummy_client/DummyClient.cpp:30-40 | client and server objects together, from SendPacket to the handlers; fewer structs arrive only if a send() failed |
| `SendProtocol.RunKeepsInv` | game_server/Session.cpp:51-106 | the send-token invariant is kept by every interleaving |
| `SendProtocol.OneToken` | game_server/Session.cpp:51-106 | m_isSending is true exactly when one token exists, so at most one WSASend is outstanding, pop never meets an empty queue, and the buffer in flight is the queue's front |
| `SendProtocol.Fifo` | game_server/Session.cpp:51-106 | completed buffers followed by the queue are the posts in lock order, and each buffer is accepted by WSASend once and in order, failed attempts included |
| `SendProtocol.NoLostWakeup` | game_server/Session.cpp:57-68 | a waiting buffer has a token holder or a poster about to exchange, unless the latest WSASend failed; at rest the queue is empty if and only if it did not |
| `SendProtocol.FailureStrands` | game_server/Session.cpp:90-96 | a run in which a synchronous error leaves a buffer behind with nobody to send it |
| `SendProtocol.ZeroBytesStrand` | game_server/IocpCore.cpp:76-83 | a run in which a send completion of zero bytes does |
| `SendProtocol.StepShrinks` | game_server/Session.cpp:51-106 | every step but a new post uses up a measure of the remaining work |
| `SendProtocol.Progress` | game_server/Session.cpp:51-106 | no deadlock: until everything is at rest or parked some step other than a post is enabled |
| `SendProtocol.EventuallyDelivered` | game_server/Session.cpp:51-106 | without new posts every run is finite, and where it ends all posts are completed if and only if the session is not parked and the latest WSASend did not fail |
| `SendProtocol.ParkedForever` | game_server/IocpCore.cpp:76-83 | after a send completion of zero bytes nothing is ever sent on the session again |
| `Sender.SessionSender.PostSend` | game_server/Session.cpp:51-60 | queues the buffer; an idle session hands its oldest waiting buffer to WSASend and is sending exactly if it is accepted, a busy one leaves that to the token holder |
| `Sender.SessionSender.RegisterSend` | game_server/Session.cpp:62-98 | hands the front to WSASend if there is one, and keeps the flag exactly if it is accepted |
| `Sender.SessionSender.SendCompleted` | game_server/Session.cpp:100-106 | removes exactly the buffer that was in flight and starts the next, if there is one and WSASend accepts it |
| `Ownership.DeedKeepsInv` | game_server/IocpCore.cpp:62-104 | each step of a session keeps single ownership, keepAlive and the table discipline |
| `Ownership.ReceivingRefs` | game_server/Session.cpp:24-29 | which steps of accepting and receiving create, hand on or give up a shared_ptr to the session |
| `Ownership.OtherRefs` | game_server/Session.cpp:62-106 | and which steps of rooms, sending and closing |
| `Ownership.OneReceiver` | game_server/IocpCore.cpp:85-92 | in every run a session has at most one receive outstanding or being handled, so ring and receive buffer need no lock |
| `Ownership.AliveWhilePending` | game_server/Session.cpp:24-29 | while a receive or a send is outstanding its session is not destroyed, and the completion runs on that session |
| `Ownership.NeverDestroyed` | game_server/Session.cpp:27 | in no run does the last shared_ptr to a session go away, and one that has posted a receive refers to itself for ever |
| `Ownership.ClosedConnectionLeaks` | game_server/IocpCore.cpp:76-83 | a run after which a closed session is in no table and no room, has nothing outstanding, and is still there |
| `Ownership.AttendedStep` | game_server/IocpCore.cpp:76-104 | a session in the table is left without anybody to receive for it or remove it exactly by a failed WSARecv or a handler that throws while nobody is about to remove it, and only a send of zero bytes helps |
| `Ownership.DeafForever` | game_server/Session.cpp:42-48 | such a session is never received for again in any run, and stays in the table until a send to it completes with zero bytes |
| `Ownership.ThrowingHandlerAbandons` | game_server/IocpCore.cpp:100-104 | a run in which a throwing handler does that |
| `Ownership.AcceptSlotsConserved` | game_server/Acceptor.cpp:66-140 | the 256 accept slots are outstanding, being processed, not yet posted or lost to an error, never more |
| `Ownership.TableDiscipline` | game_server/SessionManager.cpp:4-12 | a session is added before it is removed, never added twice, and once removed never in the table again |
| `Ownership.IoServer.Init` | game_server/Acceptor.cpp:66-68 | the posting loop posts 256 accepts; as many are outstanding as were taken, and the others are lost |
| `Ownership.IoServer.OnAcceptCompleted` | game_server/Acceptor.cpp:110-140 | a session with the next id enters the table with one receive outstanding if WSARecv takes it, and the accept slot is outstanding again if AcceptEx takes it |
| `Ownership.IoServer.OnRecv` | game_server/IocpCore.cpp:76-104 | a completion without data removes the session for good; after one with data the next receive is outstanding exactly if no handler throws and WSARecv takes it; nothing else of the session changes |
| `Ownership.IoServer.OnSend` | game_server/IocpCore.cpp:93-95 | a send completion without data removes the session; after one with data the next send is outstanding exactly if there is one and WSASend takes it, also for a removed session |
| `WriteBehind.RowsNeverGoBack` | game_server/SyncWorker.cpp:45-62 | in every interleaving in which no error text is written to it, a flushed row holds a value stored for the same character, and its version never decreases |
| `WriteBehind.FlushedStep` | game_server/Redismanager.cpp:61-66 | a row with a version keeps one that is no older in a step if and only if the step does not write an error text over it |
| `WriteBehind.ErrorReachesRow` | game_server/Redismanager.cpp:61-66 | a run in which an error reply to GET becomes the row of some character, a value nobody has stored |
| `WriteBehind.StepCoverage` | game_server/Redismanager.cpp:34-69 | the newest value of a character stops being in sync, marked, popped or held exactly at the named steps (SADD failed, GET failed, key or row gone, UPDATE failed, stale write without a mark), and gets another chance exactly at those that recover |
| `WriteBehind.LossExplained` | game_server/SyncWorker.cpp:45-62 | in any run that ends with an update out of sight, one of these steps has lost it and no later state has recovered it |
| `WriteBehind.HarmlessStep` | game_server/SyncWorker.cpp:51-57 | without a fault that concerns the character every step keeps agreement, and a stale value in the flusher's hands implies a mark |
| `WriteBehind.Agreement` | game_server/SyncWorker.cpp:45-62 | over all interleavings without a fault that concerns it, a cached value that differs from its row is marked, popped but not read, or held in its current version |
| `WriteBehind.QuietMeansEqual` | game_server/SyncWorker.cpp:45-62 | so between flushes an unmarked character's row equals its cached value |
| `WriteBehind.FlushDelivers` | game_server/SyncWorker.cpp:45-62 | a flush brings the row of every marked, cached character at least to the version it had when the flush began, whatever is stored meanwhile, if its GET and UPDATE work |
| `WriteBehind.FailedUpdateIsLost` | game_server/SyncWorker.cpp:51-57 | a failed UPDATE leaves cache and row different with no mark left |
| `WriteBehind.LostReplyIsLost` | game_server/SyncWorker.cpp:51-57 | so does a GET without a reply, although key and row exist |
| `Cache.StoUllToString` | game_server/Redismanager.cpp:131-133 | an id read back from the dirty set is the id that was put in |
| `Cache.ToStringDigits` | game_server/Redismanager.cpp:26-28 | ids are written in decimal digits, the most significant first |
| `Cache.NoLeadingZero` | game_server/Redismanager.cpp:26-28 | without leading zeros |
| `Cache.StatKeyInjective` | game_server/Redismanager.cpp:26-28 | different characters have different keys |
| `Cache.StoredStat` | game_server/Redismanager.cpp:66 | the stored struct bytes read back as the stat that was stored |
| `Cache.RedisManager.SetCharacterStat` | game_server/Redismanager.cpp:34-54 | changes exactly this character's cached value unless SET is refused, also when its reply is lost; marks it unless SET is not answered or the ignored SADD fails; true says that SET was answered; key, struct bytes and mark are those of Redis |
| `Cache.RedisManager.GetCharacterStat` | game_server/Redismanager.cpp:56-69 | finds the value stored last if GET is answered and there is one, nothing without a reply, and the bytes 4 to 36 that memcpy reads if the reply is an error |
| `Cache.RedisManager.DeleteCharacterStat` | game_server/Redismanager.cpp:71-78 | answers true in any case; if DEL worked this character's value is forgotten, and no other |
| `Cache.RedisManager.PopDirtyIds` | game_server/Redismanager.cpp:120-141 | returns each marked id once and nothing else, and clears the marks unless DEL fails; nothing happens if SMEMBERS fails |
| `Cache.SyncWorker.OnCharacterStat` | game_server/Packethandler.cpp:82-90 | a store on the keys and bytes of Redis is one step of the write-behind system |
| `Cache.SyncWorker.FlushAll` | game_server/SyncWorker.cpp:45-62 | a flush on keys, bytes and rows is a run of the write-behind system; its count is the number of marked characters whose GET works and whose UPDATE is answered; of those whose UPDATE ran all seven columns become those of the cached stat unless an error text was read; all other rows stay, and every connection is back |
| `Cache.SyncWorker.Expire` | game_server/Redismanager.cpp:38-40 | the end of a key is the step that forgets the cached value and leaves the mark |
| `Cache.AllFlushed` | game_server/SyncWorker.cpp:51-57 | what the flush of a list of ids does to the rows, whatever GET or UPDATE fails, if no GET is answered with an error |
| `SyncLoop.FinalFlush` | game_server/SyncWorker.cpp:21-43 | when the thread has gone, exactly one flush began after Stop if Stop came while it waited or was about to flush, and none otherwise |
| `SyncLoop.EveryRoundFlushes` | game_server/SyncWorker.cpp:31-42 | until Stop every round of the loop flushes once and leads to the next |
| `SyncLoop.StopDuringFlush` | game_server/SyncWorker.cpp:31-42 | a run in which Stop comes during a flush and the thread goes without another one |
| `DbPool.StepKeepsInv` | game_server/Dbmanager.cpp:46-64 | borrowing and returning keep pool and borrowed connections equal to those opened |
| `DbPool.Conservation` | game_server/Dbmanager.cpp:27-64 | in every interleaving pool and borrowed connections are disjoint, without duplicates, and together those Init opened, at most ten |
| `DbPool.DBManager.Init` | game_server/Dbmanager.cpp:21-44 | the pool holds the connections opened before the first failure, ten if there is none |
| `DbPool.DBManager.GetConnection` | game_server/Dbmanager.cpp:46-56 | answers none exactly when nothing is idle, else takes one connection that can be given back |
| `DbPool.DBManager.ReturnConnection` | game_server/Dbmanager.cpp:58-64 | puts a borrowed connection back |
| `DbPool.DBManager.UpdateCharacterStat` | game_server/Dbmanager.cpp:114-158 | on every path the pool is as before; exactly if the row exists and the statement ran, its seven columns become those of the stat, and no other row changes; true says that MySQL also answered |
| `DbPool.DBManager.ExecuteStatement` | game_server/Dbmanager.cpp:241-276 | the insert and update methods give their connection back on every path and succeed exactly if the statement ran |
| `DbPool.DBManager.SelectOne` | game_server/Dbmanager.cpp:416-486 | gives its connection back on timeout, prepare, execute, store and fetch failures, and answers exactly when all worked |
| `DbPool.DBManager.SelectAll` | game_server/Dbmanager.cpp:278-337 | gives its connection back on every path and lists, in order, the rows before the first fetch that yields none |
| `Json.JsonEscape` | game_server/AsyncLogger.cpp:16-33 | the loop computes the escape of every byte string |
| `Json.EscapeTable` | game_server/AsyncLogger.cpp:18-30 | the escape of each byte in figures, lower-case hexadecimal digits included |
| `Json.EscapeAppend` | game_server/AsyncLogger.cpp:16-33 | bytes are escaped one after the other |
| `Json.EscapeReadsBack` | game_server/AsyncLogger.cpp:16-33 | between quotes the escape is one string of RFC 8259 that ends at the closing quote and has the original value, whatever follows |
| `Json.EscapeInjective` | game_server/AsyncLogger.cpp:16-33 | different messages have different escapes |
| `Json.EscapeIsClean` | game_server/AsyncLogger.cpp:16-33 | the escape has no raw control byte, and before every quote in it stands an odd number of backslashes, so none ends the string |
| `Json.Escape` | game_server/AsyncLogger.cpp:16-33 | the escape is at least as long as the input and at most six times as long |
| `Json.Find` | game_server/AsyncLogger.cpp:37-40 | answers the first occurrence of the key, or none exactly if there is none |
| `Json.ParseLlmResponse` | game_server/AsyncLogger.cpp:36-63 | the loop computes the content field behind the first key, and without the key anywhere the result is empty |
| `Json.Itemize` | game_server/AsyncLogger.cpp:43-62 | every text reads as plain bytes and backslash pairs up to its end, an unescaped quote or a last lonely backslash |
| `Json.ScanMeaning` | game_server/AsyncLogger.cpp:43-62 | and the loop makes of it the bytes these mean: newline and tab for n and t, the byte itself for any other |
| `Json.ScanEscape` | game_server/AsyncLogger.cpp:43-62 | scanning an escaped text gives the text back if and only if its only control bytes are newline and tab |
| `Json.KeyFirst` | game_server/AsyncLogger.cpp:37-40 | the key found first is that of the field if and only if none occurs before it, which what follows cannot change |
| `Json.ParseInvertsEscape` | game_server/AsyncLogger.cpp:36-63 | the parser inverts JsonEscape exactly on those texts, whatever surrounds the field, if no key occurs before it |
| `Logger.LinesConserved` | game_server/AsyncLogger.cpp:135-176 | in every interleaving written lines, the line in hand and the queue are the lines pushed in lock order, likewise errors; after exit only later lines are unwritten |
| `Logger.LoopIsBounded` | game_server/AsyncLogger.cpp:152-176 | without producers the total queue length bounds the rounds left |
| `Logger.DrainsAndExits` | game_server/AsyncLogger.cpp:119-176 | after shutdown the thread writes everything queued, passes on every non-empty error, and exits |
| `Logger.AsyncLogger.Log` | game_server/AsyncLogger.cpp:135-141 | pushes one stamped line |
| `Logger.AsyncLogger.LogError` | game_server/AsyncLogger.cpp:143-150 | pushes one marked line and one error |
| `Logger.AsyncLogger.Round` | game_server/AsyncLogger.cpp:154-175 | takes the oldest line and the oldest error if there are any, writes the line, passes a non-empty error on, and breaks exactly when both queues are empty after shutdown |
| `Logger.AsyncLogger.DrainLoop` | game_server/AsyncLogger.cpp:152-176 | once stopped and undisturbed, the loop ends with both queues empty, every queued line written in order and every non-empty error passed on |
| `Logger.DispatchesAreSpaced` | game_server/AsyncLogger.cpp:178-185 | any two dispatches are at least sixty seconds apart per step between them |
| `Logger.RateBound` | game_server/AsyncLogger.cpp:178-185 | a window of T seconds sees at most T/60 + 1 dispatches, for any calls |
| `Logger.AsyncLogger.SendToAI` | game_server/AsyncLogger.cpp:178-185 | a request goes out exactly if configured and sixty seconds have passed since the last one |
| `Rooms.Capacity` | game_server/Room.cpp:8-18 | in every interleaving every room holds at most four sessions and is registered under its own id |
| `Rooms.OneRoomPerMap` | game_server/RoomManager.cpp:35-48 | until a map id is destroyed or overwritten all GetOrCreateRoom calls for it answer with one room, made by at most one of them |
| `Rooms.LookUpAnswers` | game_server/RoomManager.cpp:35-48 | a lookup ends with the map's registered room, at the latest in the second lock region, which makes it if need be |
| `Rooms.EnterStep` | game_server/Room.cpp:8-18 | Enter admits exactly this session below four, and otherwise sends its handler to CreateRoom |
| `Rooms.CreateStep` | game_server/RoomManager.cpp:9-17 | CreateRoom registers an empty room under the next id and moves on to the one after it |
| `Rooms.FindStep` | game_server/RoomManager.cpp:26-33 | OnLeaveRoom goes on with the registered room, or ends |
| `Rooms.LeaveStep` | game_server/Room.cpp:20-26 | Leave takes exactly this session out of this room, whoever else is inside |
| `Rooms.CountStep` | game_server/Packethandler.cpp:147-149 | the count leads to DestroyRoom of that room's id exactly if nobody is inside |
| `Rooms.DestroyStep` | game_server/RoomManager.cpp:19-24 | DestroyRoom takes that id out of the table and changes nothing else |
| `Rooms.CreateDisplaces` | game_server/RoomManager.cpp:9-17 | CreateRoom leaves all registered rooms in place exactly if its next id is not in use as a map id; otherwise the map's room is lost in every later run with the sessions in it, and lookups answer with the overflow room |
| `Rooms.StepLoses` | game_server/Packethandler.cpp:128-149 | sessions come to be in a room that no lookup finds exactly by destroying or displacing a room that is not empty, or by entering one that is gone |
| `Rooms.GoneForever` | game_server/RoomManager.cpp:9-48 | a room that has lost its place never gets it back in any run, and once no handler has it nobody enters or leaves it any more |
| `Rooms.CountedRoomStaysEmpty` | game_server/Packethandler.cpp:146-149 | between a count of zero and DestroyRoom, only an entry into a room of that id can lead to a loss |
| `Rooms.FifthDisplaces` | game_server/RoomManager.cpp:11-13 | a run in which the fifth session to enter map 0 displaces the room of the first four |
| `Rooms.LateEntryIsLost` | game_server/Packethandler.cpp:146-149 | a run in which a session enters between another's count and its DestroyRoom |
| `Rooms.PlaceAdmits` | game_server/Packethandler.cpp:131-133 | the second Enter leaves the session in the new room if and only if fewer than four are inside or it is one of them |
| `Rooms.NewRoomAdmits` | game_server/Packethandler.cpp:131-133 | in every interleaving a session that was turned away gets its place in the new room, unless that room's id is looked up in between |
| `Rooms.FifthIsNowhere` | game_server/Packethandler.cpp:131-133 | a run in which four others take the new room first and the session ends up in no room |
| `Rooms.Room.Enter` | game_server/Room.cpp:8-18 | lets a session in exactly if fewer than four are inside |
| `Rooms.Room.Leave` | game_server/Room.cpp:20-26 | takes out that session and no other |
| `Rooms.RoomManager.CreateRoom` | game_server/RoomManager.cpp:9-17 | registers a new empty room under the next id, which wraps around at 32 bits |
| `Rooms.RoomManager.GetOrCreateRoom` | game_server/RoomManager.cpp:35-48 | answers with the registered room and creates one only if there was none |
| `Rooms.RoomManager.OnEnterRoom` | game_server/Packethandler.cpp:128-134 | the session ends up in a registered room: the map's if it has space, else a new one |
| `Rooms.RoomManager.OnLeaveRoom` | game_server/Packethandler.cpp:142-149 | takes the session out of the map's room and drops that room exactly if it is then empty |

## Left out

- Winsock, IOCP, MySQL, hiredis and WinHTTP themselves: each call is an action or a nondeterministic result.
- `node_server/`, the timestamps, file names, console and Discord texts, and the statistics of `dummy_client/main.cpp`.
- Packets.Handle: a frame shorter than its struct is answered with ReadsPastEnd, because the cast has no size check and what C++ does then is undefined; enum fields are plain integers, as the casts accept any value.
- The class Session is two classes, SessionReceiver and SessionSender, since no method touches both halves.
- Sender.SessionSender.PostSend: the contract is for a call nobody interrupts; interleavings are covered by the theorems of SendProtocol about the steps this method takes.
- Sender.SessionSender.RegisterSend: likewise.
- Sender.SessionSender.SendCompleted: likewise.
- Ownership.IoServer.OnAcceptCompleted: the contract is for a completion no other worker interrupts; interleavings are the theorems of Ownership.
- Ownership.IoServer.OnRecv: likewise.
- Ownership.IoServer.OnSend: likewise.
- Cache.SyncWorker.FlushAll: the contract is for a flush without concurrent stores; interleavings are the theorems of WriteBehind.
- Cache.RedisManager.GetCharacterStat: of an error text shorter than the struct memcpy reads on into whatever memory follows, which the model takes to be some bytes; C++ leaves it undefined.
- DbPool.DBManager.GetConnection: a connection that another caller returns within the five seconds of waiting is not modelled on the object; Conservation covers it.
- Rooms.RoomManager.GetOrCreateRoom: the contract is for an uninterrupted call; OneRoomPerMap covers interleavings, and the shared lock is not told apart from an exclusive one.
- Rooms.RoomManager.OnEnterRoom: the contract is for an uninterrupted call; interleavings are StepLoses, GoneForever, PlaceAdmits and NewRoomAdmits.
- Rooms.RoomManager.OnLeaveRoom: likewise.
- Logger.AsyncLogger.DrainLoop: covers ProcessLoop after shutdown without producers; waiting on the condition variable and lost notifications are not modelled.
- The window in which accepts complete before SetAcceptor is called, and the shutdown of the worker threads.
- Session keys in Redis, Broadcast, and the contents of the character, inventory and auction tables, which would add only easy members.
- Session ids and versions are unbounded; only the 32-bit room id counter wraps around.
