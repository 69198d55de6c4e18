# Verification of the RPC framework's core

This project models the parts of the framework that move bytes, run tasks and complete calls, and proves what they
promise. It is written in Dafny 4.11; `dafny verify dfyconfig.toml` checks all of it. Nothing here runs the framework.

Code that changes things step by step is modelled by classes and loops with the same fields and branches, proved
against functions and step machines; the theorems are about those, for every input, every run and every interleaving.

| files | what they model |
|---|---|
| `Bytes`, `Bits`, `Checksum` | 32-bit words in network order and in memory, the XOR checksum and what it detects |
| `TcpBuffer` | the growable buffer as a byte queue, and what its copying costs |
| `Frame`, `Stream`, `TinyPBCoder`, `RoundTrip` | the TinyPB frame, decoding of streams, the coder in place, and the round trips |
| `EventLoop` | the task queue as interleaved steps, and the loop object with its epoll registrations |
| `Sockets`, `Transducer`, `TcpConnection`, `InputRoom`, `TcpClient` | reading and writing against a kernel that answers as it likes, a server connection as a stream transducer, the room that its input has, and a client connection with its queue and callbacks |
| `EndToEnd` | a client and a server joined by two byte streams |
| `TimerSpec`, `TimerMachine`, `TimerHistory`, `TimerBatch`, `Timer`, `TimerResets`, `TimerTurns` | the timer as a bag of deadlines with steps, what holds over its runs, the timer and event objects, and what several threads do to resets and to the turn of an event |
| `RpcCompletion`, `RpcChannel`, `RpcSession` | the race of reply, timeout and connection report, the channel with its connection and its timer, and whole runs of a call |
| `LogPipeline`, `AsyncLogger` | the two-stage log as interleaved steps, and the loggers |
| `MsgIdUtil` | the decimal counter of message ids |

## What is proved

* **Codec.** Parsing and framing are inverse on exactly the delimited frames. Decoding does not depend on how a stream
  is cut; what is encoded, with any noise between the frames, is decoded again and nothing is left; each decoded
  message has its own frame in the stream. The checksum rejects every alteration within four consecutive bytes clear of
  its field and every alteration of the field alone, and an exact condition says which alterations it accepts.
* **Buffer.** Every operation is append, take-prefix or drop-prefix on a byte sequence, and the copying is amortised.
* **Server connection.** In every run with short reads, partial writes and full kernel buffers, sent bytes followed by
  unsent bytes are the encoded answers to the messages in all bytes received; these are all bytes offered as long as
  none was refused; and epoll waits to write while there are unsent bytes.
* **Client connection.** In every run without a hard write error while messages are queued, what is sent is the frames
  of the queued messages, each once, in order; each read callback runs once, for the first reply with its id.
* **End to end.** Whatever a client and a server have done, without such an error, and however the streams between them
  are cut, the replies decoded are the answers to the first of the requests; and each callback runs for its own if it is
  registered before the first read after its request is handed over.
* **Event loop.** Tasks run in push order in every interleaving, and none waits through more than one `epoll_wait`.
* **Timer.** The sorted list, the armed kernel timer and the flags agree with a bag of deadlines; one call of `onTimer`
  runs exactly the due events that nothing cancels before their turn; one-shot, cancelled and repeating events behave
  over whole runs.
* **Remote call.** Unless connecting fails, the first of reply and timeout decides for good, `done` runs once and the
  client is closed; this holds of the channel with its connection and its timer, told from the bytes and the clock.
* **Log.** Nothing is lost between logging and the file, nothing is overtaken while one syncer works at a time, and
  everything is written after `flushAndStop`.
* **Message ids.** Each id is one above the last, so the ids of a thread are distinct until it reseeds.

## Where the code does less than one would expect

Each of these is a theorem with the exact condition or with a run that shows it.

* A length word of 0 makes `decode` repeat the same pass for ever (`Streams.ProgressExactlyWhen`). Negative lengths and
  lengths whose end overflows are outside the decoder's domain, and nothing else is (`Streams.WildExactlyWhen`);
  `Streams.DecodeAppend` shows that the domain does not depend on how the stream is cut.
* `moveWriteIndex` refuses a move that exactly fills the buffer, as include/rapidrpc/net/tcp/tcp_buffer.h:51-53 says,
  but `onRead` offers the kernel all the free space. Bytes are lost if and only if a read takes up the offer
  (`Sockets.NothingRefusedExactlyWhen`). The class follows the code: the bytes received are those admitted.
* The in buffer of a connection never grows, so no frame of its size or longer is ever decoded
  (`Connections.LongFramesNeverComplete`), and its unread bytes are shifted to the front only when the read index reaches the middle. A
  frame that comes whole to an empty in buffer is decoded if and only if it is shorter than the space behind the write
  index (`Connections.WholeFrameExactlyWhen`). A second frame after one that ends ahead of the middle is answered if and
  only if both together are shorter than the buffer (`InputRoom.SecondFrameExactlyWhen`): with the 1024 bytes of
  src/net/tcp/tcp_server.cc:61 one of 600 bytes is lost after one of 500.
* A buffer created with size 1 has no amortised bound (`Buffering.AmortisedCost`).
* The wakeup handler clears the whole counter, so the loop can wait with a task pending and no signal left, until its
  timeout. It does so exactly when a task was pushed after the last swap and nothing was signalled after the last clear
  (`TaskQueue.SilentWaitExactlyWhen`, with the run `TaskQueue.BlocksWithWorkPending`).
* A connect that fails neither cancels the timeout nor asks whether the call is cancelled, so `done` runs twice if the
  timer expires as well, and only then (`RpcCompletion.CompletesTwiceExactlyWhen`).
* A hard write error on a client connection leaves messages queued that have already been encoded, so the next write
  encodes them again. Each message is encoded once if and only if there was no such error
  (`Clients.EncodedOnceExactlyWhen`); the wire then carries a frame twice (`Clients.FrameSentTwice`).
* `resetTimer` looks up the earliest arrival under the lock and sets the kernel timer outside it, so a reset can be
  overtaken by another and leave the timer set for a later event (`TimerResets.ResetOvertaken`). Once no reset is under
  way the timer is right if and only if it was last set for the arrival looked up last, or to the same setting
  (`TimerResets.ArmedExactlyWhen`).
* `onTimer` reads the task of an event twice without a lock, so a cancel or delete by another thread in between has it
  call an empty function, which throws; it does so exactly then (`TimerTurns.EmptyCallExactlyWhen`).
* `deleteTimerEvent` erases one entry, under the arrival the event has now; an exact condition says when nothing of the
  event stays pending (`TimerHistory.DeleteLeavesNothingExactlyWhen`).
* Two syncers at once can reorder the log, though not lose any of it (`LogPipeline.TwoSyncersOvertake`): the order is
  kept if and only if vectors are handed over in the order in which they were swapped out
  (`LogPipeline.OrderKeptExactlyWhen`).

## Model

| member | source | states |
|---|---|---|
| `Bytes.WrittenBigEndian` | src/net/coder/tinypb_coder.cc:127-146 | a word is written as its two's complement, the most significant byte first, with the weights of the four bytes written out |
| `Bytes.ReadBigEndian` | src/net/coder/tinypb_coder.cc:34 | four bytes are read as the number of 32 bits and a sign that has the same weights modulo 2^32 |
| `Bytes.NetHostRoundTrip` | src/net/coder/tinypb_coder.cc:127-146 | a signed 32-bit value written in network order is read back as the same value |
| `Bytes.HostNetRoundTrip` | src/net/coder/tinypb_coder.cc:34 | four bytes read as a 32-bit value and written again are the same bytes, so each value has one encoding |
| `Checksum.ChecksumXor` | src/net/coder/tinypb_coder.cc:175-190 | the loop over whole words with its zero-padded tail leaves in memory the XOR of the bytes at each position modulo 4 |
| `Checksum.ChecksumValidate` | src/net/coder/tinypb_coder.cc:192-199 | answers yes exactly if the field holds the lane sums of the frame taken with a zero field, and leaves the array as it was although it zeroes the field on the way |
| `Checksum.LaneXorOfOne` | src/net/coder/tinypb_coder.cc:175-190 | a single byte among zeros changes the lane of its position modulo four, and no other |
| `Checksum.LaneXorLinear` | src/net/coder/tinypb_coder.cc:175-190 | the lane sums of a byte-wise XOR of two frames are the XOR of their lane sums |
| `Checksum.AcceptedExactlyWhen` | src/net/coder/tinypb_coder.cc:192-199 | an altered good frame is accepted exactly when the difference pattern satisfies the checksum by itself |
| `Checksum.BurstRejected` | src/net/coder/tinypb_coder.cc:192-199 | a good frame altered anywhere within four consecutive bytes clear of the checksum field is rejected |
| `Checksum.FieldAlterationRejected` | src/net/coder/tinypb_coder.cc:192-199 | a good frame altered in the checksum field alone is rejected |
| `Buffering.TcpBuffer.constructor` | src/net/tcp/tcp_buffer.cc:9-11 | an empty buffer of the given size |
| `Buffering.TcpBuffer.ResizeBuffer` | src/net/tcp/tcp_buffer.cc:50-64 | the unread bytes stay the same, from index 0 of a new array of the size asked for; nothing changes if they would not fit |
| `Buffering.TcpBuffer.ShiftBuffer` | src/net/tcp/tcp_buffer.cc:66-73 | the unread bytes stay the same; they move to index 0 if and only if the read index has reached half of the size |
| `Buffering.TcpBuffer.WriteToBuffer` | src/net/tcp/tcp_buffer.cc:24-33 | acts as append on the unread bytes; the indices stay if there was room, and otherwise the size becomes twice the bytes held with these at index 0; says how many bytes were moved |
| `Buffering.TcpBuffer.ReadFromBuffer` | src/net/tcp/tcp_buffer.cc:35-47 | returns a prefix of the unread bytes and drops just that prefix; a read index at or past the middle goes back to 0 |
| `Buffering.TcpBuffer.MoveReadIndex` | src/net/tcp/tcp_buffer.cc:83-95 | drops a prefix of the unread bytes; both indices are 0 when all are dropped, and the read index is never left at or past the middle |
| `Buffering.TcpBuffer.MoveWriteIndex` | src/net/tcp/tcp_buffer.cc:98-105 | appends the bytes behind the write index exactly if fewer than the free space are announced, and changes nothing otherwise |
| `Buffering.RunCost` | src/net/tcp/tcp_buffer.cc:24-95 | over every run from an empty buffer of size other than 1, bytes moved plus the credit left are at most twice the bytes added plus twice the bytes taken |
| `Buffering.AmortisedCost` | src/net/tcp/tcp_buffer.cc:24-95 | bytes moved are at most twice the bytes written plus twice the bytes consumed over all runs from an empty buffer if and only if its first size is not 1 |
| `Buffering.NudgeCost` | src/net/tcp/tcp_buffer.cc:66-95 | a buffer of size 1 moves its byte again at each call of moveReadIndex with 0: k calls, k bytes moved |
| `Buffering.BytesConserved` | src/net/tcp/tcp_buffer.cc:24-105 | over every run the bytes added are the bytes taken and the bytes left |
| `Buffering.Replay` | src/net/tcp/tcp_buffer.cc:24-95 | the class driven through any operations holds the bytes that the same operations leave of a plain sequence, and has moved as many bytes as the cost model says |
| `Frames.FrameIsLaidOut` | src/net/coder/tinypb_coder.cc:115-164 | bytes are the frame of a message if and only if they have the layout written out: the markers 2 and 3, each length word and the error code big-endian at its place, each field behind its length, and lane sums that vanish but for the field |
| `Frames.ParseOfFrame` | src/net/coder/tinypb_coder.cc:46-111 | the frame of a message has its markers and its length word, and parses to the message |
| `Frames.FrameOfParse` | src/net/coder/tinypb_coder.cc:46-111 | a delimited frame that parses is byte for byte the frame of what it parses to |
| `Frames.ParsesExactlyFrames` | src/net/coder/tinypb_coder.cc:46-164 | bytes are delimited and parse to m if and only if they are the frame of m |
| `Frames.UndefinedExactlyWhen` | src/net/coder/tinypb_coder.cc:54-97 | parsing a frame is undefined if and only if the first of its three length words that the decoder cannot step over has its sign bit set or ends its field beyond 2^31 - 1 |
| `Frames.AlteredFrameIsRefused` | src/net/coder/tinypb_coder.cc:105-108 | an encoded frame altered within four consecutive bytes clear of its checksum field, or in that field alone, yields no message |
| `Streams.WildExactlyWhen` | src/net/coder/tinypb_coder.cc:24-64 | a pass has no defined behaviour if and only if a start marker announces a negative length, or a frame is there with its end marker and has such a length word inside |
| `Streams.TurnShape` | src/net/coder/tinypb_coder.cc:24-48 | a pass leaves what it found at the first start marker, less exactly the announced length, and returns only on an incomplete frame |
| `Streams.ProgressExactlyWhen` | src/net/coder/tinypb_coder.cc:24-44 | a pass that goes on consumes a byte beyond the noise if and only if the length word is not 0; on 0 the same pass repeats for ever |
| `Streams.ZeroLengthStalls` | src/net/coder/tinypb_coder.cc:34-43 | the five bytes 02 00 00 00 00 keep the decoder where it is |
| `Streams.Leftover` | src/net/coder/tinypb_coder.cc:24-37 | what is left is a suffix of the input that is empty or begins with 0x02 and is an incomplete frame |
| `Streams.LeftoverIsStable` | src/net/coder/tinypb_coder.cc:22-113 | decoding the leftover again yields nothing and leaves it |
| `Streams.TurnAppend` | src/net/coder/tinypb_coder.cc:24-112 | bytes that come later do not change a pass that did not return |
| `Streams.DecodeAppend` | src/net/coder/tinypb_coder.cc:22-113 | for every cut in two, decoding the pieces in turn is decoding the whole, and the whole is in the decoder's domain if and only if the pieces are |
| `Streams.ChunkIndependence` | src/net/coder/tinypb_coder.cc:22-113 | two ways of cutting a stream give the same messages and the same leftover, those of one decode of the whole |
| `Streams.TurnOfFrame` | src/net/coder/tinypb_coder.cc:24-112 | with any noise before it and anything behind it, a frame is decoded first and the rest is left |
| `Streams.StreamRoundTrip` | src/net/coder/tinypb_coder.cc:11-164 | frames with runs of bytes other than 0x02 before, between and after them decode to exactly their messages and nothing is left |
| `Streams.CanonicalForm` | src/net/coder/tinypb_coder.cc:46-111 | the messages decoded have their frames in the stream, byte for byte, in order and without overlap |
| `Streams.SourcedShort` | src/net/coder/tinypb_coder.cc:46-111 | no decoded message has a frame longer than the stream |
| `Coding.TinyPBProtocol.Complete` | include/rapidrpc/net/coder/tinypb_protocol.h:46-50 | the length field is 26 plus the four field sizes |
| `Coding.Fill` | include/rapidrpc/net/coder/tinypb_protocol.h:22-50 | setting all fields and completing gives the message with every length field in agreement |
| `Coding.EncodeMessage` | src/net/coder/tinypb_coder.cc:115-164 | the bytes are the frame of the message under its id, or under 123456 if it has none, and the object's derived fields agree; byte by byte: markers, length words with their weights, fields and checksum lie where the layout says |
| `Coding.Encode` | src/net/coder/tinypb_coder.cc:11-20 | the buffer gains exactly the frames of the messages in order |
| `Coding.EncodingAppend` | src/net/coder/tinypb_coder.cc:11-20 | encoding a list in two parts is encoding it whole |
| `Coding.ParsePackage` | src/net/coder/tinypb_coder.cc:49-111 | a message comes of a complete frame exactly if it parses, with the parsed fields and their lengths |
| `Coding.DecodeTurn` | src/net/coder/tinypb_coder.cc:24-112 | one pass over the buffer is one turn of the stream description |
| `Coding.Decode` | src/net/coder/tinypb_coder.cc:22-113 | ends on every stream in the domain, puts out exactly the messages of the stream description and leaves exactly its rest in the buffer |
| `RoundTrips.EncodeThenDecode` | src/net/coder/tinypb_coder.cc:11-164 | decoding what was encoded gives the same messages, an empty id replaced by 123456, and leaves nothing |
| `RoundTrips.CanonicalForm` | src/net/coder/tinypb_coder.cc:46-164 | a message decoded with a non-empty id stands in the stream as exactly the bytes encodeMessage makes of it, from 0x02 to 0x03 |
| `RoundTrips.Receive` | src/net/coder/tinypb_coder.cc:22-113 | a buffer to which chunks are appended, with a decode after each, yields the messages of the joined stream and keeps its leftover, however it was cut |
| `TaskQueue.InvStep` | src/net/eventloop.cc:107-165 | every step of a producer or the loop keeps the queue invariant |
| `TaskQueue.OrderKept` | src/net/eventloop.cc:107-165 | in every interleaving, tasks dequeued, the rest of the batch and the pending tasks are all tasks ever pushed, in order |
| `TaskQueue.AtMostOneWait` | src/net/eventloop.cc:107-165 | in every interleaving, no queued task has waited through more than one epoll_wait |
| `TaskQueue.SilentWaitExactlyWhen` | src/net/eventloop.cc:107-165 | over every run the loop waits with a task pending and no signal left if and only if a task was pushed after the last swap and nothing was signalled after the eventfd was last cleared |
| `TaskQueue.SilentWaitNeedsClear` | src/net/wakeup_fd_event.cc:21-33 | a signalled task never meets such a wait unless the eventfd is cleared after its signal |
| `TaskQueue.BlocksWithWorkPending` | src/net/wakeup_fd_event.cc:21-33 | a run in which the wakeup handler clears the signal of a later task and the loop blocks with that task pending |
| `Reactor.EventLoop.AddEpollEvent` | src/net/eventloop.cc:185-206 | in the loop thread the fd is registered with its current events, from another thread a task that does so is pushed and signalled |
| `Reactor.EventLoop.DeleteEpollEvent` | src/net/eventloop.cc:208-227 | the same for removing a registration |
| `Reactor.EventLoop.AddTask` | src/net/eventloop.cc:230-237 | the task is pending behind all others, signalled if asked |
| `Reactor.EventLoop.Stop` | src/net/eventloop.cc:174-177 | the flag is set and the loop signalled, the queues stay |
| `Reactor.EventLoop.RunFront` | src/net/eventloop.cc:117-124 | the first task of the batch is taken and, if it is one of the loop's own, carried out on the registrations |
| `Reactor.HandlersReported` | src/net/eventloop.cc:134-162 | for each report in turn: the reading callback if the fd is readable, the writing one if it is only writable, an empty task where the callback is missing, and nothing for any other report |
| `Reactor.EventLoop.QueueReady` | src/net/eventloop.cc:134-162 | what is queued behind the pending tasks is just that, report by report |
| `Reactor.LeftHolds` | src/net/eventloop.cc:109-164 | what a turn leaves holds every task pushed in it, and the callback of every fd reported readable, or writable and not readable |
| `Reactor.EventLoop.Iterate` | src/net/eventloop.cc:109-164 | a turn runs exactly the tasks pending when it began, in order, and leaves those pushed meanwhile, in order; the callbacks of the fds that its wait reports are pending when it ends |
| `Reactor.EventLoop.Loop` | src/net/eventloop.cc:107-165 | the loop takes its turns until it is stopped; it has run, in order, all that was pending when it began and all that each turn but the last left, and what the last turn left is pending |
| `Transducer.ResponseAppend` | src/net/tcp/tcp_connection.cc:107-126 | answering a stream in two pieces is answering it whole, in the domain exactly when both pieces are |
| `Transducer.Transduces` | src/net/tcp/tcp_connection.cc:47-208 | in every run, bytes sent and bytes still to be sent are the encoded answers to the messages decoded from all bytes received |
| `Transducer.AnyCutIsARun` | src/net/tcp/tcp_connection.cc:47-126 | a stream can be received in pieces if and only if it can be answered whole |
| `Sockets.NothingRefusedExactlyWhen` | src/net/tcp/tcp_connection.cc:55-90 | bytes handed over by the kernel are lost if and only if a read fills the free space to the last byte |
| `Sockets.RefusedOrAdmitted` | src/net/tcp/tcp_connection.cc:55-90 | the bytes that the kernel hands over in a call are those refused followed by those admitted, and a call that fails or finds the end of the stream admits nothing |
| `Sockets.AdmittedIsShort` | src/net/tcp/tcp_connection.cc:55-90 | the bytes admitted in one call never fill the free space |
| `Sockets.EndingDecides` | src/net/tcp/tcp_connection.cc:55-90 | the first answer that does not fill the room decides: its bytes are admitted, an error ends the series as failed, and the end of the stream, and nothing else, as closed |
| `Sockets.FillFrom` | src/net/tcp/tcp_connection.cc:55-90 | the read loop against any answers of the kernel: what is admitted, what is refused and how it ends |
| `Sockets.TakenAsOffered` | src/net/tcp/tcp_connection.cc:168-198 | a series of writes takes all that the kernel would take before it has no room or fails, or all there is; it ends as failed if and only if the kernel fails first and not all was taken |
| `Sockets.DrainTo` | src/net/tcp/tcp_connection.cc:168-198 | the write loop against any answers of the kernel: the bytes handed to write are the first of the unread bytes, as many as the kernel took, and the rest stays |
| `Connections.TcpConnection.constructor` | src/net/tcp/tcp_connection.cc:21-40 | a server connection that listens for input and has received nothing |
| `Connections.TcpConnection.ListenReadEvent` | src/net/tcp/tcp_connection.cc:241-244 | the fd wants to be read as well, and epoll knows it when called in the loop thread |
| `Connections.TcpConnection.ListenWriteEvent` | src/net/tcp/tcp_connection.cc:236-239 | the fd wants to be written as well, and epoll knows it |
| `Connections.TcpConnection.OnRead` | src/net/tcp/tcp_connection.cc:47-104 | the connection after a read is the one described: bytes admitted are received, decoded and answered, bytes that fill the buffer are refused, the indices are where decoding leaves them, and the end of the stream closes it |
| `Connections.TcpConnection.Execute` | src/net/tcp/tcp_connection.cc:107-126 | the out buffer gains the encoded answers to the complete requests, the in buffer keeps the leftover, and writing is asked for |
| `Connections.TcpConnection.DispatchAll` | src/net/tcp/tcp_connection.cc:119-123 | a fresh response for each request, in order |
| `Connections.TcpConnection.OnWrite` | src/net/tcp/tcp_connection.cc:144-198 | sends exactly what the kernel takes; a write that drains the buffer clears the interest in writing and keeps that in reading, any other leaves both |
| `Connections.TcpConnection.Shutdown` | src/net/tcp/tcp_connection.cc:217-230 | half-closes a connected connection and gives its registration up |
| `Connections.WriteSends` | src/net/tcp/tcp_connection.cc:144-198 | a write sends exactly what the kernel would take, from the front of the unsent bytes, and all of them if that is more |
| `Connections.ClosedExactlyWhen` | src/net/tcp/tcp_connection.cc:47-104 | a read closes the connection if and only if the kernel reports the end of the stream before reading pauses |
| `Connections.TasksDescribed` | src/net/tcp/tcp_connection.cc:47-208 | over every run of read and write tasks, bytes sent and bytes still to be sent are the encoded answers to all bytes received |
| `Connections.AllReceived` | src/net/tcp/tcp_connection.cc:47-104 | over every run, as long as the connection lives and nothing was refused, the bytes received are exactly those the kernel offered |
| `Connections.ServedStream` | src/net/tcp/tcp_connection.cc:47-208 | so after any such run of a new connection the bytes sent and still to be sent are the encoded answers to all bytes offered |
| `Connections.AllAnswersSent` | src/net/tcp/tcp_connection.cc:47-208 | after every run without a refused byte, a write for whose bytes the kernel has room leaves sent exactly the encoded answers to the messages in all bytes offered |
| `Connections.Serve` | src/net/tcp/tcp_connection.cc:47-208 | the object that runs tasks ends in the state that those tasks lead to, with its buffers, its bytes of both directions and those refused; it stops only at a task without defined behaviour, and a non-empty out buffer means that epoll waits to write |
| `Connections.WholeFrameExactlyWhen` | src/net/tcp/tcp_connection.cc:55-90 | a frame offered whole to a connection with nothing unread is decoded if and only if it is shorter than the space behind the write index; otherwise bytes of it are refused |
| `Connections.LongFramesNeverComplete` | src/net/tcp/tcp_connection.cc:55-90 | over every run no message is decoded whose frame is as long as the in buffer, or longer |
| `InputRoom.FrameAfterNoise` | src/net/tcp/tcp_buffer.cc:83-95 | after an input of noise alone, every frame shorter than the buffer that comes whole is received and answered |
| `InputRoom.SecondFrameExactlyWhen` | src/net/tcp/tcp_buffer.cc:66-105 | of two frames that come whole to a new connection the second is answered too if and only if the first reached the middle of the buffer and the second is shorter than the buffer, or both together are; otherwise bytes of the second are refused |
| `InputRoom.FrameLost` | src/net/tcp/tcp_connection.cc:55-90 | a frame that comes whole to a connection with nothing unread and is not shorter than the room is cut to the room and refused, and nothing else changes |
| `Connections.OfferWhole` | src/net/tcp/tcp_connection.cc:47-126 | the same of the object: a frame shorter than that space is answered, and of any other bytes are lost |
| `Clients.StillWaiting` | src/net/tcp/tcp_connection.cc:133-140 | a read callback is still registered exactly if no message with its id has come |
| `Clients.CalledOnceForTheFirst` | src/net/tcp/tcp_connection.cc:133-140 | each read callback runs at most once, and for the first message with its id |
| `Clients.CalledWheneverMentioned` | src/net/tcp/tcp_connection.cc:133-140 | it does run when a message with its id comes |
| `Clients.DeliverAppend` | src/net/tcp/tcp_connection.cc:128-141 | messages delivered in two parts run the same callbacks as when they come at once |
| `Clients.EncodedOnceExactlyWhen` | src/net/tcp/tcp_connection.cc:144-208 | over every run of queueing and writing, each message handed over is encoded exactly once if and only if no write failed hard while messages were queued, and then in the order of queueing |
| `Clients.SentTwice` | src/net/tcp/tcp_connection.cc:149-208 | the run that encodes a message twice |
| `Clients.FrameSentTwice` | src/net/tcp/tcp_connection.cc:149-208 | on the wire: after a hard error and a write that succeeds, the frame of one queued message has been sent twice and its callback run once |
| `Clients.WriteSends` | src/net/tcp/tcp_connection.cc:144-198 | a write sends exactly what the kernel would take of the unsent bytes and the frames queued behind them, from the front |
| `Clients.WriteCalls` | src/net/tcp/tcp_connection.cc:149-208 | if the kernel fails before all is taken the queue stays and no callback runs; otherwise the queue is empty and each callback has run once, in order, for its message under the id it was sent with |
| `Clients.ClosedExactlyWhen` | src/net/tcp/tcp_connection.cc:47-104 | a read closes the connection if and only if the kernel reports the end of the stream before reading pauses |
| `Clients.RunTold` | src/net/tcp/tcp_connection.cc:144-208 | over every run of a client's tasks, bytes sent and bytes still to be sent are the frames of what was encoded, and what was encoded follows from the queueing and the writes |
| `Clients.SentInOrder` | src/net/tcp/tcp_connection.cc:144-208 | so if no write failed hard while messages were queued, the bytes are the frames of the messages handed over, each once, in the order of queueing |
| `Clients.AllRequestsSent` | src/net/tcp/tcp_connection.cc:144-208 | after every run without a hard failure, a write with room for all leaves sent exactly the frames of all messages handed over, in order |
| `Clients.ClientConnection.WriteMessage` | src/net/tcp/tcp_client.cc:112-120 | the message is queued behind the others and writing is asked for |
| `Clients.ClientConnection.ReadMessage` | src/net/tcp/tcp_client.cc:123-130 | the callback is registered under the id, replacing an earlier one, and reading is asked for |
| `Clients.ClientConnection.OnWrite` | src/net/tcp/tcp_connection.cc:144-208 | the connection after a write is the one described: what the kernel takes is sent, the queue is encoded, and unless the kernel fails hard each write callback runs once, in order, with its message as encoded; once all is sent writing is no longer asked for |
| `Clients.ClientConnection.OnRead` | src/net/tcp/tcp_connection.cc:47-142 | the connection after a read is the one described: the callbacks of the replies run as Deliver says and the leftover stays; at the end of the stream the registration is given up |
| `Clients.Use` | src/net/tcp/tcp_connection.cc:47-208 | the object that runs queueing, registering, read and write tasks ends in the state that those tasks lead to, and stops only at a task without defined behaviour |
| `EndToEnd.RunHears` | src/net/tcp/tcp_connection.cc:47-142 | over every run of a client's tasks, however its input is cut, the replies decoded are those in all bytes admitted |
| `EndToEnd.CallsInRun` | src/net/tcp/tcp_connection.cc:128-141 | over every run, if the replies have different ids and each finds its callback registered when it is decoded, the read callbacks run are those registered for the replies, in their order |
| `EndToEnd.RepliesAreAnswers` | src/net/tcp/tcp_connection.cc:47-208 | for a client and a server that have run any tasks, each having received part of what the other sent: the replies decoded are what was dispatched for the first of the requests, in order, and for all of them once everything has been carried |
| `EndToEnd.AnsweredInTime` | src/net/rpc/dispatcher.cc:38-41 | the same for any two runs whose streams fit at the end, if each reply finds its callback registered |
| `EndToEnd.JointIsLinked` | src/net/tcp/tcp_connection.cc:47-208 | in every joint run each side has run its own tasks and has received part of what the other has sent |
| `EndToEnd.RepliesInTime` | src/net/tcp/tcp_connection.cc:128-141 | in every joint run no reply comes before its request is handed over, so a client that registers callbacks before its next read has every reply find its callback |
| `EndToEnd.AwaitsFirstKeepsUp` | src/net/tcp/tcp_client.cc:112-130 | registering the callback of each request ahead of queueing the request is one way to do so |
| `EndToEnd.EachCallAnswered` | src/net/rpc/dispatcher.cc:38-41 | for a client and a server running at once, each reading only what the other has sent: with different ids, kept by the dispatcher, and each callback registered before the first read after its request is handed over, the read callbacks run are those of the first requests, in order, each once and for what was dispatched for its own request; and those of all requests when everything has been carried |
| `TimerSpec.SortSorted` | src/net/timer.cc:118-120 | inserting the entries one by one gives a sorted permutation of the bag |
| `TimerSpec.SortStable` | src/net/timer.cc:118-120 | entries with the same arrival stay in the order in which they were inserted |
| `TimerSpec.FilterSort` | src/net/timer.cc:38-46 | selecting from the sorted list is sorting the selection |
| `TimerMachine.MinKeyIsLeast` | src/net/timer.cc:83 | the least key is a key of the bag and a lower bound of all |
| `TimerMachine.ArmedRightIsFor` | src/net/timer.cc:67-99 | the timer is right if and only if it is disarmed with nothing pending, and otherwise set to the earliest arrival when that lies after the last reset, else to 100 ms after that reset, and always after it |
| `TimerMachine.StepArmed` | src/net/timer.cc:67-154 | every add, delete, cancellation and step of onTimer whose reset is not overtaken keeps the kernel timer armed as it should be |
| `TimerMachine.AlwaysArmedRight` | src/net/timer.cc:67-154 | over every run of calls one after the other the timer is disarmed exactly if nothing is pending; otherwise it is set after the last reset, to the earliest arrival if that lies after it and else to 100 ms after it |
| `TimerResets.RaceIsRun` | src/net/timer.cc:67-158 | however the edits, looks and settings of several threads interleave, the events, the entries and what has run are those of a run of the machine |
| `TimerResets.ArmedExactlyWhen` | src/net/timer.cc:67-99 | over every such race, once no reset is under way, the kernel timer is armed for the earliest arrival if and only if it was last set for the arrival looked up last, or for one that comes to the same setting; a caller can check the first half, by the order of the parts (`TimerResets.ArmedInTurn`), while the second compares the two settings |
| `TimerResets.ArmedInTurn` | src/net/timer.cc:67-99 | so it is armed so in every race in which no thread sets it after another has looked in between |
| `TimerResets.CallInOnePiece` | src/net/timer.cc:67-158 | a call that is not interleaved with others is the step of the machine |
| `TimerResets.ResetOvertaken` | src/net/timer.cc:71-95 | two threads add, and the reset of the one with the later event comes last: both calls are over and the earlier event is not waited for |
| `TimerHistory.BatchCount` | src/net/timer.cc:38-45 | a scan collects each due entry of an event that is not cancelled once, and none of one that is |
| `TimerHistory.OneShotRunsOncePerAdd` | src/net/timer.cc:28-65 | over every run the task of an event that does not repeat has run at most once per add |
| `TimerHistory.TaskKept` | include/rapidrpc/net/timer_event.h:30-46 | an event has its task exactly as long as nothing cancelled or deleted it, whatever value was set |
| `TimerHistory.CanceledAsLastSet` | include/rapidrpc/net/timer_event.h:30-46 | over every run an event is cancelled just as the last cancel or delete of it says |
| `TimerHistory.ArrivesAfterInterval` | src/net/timer.cc:52-58 | over every run a repeating event arrives one interval after the clock when it was put back last, and any other event when it did at first |
| `TimerHistory.CancelledNeverRuns` | src/net/timer.cc:59-64 | after a cancel or delete the task does not run again in any continuation, not even later in the same batch |
| `TimerHistory.PendingAsOftenAsAdded` | src/net/timer.cc:37-58 | a repeating event never cancelled is pending or about to be put back exactly as often as it was added, and no event is pending more often |
| `TimerHistory.RepeatingPendingOnce` | src/net/timer.cc:37-58 | between calls of onTimer, a repeating event added once and never cancelled is pending exactly once |
| `TimerHistory.DeleteLeavesNothingExactlyWhen` | src/net/timer.cc:131-154 | a delete leaves nothing of an event pending if and only if it was pending at most once and under its present arrival |
| `TimerHistory.DeleteLeavesNothing` | src/net/timer.cc:131-154 | over every run that condition holds of an event added at most once |
| `TimerBatch.BatchExact` | src/net/timer.cc:38-45 | an event is in the batch if and only if it is not cancelled and an entry of it is due |
| `TimerBatch.BatchInOrder` | src/net/timer.cc:37-45 | the batch is picked from the due entries in the order of their arrivals and then of insertion |
| `TimerBatch.ScanKeepsTheRest` | src/net/timer.cc:38-46 | every entry not yet due stays pending, as often as before, and no other does |
| `TimerBatch.PrefixScan` | src/net/timer.cc:38-46 | walking the sorted list up to the first entry not yet due gives the batch of the bag, and what is left is the sorted rest of the bag |
| `TimerBatch.OnTimerRunsTheChosen` | src/net/timer.cc:28-65 | one call runs exactly the tasks of the batch that nothing cancelled ahead of their turn, once each, by arrival and then insertion order, whatever other threads and the tasks themselves do in between |
| `TimerBatch.OneShotInCall` | src/net/timer.cc:28-65 | a one-shot event that no task touches is taken out by a call of onTimer and run, if it has its task, exactly if it is due, and is left as it is otherwise |
| `TimerTurns.TurningIsRun` | src/net/timer.cc:59-64 | however the calls of other threads fall between the two reads of a task, the timer is in the state of a run of the machine, in which a turn is one step |
| `TimerTurns.EmptyCallExactlyWhen` | src/net/timer.cc:59-64 | over every run an empty function is called if and only if another thread has cancelled or deleted the event after its task was found and before it is called |
| `TimerTurns.CancelledBetweenLooks` | include/rapidrpc/net/timer_event.h:30-46 | the run that shows it, for any event with a task whose turn it is |
| `Timers.SortWithout` | src/net/timer.cc:139-149 | erasing an entry from the list is erasing it from the bag |
| `Timers.TimerEvent.constructor` | src/net/timer_event.cc:9-17 | a new event arrives one interval after now and is not cancelled |
| `Timers.Timer.ResetTimer` | src/net/timer.cc:67-99 | disarms the timer if nothing is pending, and otherwise sets it to the first entry's arrival if that is ahead, else to now + 100 |
| `Timers.Timer.AddTimerEvent` | src/net/timer.cc:101-129 | one Add step of the machine; the kernel timer is set, to the arrival or to now + 100, if and only if the event comes ahead of all pending ones, and is otherwise left as it was |
| `Timers.Timer.Erase` | src/net/timer.cc:139-149 | finds and erases the entry of this very event, if there is one under its arrival |
| `Timers.Timer.DeleteTimerEvent` | src/net/timer.cc:131-158 | one Delete step of the machine; the kernel timer is set again if and only if an entry was erased and none with its arrival is first |
| `Timers.Timer.Collect` | src/net/timer.cc:34-46 | the events returned are the batch of the bag, and the list is the sorted rest |
| `Timers.Timer.OnTimer` | src/net/timer.cc:28-65 | the whole call is a run of the machine made of one scan, one refile per event, one turn per event with the calls its task made, and the tasks run are the chosen ones |
| `RpcCompletion.ReadDecides` | src/net/rpc/rpc_channel.cc:106-138 | of the messages in one read, the first with the request's id completes the call and no other does |
| `RpcCompletion.FirstDecides` | src/net/rpc/rpc_channel.cc:74-140 | in every interleaving without a failed connect, done has run once if the timer has expired or a reply was read after sending, and not otherwise; the first of them decides: a timeout leaves the call cancelled with 10000007 and its text, a reply with an error code leaves that code and text, one that does not parse 10000003, and one that does the parsed response and no error; and the client has been closed |
| `RpcCompletion.CompletedForGood` | src/net/rpc/rpc_channel.cc:74-140 | once the call has completed, no continuation of the run changes the flag, the error, the response or the count of done, and the client stays closed |
| `RpcCompletion.CompletesTwiceExactlyWhen` | src/net/rpc/rpc_channel.cc:74-101 | over every run the call completes more than once, and then twice, if and only if the connect fails and the timer expires, in either order |
| `RpcCompletion.LastFailureTold` | src/net/rpc/rpc_channel.cc:74-101 | over every run in which connecting never succeeds, the error is that of the last completion, the call is cancelled once the timeout has been one, and the response is untouched |
| `RpcCompletion.FailureThenTimeout` | src/net/rpc/rpc_channel.cc:90-101 | the run that runs done twice |
| `Channels.RpcChannel.MakeRequest` | src/net/rpc/rpc_channel.cc:28-44 | the request has the controller's id if there is one, else the next generated one, which the controller then has: one above the last, or the digits drawn at a reseed, or empty when they cannot be read |
| `Channels.RpcChannel.CallMethod` | src/net/rpc/rpc_channel.cc:23-142 | a call that cannot start fails with 10000011 on a channel not initialised or 10000004 on a request that does not serialize, and runs done; one that starts, with a request or without one, has a stamped request message, its timeout in the timer under the arrival after the controller's delay, and a connection with nothing queued |
| `Channels.RpcChannel.HeldAsTold` | src/net/rpc/rpc_channel.cc:74-141 | a request is unsent exactly if the connection has it queued, a reply awaited exactly if the connection has a callback for its id, and the timeout pending exactly if the timer's list has it |
| `Channels.RpcChannel.Expire` | src/net/rpc/rpc_channel.cc:74-85 | the timeout completes the call as cancelled with 10000007 and a text that names id, method, peer and milliseconds, and closing the client stops the loop |
| `Channels.ToStringSpells` | src/net/rpc/rpc_channel.cc:82 | the milliseconds in that text are digits without leading zeros that spell the number, with a minus ahead of a negative one |
| `Channels.RpcChannel.Report` | src/net/rpc/rpc_channel.cc:88-104 | a failed connect completes the call and closes the client, a successful one has the connection queue the request |
| `Channels.RpcChannel.Receive` | src/net/rpc/rpc_channel.cc:106-139 | the reply drops the timeout's task, completes the call with the reply's error code and text, the parsed response, or 10000003, and closes the client |
| `Channels.DeliverIsRead` | src/net/rpc/rpc_channel.cc:106-108 | what the connection delivers to the callback of the reply is what completes the call |
| `Channels.RpcChannel.OnWrite` | src/net/rpc/rpc_channel.cc:104-108 | a write of the connection that hands the request over, and no other, has the reply awaited under its id |
| `Channels.RpcChannel.OnRead` | src/net/rpc/rpc_channel.cc:108-138 | what the connection decodes from the bytes it reads is one read of the machine, and the connection ends as reading leaves it |
| `Channels.RpcChannel.OnTimer` | src/net/rpc/rpc_channel.cc:74-86 | a call of the timer's onTimer, with any other events in it, runs the timeout exactly if it is pending, due and has its task, and is the expiry of the machine |
| `Sessions.SessionIsRun` | src/net/rpc/rpc_channel.cc:74-141 | every run of the loop's tasks on a connection and a timer is a run of the machine, with the steps that the bytes read and written and the clock give |
| `Sessions.SessionDecided` | src/net/rpc/rpc_channel.cc:74-141 | so whichever comes first, the timer at or after the deadline or a reply decoded after the request was handed over, has decided unless connecting failed |
| `Sessions.SessionCompletesTwice` | src/net/rpc/rpc_channel.cc:74-101 | the call completes at most twice, and twice if and only if connecting fails and the timer runs at or after the deadline |
| `Sessions.Run` | src/net/rpc/rpc_channel.cc:74-142 | channel, connection and timer that run tasks end in the state that those tasks lead to, and stop only at a task that cannot be run |
| `Sessions.Call` | src/net/rpc/rpc_channel.cc:23-142 | a whole call on the objects: started, run through any tasks in any order, and decided by whichever comes first unless connecting failed |
| `LogPipeline.StepInOrder` | src/common/log.cc:63-97 | every step keeps what is written and what is on its way equal to what was logged |
| `LogPipeline.NothingLostNothingOvertaken` | src/common/log.cc:63-97 | in every interleaving with one syncer at a time, text written, the batch in hand, queued batches, the swapped vector and the buffer are all messages in the order in which they were logged |
| `LogPipeline.OrderKeptExactlyWhen` | src/common/log.cc:63-97 | over every run that logs different non-empty messages, their order is kept if and only if every vector swapped out was handed over ahead of those swapped out later |
| `LogPipeline.TwoSyncersOvertake` | src/common/log.cc:63-72 | two syncers at once can hand the later messages to the writer first |
| `LogPipeline.NothingLostNothingDoubled` | src/common/log.cc:63-97 | with any number of syncers every message is written once or still on its way |
| `LogPipeline.AllWrittenAtExit` | src/common/log.cc:198-286 | once all has been handed over and nothing more is logged, everything has been written, in order, when the writer exits |
| `LogPipeline.EachBatchInOneFile` | src/common/log.cc:215-260 | in every run each batch is written wholly to one file |
| `LogPipeline.FilesAlwaysFollow` | src/common/log.cc:226-253 | over every run, batch by batch: the file is number 0 of the new day if and only if the day differs from the file before, its successor by number if and only if the day is the same and the size at the opening has reached the limit, and the same file otherwise |
| `Loggers.AsyncLogger.ChooseFile` | src/common/log.cc:226-253 | opens the file for the batch: the date becomes today's, the number 0 on another day, one more on the same day if the size has reached the limit, and stays otherwise |
| `Loggers.AsyncLogger.Round` | src/common/log.cc:201-262 | one round takes the oldest batch and writes its non-empty messages to one file, step for step as the machine does |
| `Loggers.AsyncLogger.FinishBatch` | src/common/log.cc:217-262 | a writer in the middle of a batch finishes it step for step as the machine does |
| `Loggers.Logger.PushLog` | src/common/log.cc:154-164 | the message joins the buffer, or goes to the standard output of a synchronous logger |
| `Loggers.Logger.SyncLogs` | src/common/log.cc:63-72 | all that was in the buffer is one batch at the end of the writer's queue, whatever other syncers hold |
| `Loggers.Logger.Join` | src/common/log.cc:198-213 | a stopped writer, in the middle of a batch or not, empties its queue and exits, and the order is kept if it was |
| `Loggers.Logger.FlushAndStop` | src/common/log.cc:85-97 | afterwards every message ever logged is written once, except those that another syncer still holds, each batch in one file; and in order if the order was kept and nobody holds any |
| `MessageIds.NinesAreLargest` | src/common/msg_id_util.cc:12-17 | nothing but nines spells the largest number of its length |
| `MessageIds.NumberInjective` | src/common/msg_id_util.cc:15-49 | ids of the same length that spell the same number are equal |
| `MessageIds.CarryStops` | src/common/msg_id_util.cc:36-47 | a digit below nine raised by one with zeros for the nines behind it spells one more |
| `MessageIds.ReseedsExactlyAtTheEnd` | src/common/msg_id_util.cc:17 | a thread that has an id draws a new one exactly when no number of 20 digits comes next |
| `MessageIds.MsgIdUtil.GenMsgId` | src/common/msg_id_util.cc:15-50 | without a reseed the number goes up by exactly one, the last digit below nine raised and the nines behind it zero; a reseed, exactly when there is no id or it is all nines, takes the random bytes modulo ten as digits; a failed read gives the empty id and changes nothing |
| `MessageIds.MsgIdUtil.Increment` | src/common/msg_id_util.cc:34-47 | the carry loop in place raises the number by one, digit by digit as told, and never carries off the left end |
| `MessageIds.MsgIdUtil.Seed` | src/common/msg_id_util.cc:21-31 | the twenty digits are the random bytes modulo ten |
| `MessageIds.GenerateMany` | src/common/msg_id_util.cc:15-50 | the ids of calls without a reseed follow each other by one and are all distinct |

## Left out

- Buffer sizes and indices are unbounded integers; overflow of the `int` fields of `TcpBuffer` is not modelled, that of frame lengths is.
- `TcpBuffer.m_buffer` is an array of `m_size` bytes from the start; the code works in reserved memory of an empty vector, and the growth of a full in buffer by `m_buffer.size()`, which no run reaches, is modelled with the size.
- Messages of other protocol types, which `encode` skips, and `toString`; the logging inside the modelled functions.
- Connections.Serve: ends at the first input that the decoder or the encoder has no defined behaviour for; so do `Clients.Use` and `Sessions.Run`.
- Messages that do not fit the 32-bit length fields are outside the domain of the encoder.
- Dispatching is a fixed function from request to response; protobuf parsing, service lookup and generated code are not part of this model. Whether a response parses is part of the reply.
- Sockets, epoll, eventfd, timerfd, files, clocks and the random device answer as the caller of a method says; `epoll_ctl`, `timerfd_settime` and `fopen` succeed, and the handlers of the timer and the wakeup fd find their fd readable.
- Callbacks of a client connection are tokens, except those of the remote call, which `Channels.RpcChannel` runs; what other write callbacks add to the queue while the callbacks run is not modelled (the code would clear it), nor is the reuse of an fd number by another thread.
- Timers.Timer.OnTimer: calls made by other threads during the object's own `onTimer` are modelled in the machine (`TimerBatch.OnTimerRunsTheChosen`) but in the object only between the turns, as calls of the tasks; each call is one step, its locks are not. The two reads of a task are one step of the machine and of the object; `TimerTurns` has them apart.
- TimerMachine.AlwaysArmedRight: takes each call with its reset as one step, so it speaks of calls that are not interleaved; `TimerResets` has the parts of interleaved ones. There each edit is one part, also where the flag or the arrival of the event is set just before the lock is taken.
- TimerMachine.StepArmed: speaks of such steps, each with its reset, too.
- Reactor.EventLoop.Stop: sets the flag and the signal in one step.
- Channels.RpcChannel.CallMethod: the controller passed in is the one given to `Init`, and a channel is used for one started call, as the comment at src/net/tcp/tcp_client.cc:132 says. Cancelling by the caller through `StartCancel` is not a step, and a controller of another type, on which the code returns at once, is excluded by the type. A call without a request has no payload; that the debug log line at src/net/rpc/rpc_channel.cc:65-66 dereferences the missing request is not modelled.
- RpcCompletion.FirstDecides: the text of a timeout names the id under which the request is encoded; where none could be generated, the code's text has it only once the request has been encoded. Whether the loop runs already when connecting is reported to have failed is part of the report.
- Channels.RpcChannel.OnWrite: the callback of the request runs after the connection has cleared its queue, where the code runs it just before; it queues nothing.
- Channels.RpcChannel.OnTimer: the timeout's task runs after the turns of the other events of its batch, whose tasks are calls on the timer about other events; `TimerBatch.OnTimerRunsTheChosen` has the order.
- Channels.RpcChannel.Expire: closing the client closes the fd but leaves its registration as it is, as the code does; that the kernel drops a closed fd, and that the loop runs nothing more, is not used.
- Loggers.Logger.SyncLogs: the second half, for the application log, is the same code on its own buffer and writer. Failure to open a log file, which ends the process, and the text of a log line are left out, as is the buffer for the date at src/common/log.cc:222, which is static and so shared by the two writer threads: each writer has its own date here.
- MessageIds.GenerateMany: ids of different threads may coincide, since each thread draws its own start.
- EndToEnd.EachCallAnswered: says nothing of a reply whose callback is registered only after a later read; such a reply is dropped (`Clients.StillWaiting`).
- Configuration, address parsing, the acceptor, thread start-up, `IOThreadGroup`, `FdEventGroup`, `StringCoder`, `readn` and `writen`: input and output plumbing outside the properties above.
