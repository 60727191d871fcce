# libxio, modelled and verified in Dafny

libxio is a family of byte containers stacked on each other, with the socket plumbing around them.
This project models the layers whose correctness is not obvious from one function body, and proves
that each layer agrees with a plain byte sequence or byte queue over every run of its operations.

| file | models |
|---|---|
| Bytes.dfy | bytes, queues of pieces read one after the other, pieces written one over the other |
| SystemCalls.dfy | realloc, read, write, splice, tee: any answer the manual pages allow |
| Buffer.dfy | `Buffer` (growth, appends, move, swap) and `BufferSlice` |
| Fill.dfy | the fill loop of `Pipe::read(Buffer&)` and `Socket::read(Buffer&)` |
| Search.dfy | `find` and `split` |
| Numbers.dfy | `push_back(int)`, `toInt`, `atoi` |
| HexDump.dfy | `dump` |
| Runs.dfy | runs of any machine, and what they keep if every step does |
| Pipe.dfy, PipeRun.dfy | `Pipe`: a kernel queue and its user-space counter; whole runs of one |
| BufferStream.dfy, BufferStreamRun.dfy | `BufferStream`, and whole runs of one |
| ChunkFacts.dfy | a `ChunkedStream` as a value: what its operations do to the list of its chunks |
| Delivery.dfy | what arrives of a read from it, at one address and at a descriptor |
| Draining.dfy | the loop that drains it into a pipe |
| Chunks.dfy, ChunkedStream.dfy | `ChunkedStream`: a deque of buffers and pipes as one byte queue |
| ChunkedRun.dfy | whole runs of a `ChunkedStream` with all that it is connected to |
| FileCache.dfy | the file information cache and its inotify index |
| Handover.dfy | listener serialization and the `XZERO_LISTEN_FDS` parsers |
| FilterChain.dfy | `FilterStream::process` |
| Socket.dfy | the watcher and timer state machine of `Socket` |

Objects that the source updates in place are classes whose methods state their whole new state.
The memory block of a `Buffer` is a field holding a sequence, so its length is the capacity. A C
`char` is a character below 256. The bytes the kernel holds for a pipe, and the bytes waiting at or
sent to a descriptor, are sequences. A system call is a method whose contract leaves its count and
its errors open; its callers are proved against that contract. Ghost counters record what the
environment refused: `refusals` of a buffer counts the allocator's, `errors` of a pipe or stream the
kernel's, so an operation may do nothing only where one of them has gone up. Results named `granted`,
`got`, `moved`, `issues`, `lens` and the like are ghost too: they only say what happened.

A run is a sequence of operations with everything they touch: other pipes, descriptors, a buffer,
`char*` readers. Its theorem gives the observable state between any two operations, ties the first and
the last state to the objects, and relates neighbouring states by one predicate, `Does`, that fixes the
whole new state but for what the kernel and the allocator may decide. A read of a `ChunkedStream` goes
in turns, each from what is then the front chunk; the lengths of the turns are all the kernel decides,
so what leaves (`Gone`), what is sent (`Sent`) and what remains (`After`) are functions of them.

## Where the code falls short of the obvious claim

The model does what the code does. Where an expected property does not hold, the exact condition is proved.

- `setCapacity(0)` frees the block but keeps size and address, although its comment promises that the
  used size is cut down: the buffer stays well-formed iff the request was not zero, or there was no
  block, or nothing was stored (`Buffers.Buffer.SetCapacity`). A failed shrink has already cut the size.
  `reserve(0)` takes the same path, so `BufferStream::read(Buffer&)` of nothing into an empty buffer and
  `BufferStream::write(Pipe*)` of nothing into an empty stream free the block (`Usable` in their contracts).
- `ChunkedStream::read(char*)` reads every chunk to the same address. What is found there is right,
  whatever the bytes and whatever the kernel answers, iff the front chunk serves the request in one turn: a
  buffer by having all of it, or all that stands before the first empty chunk, a pipe only if that is one
  byte (`Delivery.ArrivesWholeIff`). A caller can see that before the call.
- `BufferStream::read(Pipe*)` and `read(int)` send from the start of the block instead of the read offset:
  right for all contents iff nothing had been read (`BufferStreams.SendsUnreadIffUntouched`). A
  `ChunkedStream` sends what leaves it, whatever the bytes and whatever the kernel answers, iff every chunk
  the request reaches is a pipe, or a buffer nothing has been read from that gives at most one byte
  (`Delivery.SendsRightIff`). While the kernel takes all it is offered, it is up to the front chunk alone
  (`Delivery.SendsRightAtFullCountsIff`).
- `ChunkedStream::read(Pipe*)` never ends at a pipe chunk with bytes in it, since `Pipe::read(Pipe*)`
  transfers nothing. As long as the kernel fails nothing, it ends iff no such chunk is in the way
  (`Draining.EndsIffDrainable`, `Draining.DrainableIff`); the loop itself is tied to that by
  `ChunkedStreams.ChunkedStream.TakePipe`.
- Moving from a pipe ignores the count: no more than that many bytes are taken, whatever the kernel answers,
  iff no more are there (`PipeRuns.MoveBoundedIff`, `ChunkFacts.MoveBoundedIff`).
- `ChunkedStream::write(Pipe*, n, COPY)` consumes the source: it leaves it alone, whatever the kernel
  answers, iff nothing is asked for or nothing is there (`ChunkFacts.CopyLeavesSourceIff`).
- A write of nothing to a new stream leaves an empty chunk at the front. No operation but `pop_front` ever
  gets a byte out again, whatever is written (`ChunkFacts.EmptyWriteBlocks`, `ChunkedRuns.BlockedForGood`);
  any other stream with an empty front can be filled there (`ChunkFacts.BlockedIff`).
- `read()` reports a byte of 255 as -1 although it has consumed it (`ChunkedRuns.ReadUntilEnd`).
- A pipe's counter exceeds the kernel's count by exactly the bytes taken through `read(Buffer&)` and
  `Socket::write(Pipe*)` (`PipeRuns.Run`); with a counter ahead, `clear` does not return, since its guard
  stays true (`Pipes.Pipe.ClearStep`).
- `find` reads past its view: it is confined to it, for all needles, iff the view ends in or is followed
  by a NUL byte (`Search.ConfinedIffClosed`).
- `toInt` overflows on the least `int` and only there, among printed numbers (`Numbers.PrintParse`).
- Two names of one file get the same watch id from inotify. The query that brings it in breaks the index
  (`FileCache.QueryKeepsWatchedIffFresh`), and a change then leaves an entry behind that never expires
  (`FileCache.SharedWatchGoesStale`).
- `get_mimetype` ignores the extension of a name without a slash, because `npos` exceeds every index
  (`FileCache.ExtensionNeedsSlash`).
- The grammar in the comment of `lib/ServerSocket.cpp` separates fields with ':'; the code uses ','.
- The Inet lookup answers with the first listener of that address and port iff no Unix listener before it
  has the address as path and the port as descriptor; then it passes a null pointer to `atoi`
  (`Handover.InetFindsFirstIff`, `Handover.InetCrashes`).
- The Unix lookup answers with the first Unix listener of the path iff the first listener of that name is
  not an Inet one, whose port it takes for a descriptor, unless that is the same number
  (`Handover.UnixFindsFirstIff`, `Handover.UnixTakesPort`).
- A chain of filters is composition, for all filters, iff it has one or two members; filters that change
  nothing multiply a byte by the Fibonacci numbers (`FilterChain.ComposesIffShort`).
- Re-opening a connecting socket without getting a descriptor leaves it Connecting with none
  (`Sockets.LostIffAbandoned`). Its old watcher still reports CONNECTED, and a second failing `open` that
  stores a descriptor lets it be watched and report again, any number of times without a new connection
  (`Sockets.AbandonedReportsAgain`).

## Model

| member | source | states |
|---|---|---|
| `Buffers.PaddedIsLeast` | lib/Buffer.cpp:38-43 | the first growth is exact, every later one asks for the least multiple of 4096 not below the request |
| `Buffers.ReallocationBound` | include/xio/Buffer.h:1155-1164 | any run of appends totalling T bytes on a fresh buffer reallocates at most 1 + ceil(T/4096) times, whatever the allocator answers |
| `Buffers.Buffer.WithCapacity` | include/xio/Buffer.h:1357-1361 | an empty buffer with the capacity asked for, or none when refused |
| `Buffers.Buffer.SetCapacity` | lib/Buffer.cpp:30-65 | the whole new state for growth, shrinking, refusal and zero; a later growth gives a multiple of 4096 less than 4096 above the request; well-formed afterwards iff the zero case met an empty buffer |
| `Buffers.Buffer.Reserve` | include/xio/Buffer.h:971-977 | room for the request, stored bytes kept; no reallocation when there was room |
| `Buffers.Buffer.Resize` | include/xio/Buffer.h:1024-1031 | the size changes iff it fits the capacity |
| `Buffers.Buffer.Append` | include/xio/Buffer.h:1156-1164 | all of the bytes at the end, or none after a refusal, with the account of size, capacity and reallocations |
| `Buffers.Buffer.Swap` | include/xio/Buffer.h:1016-1021 | the two buffers exchange block and size |
| `Buffers.Buffer.MoveFrom` | include/xio/Buffer.h:1387-1400 | takes over the other's bytes and leaves it empty; self-assignment empties |
| `Buffers.Slice` | include/xio/Buffer.h:1432-1440 | a slice denotes the sub-sequence asked for, to the end for `npos` |
| `Buffers.AppendUnderSlice` | include/xio/Buffer.h:419-429 | a slice keeps its bytes over any run of appends, however often the block moves |
| `Buffers.AppendRun` | include/xio/Buffer.h:1156-1164 | over any run of appends the parts survive whole and in order, but for one dropped part for each refusal counted, within the reallocation bound |
| `Fill.GrowthMakesRoom` | lib/Pipe.cpp:113-119 | when fewer than 256 bytes are free the request exceeds the capacity, and granting it leaves at least 1365 free bytes; 1365 is attained |
| `Fill.FillFrom` | lib/Pipe.cpp:108-139 | the buffer grows by what the reads brought, in order, from the front of the source; each read asks for the smaller of room and rest, all but the last are served in full, and the loop ends with the request met, a short read or a refusal; the return value in all cases |
| `Search.Find` | include/xio/Buffer.h:440-465 | returns the first index in the view at which the needle lies in memory, or none |
| `Search.ConfinedIffClosed` | include/xio/Buffer.h:440-465 | the search is confined to the view for every needle and offset iff the view is followed by or ends in NUL, or is empty |
| `Search.Split` | include/xio/Buffer.h:585-592 | the parts rejoin with the delimiter to the view, no delimiter starts in the first part; found iff there is one |
| `Numbers.ToInt` | include/xio/Buffer.h:786-828 | sign and leading digits, none exactly where the value leaves the int range |
| `Numbers.PrintParse` | include/xio/Buffer.h:1065-1070 | printing and parsing back is the identity on every int but the least, also with text behind it |
| `Numbers.DecimalIsPlain` | include/xio/Buffer.h:1065-1070 | a minus exactly before negative numbers, digits otherwise, no leading zero but for zero itself |
| `Numbers.PlusSign` | include/xio/Buffer.h:803-808 | a plus sign before a digit does not change the number read |
| `Numbers.LeadingZero` | include/xio/Buffer.h:811-819 | a leading zero does not change the number read |
| `Numbers.NoDigits` | include/xio/Buffer.h:786-828 | text without digits reads as 0, also after a sign |
| `Numbers.TooManyDigits` | include/xio/Buffer.h:811-819 | a number above the largest int has no value, with or without a minus |
| `Numbers.AtoiPassesOver` | lib/InetServer.cpp:62-68 | `atoi` passes over leading blanks and a plus |
| `HexDump.Line` | lib/Buffer.cpp:86-136 | the hexadecimal cursor fills exactly 54 columns, then each printable character as it is and a dot for each other byte, NUL ends it |
| `HexDump.Dump` | lib/Buffer.cpp:86-139 | one line for every started group of sixteen bytes; the hexadecimal pairs decode to the bytes, and the text frames show them |
| `HexDump.DumpRoundTrip` | lib/Buffer.cpp:95-107 | decoding the hexadecimal pairs of all lines gives back the bytes |
| `HexDump.DumpShows` | lib/Buffer.cpp:103 | the text frames of all lines, joined, are the bytes with a dot for each that is not printable |
| `Pipes.Pipe.Clear` | lib/Pipe.cpp:45-54 | ends with counter and kernel queue empty, retrying failed reads, if the counter was right |
| `Pipes.Pipe.ClearStep` | lib/Pipe.cpp:48-53 | one turn keeps the lag; with an empty kernel queue it changes nothing, and with a counter ahead the guard stays true |
| `Bytes.SignedOctet` | lib/Pipe.cpp:170-180 | a byte as a signed number gives back the byte, and only 255 is -1 |
| `Pipes.Pipe.WriteBytes` | lib/Pipe.cpp:56-64 | the accepted prefix is appended and counted |
| `Pipes.Pipe.WriteFd` | lib/Pipe.cpp:98-106 | a prefix of the input moves into the pipe and is counted |
| `Pipes.Pipe.WritePipe` | lib/Pipe.cpp:80-96 | MOVE transfers a prefix of the source in order, COPY duplicates one and leaves the source; both counters follow |
| `Pipes.Pipe.ReadBuffer` | lib/Pipe.cpp:108-139 | the buffer receives the prefix that left the kernel queue; the counter runs ahead by as much |
| `Pipes.Pipe.SpliceToSocket` | lib/Socket.cpp:375-382 | the same lag for a splice to a socket |
| `Pipes.Pipe.ReadChars` | lib/Pipe.cpp:140-148 | a prefix leaves the queue, is counted, and is found at the destination |
| `Pipes.Pipe.ReadPipe` | lib/Pipe.cpp:155-158 | transfers nothing |
| `Pipes.Pipe.ReadFd` | lib/Pipe.cpp:160-168 | a prefix leaves the queue for the descriptor and is counted |
| `Pipes.Pipe.ReadByte` | lib/Pipe.cpp:170-180 | the first byte as a signed number, -1 if none came |
| `PipeRuns.Run` | lib/Pipe.cpp:45-180 | every run, step by step, with the other pipe, input, output and buffer; so a pipe is a FIFO queue, its readers have what they took, and its counter is ahead by exactly the bytes taken through the two bypassing operations |
| `PipeRuns.FifoOfRun` | lib/Pipe.cpp:45-180 | what was in either pipe and what entered it is, in order, what left it and what is in it |
| `PipeRuns.LagOfRun` | lib/Pipe.cpp:56-180 | the counter exceeds the kernel's count by exactly the bytes that bypassed it |
| `PipeRuns.InputOfRun` | lib/Pipe.cpp:98-106 | what entered from the descriptor was, in order, at the front of its input |
| `PipeRuns.OutputOfRun` | lib/Pipe.cpp:108-168 | what left for the output and for the buffer arrived there, in order |
| `PipeRuns.MoveBoundedIff` | lib/Pipe.cpp:80-96 | a MOVE keeps to its count, whatever the kernel answers, iff no more is in the source |
| `BufferStreams.BufferStream.Shift` | lib/BufferStream.cpp:26-34 | drops that many bytes from the window; starts over when none is left |
| `BufferStreams.BufferStream.WriteBytes` | lib/BufferStream.cpp:36-41 | all of the bytes, or none after a refusal; all when they fit |
| `BufferStreams.BufferStream.WritePipe` | lib/BufferStream.cpp:48-59 | what leaves the pipe is what joins the window; when the block is lost |
| `BufferStreams.BufferStream.ReadBuffer` | lib/BufferStream.cpp:74-81 | takes min(n, size) bytes off the window; they arrive unless an allocation is refused |
| `BufferStreams.BufferStream.ReadChars` | lib/BufferStream.cpp:83-91 | takes min(n, size) bytes off the window and puts them at the destination |
| `BufferStreams.BufferStream.ReadPipe` | lib/BufferStream.cpp:98-106 | takes the accepted count off the window, sends the first bytes of the block |
| `BufferStreams.BufferStream.ReadFd` | lib/BufferStream.cpp:108-116 | the same towards a descriptor |
| `BufferStreams.BufferStream.ReadByte` | lib/BufferStream.cpp:118-127 | the next byte as a signed number |
| `BufferStreams.SendsUnreadIffUntouched` | lib/BufferStream.cpp:100 | sending from the start of the block is right for every content iff the read offset is zero or nothing is sent |
| `BufferStreamRuns.Run` | lib/BufferStream.cpp:26-127 | every run of all seven operations, step by step, with both pipes, the buffer, the descriptor and the `char*` readers; bytes written follow the window in order, nothing is invented, readers have what they took; it ends early only at a freed block |
| `BufferStreamRuns.FifoOfRun` | lib/BufferStream.cpp:26-127 | the window and what entered is, in order, what left and the window |
| `BufferStreamRuns.SourceOfRun` | lib/BufferStream.cpp:48-59 | what entered from the pipe was, in order, at its front |
| `BufferStreamRuns.ReadersOfRun` | lib/BufferStream.cpp:74-91 | `char*` readers have, in order, what left for them, and so has the buffer unless it was refused memory |
| `BufferStreamRuns.SendingsOfRun` | lib/BufferStream.cpp:98-116 | the pipe and the descriptor have been sent, in order, bytes from the start of the block |
| `ChunkedStreams.ChunkedStream.Empty` | lib/ChunkedStream.cpp:10-16 | true of every empty stream; false of every other if no chunk is empty |
| `ChunkedStreams.ChunkedStream.Size` | lib/ChunkedStream.cpp:18-26 | the length of the byte sequence the chunks stand for |
| `ChunkedStreams.ChunkedStream.TailBuffer` | lib/ChunkedStream.cpp:170-186 | reuses a tail buffer with room, else adds one; the bytes are unchanged |
| `ChunkedStreams.ChunkedStream.TailPipe` | lib/ChunkedStream.cpp:188-203 | reuses a tail pipe, else adds one; the bytes are unchanged |
| `ChunkedStreams.ChunkedStream.WriteBytes` | lib/ChunkedStream.cpp:28-34 | all of the bytes in a tail with room or in a new chunk, or none, with a new refusal of that chunk and never where they fit; every other chunk untouched |
| `ChunkedStreams.ChunkedStream.WritePipe` | lib/ChunkedStream.cpp:41-54 | a prefix of the pipe moves to a reused or new tail of the right kind; nothing moves only if there was nothing, or with a new refusal or error |
| `ChunkedStreams.ChunkedStream.WriteFd` | lib/ChunkedStream.cpp:56-62 | a prefix of the input moves to a reused or new pipe tail; -1 iff that pipe counts a new error |
| `ChunkedStreams.ChunkedStream.ReadBuffer` | lib/ChunkedStream.cpp:64-72 | as ReadChars past the end of the result: what arrives is the pieces one over the other, right for one turn, which is sure where one chunk serves the request; a refusal changes nothing and is counted; when the result loses its block |
| `ChunkedStreams.ChunkedStream.ReadChars` | lib/ChunkedStream.cpp:74-95 | terminates after turns that meet the request or end at an empty front chunk, unless a front pipe counts a new error; every turn at a buffer chunk takes all it can; chunks, return value and destination exactly; one turn where one chunk serves the request, in every stream |
| `ChunkedStreams.ChunkedStream.TakePipe` | lib/ChunkedStream.cpp:105-121 | one turn keeps a request drainable or not; where it is not, the guard of the loop stays true |
| `ChunkedStreams.ChunkedStream.ReadPipe` | lib/ChunkedStream.cpp:102-123 | as ReadFd towards a pipe that counts its own failures, for every request without a pipe chunk in the way |
| `ChunkedStreams.ChunkedStream.ReadFd` | lib/ChunkedStream.cpp:125-147 | as ReadChars towards a descriptor: chunks, return value and the bytes sent exactly, turn by turn |
| `ChunkedStreams.ChunkedStream.ReadByte` | lib/ChunkedStream.cpp:149-162 | removes and returns the first byte; nothing is removed only at an empty front chunk or with a new error of a front pipe |
| `ChunkedStreams.ChunkedStream.PopFront` | lib/ChunkedStream.cpp:164-168 | drops the first chunk and no other |
| `ChunkFacts.AfterHeld` | lib/ChunkedStream.cpp:74-147 | whatever the turns, what was held is, in order, what left and what is held, and no empty chunk appears |
| `ChunkFacts.AppendedHeld` | lib/ChunkedStream.cpp:28-62 | what is written is held last, and a write that stores something leaves no empty chunk |
| `Delivery.OneTurnIff` | lib/ChunkedStream.cpp:76-92 | a read takes at most one turn, whatever the kernel answers, iff the front chunk serves the request |
| `Delivery.ArriveWholeIffOneTurn` | lib/ChunkedStream.cpp:77-84 | pieces read to one address are found there whole, whatever the bytes in chunks of these sizes, iff there was at most one turn |
| `Delivery.ArrivesWholeIff` | lib/ChunkedStream.cpp:74-95 | what is found at the destination is right, whatever the bytes in chunks of these sizes and whatever the kernel answers, iff the front chunk serves the request: a condition on any stream before the call |
| `Delivery.TurnsSendRightIff` | lib/BufferStream.cpp:98-116 | what is sent is what left, whatever the bytes, iff no turn reads from a buffer chunk read from before |
| `Delivery.SendsRightIff` | lib/ChunkedStream.cpp:125-147 | what is sent is what left, whatever the bytes and whatever the kernel answers, iff every chunk reached is a pipe, or an untouched buffer that gives at most one byte: a condition on any stream before the call |
| `Delivery.SendsRightAtFullCountsIff` | lib/ChunkedStream.cpp:125-147 | the same over the calls in which the kernel takes all it is offered: iff nothing is asked for or there, or the front chunk is a pipe or untouched |
| `Draining.DrainableIff` | lib/ChunkedStream.cpp:105-107 | a request is drainable iff no non-empty pipe chunk stands behind non-empty buffers that hold less than it asks for |
| `Draining.EndsIffDrainable` | lib/ChunkedStream.cpp:102-123 | without failures, a drainable request is met within as many turns as bytes wanted, and after any number of turns of any other the loop goes on |
| `ChunkFacts.MoveBoundedIff` | lib/ChunkedStream.cpp:43-47 | a MOVE keeps to its count, whatever the kernel answers, iff no more is in the source |
| `ChunkFacts.CopyLeavesSourceIff` | lib/ChunkedStream.cpp:49-51 | a COPY leaves the source alone, whatever the kernel answers, iff nothing is asked for or there |
| `ChunkFacts.EmptyWriteBlocks` | lib/ChunkedStream.cpp:170-186 | a write of nothing to a stream without chunks leaves an empty front chunk that no write fills |
| `ChunkFacts.BlockedIff` | lib/ChunkedStream.cpp:170-203 | of streams with an empty front, exactly those blocked stay so at every write; some write fills the front of any other |
| `ChunkedRuns.Run` | lib/ChunkedStream.cpp:10-203 | every run of all nine operations, step by step, with both pipes, the buffer, input, output and the `char*` readers: one FIFO byte queue, fed in order from its supplies; `empty()` agrees with `size() == 0` if every write stored something; it ends early only where an operation would not return |
| `ChunkedRuns.FifoOfRun` | lib/ChunkedStream.cpp:28-168 | what was held and what entered is, in order, what left and what is held |
| `ChunkedRuns.SuppliesOfRun` | lib/ChunkedStream.cpp:41-62 | what entered from the pipe and from the descriptor was, in order, at their fronts |
| `ChunkedRuns.SendingsOfRun` | lib/ChunkedStream.cpp:102-147 | the descriptor and the pipe have been sent, in order, what the turns sent |
| `ChunkedRuns.NoneEmptyInRun` | lib/ChunkedStream.cpp:10-203 | if every write stores something, no chunk is ever empty |
| `ChunkedRuns.TakesAllItCan` | lib/ChunkedStream.cpp:64-147 | a read of any stream takes the smaller of its request and what stands before the first empty chunk, unless the operation counted a failure |
| `ChunkedRuns.BlockedForGood` | lib/ChunkedStream.cpp:10-203 | over every run without `pop_front`, a stream whose front chunk is empty for good yields nothing and keeps all that is written |
| `ChunkedRuns.WriteAfterEmptyWrite` | lib/ChunkedStream.cpp:28-34 | after a write of nothing, what is written next is stored and `empty()` is true |
| `ChunkedRuns.ReadUntilEnd` | lib/ChunkedStream.cpp:149-162 | byte-wise reading yields numbers that give back the bytes in writing order, up to the first 255, an empty front chunk or a new error of a pipe |
| `FileCache.QueryKeepsConsistent` | lib/FileMgr.cpp:68-123 | a query keeps every indexed entry cached under its name, for any watch id |
| `FileCache.QueryKeepsWatchedIffFresh` | lib/FileMgr.cpp:106-110 | a query keeps every watched entry indexed iff its watch id is fresh |
| `FileCache.EventKeepsConsistent` | lib/FileMgr.cpp:143-153 | an event keeps the maps consistent, and the key it erases is there |
| `FileCache.NeverStaleIffIndexed` | lib/FileMgr.cpp:127-162 | no batch of events can leave a stale entry iff every watched entry is indexed |
| `FileCache.RunKeepsMaps` | lib/FileMgr.cpp:68-162 | the maps are consistent in every reachable state, and agree on watched entries with fresh watch ids |
| `FileCache.NoStaleAnswer` | lib/FileMgr.cpp:62-123 | after every run with fresh watch ids an answer is new, young, or watched and unchanged since its creation |
| `FileCache.ServedFromCacheIff` | lib/FileMgr.cpp:62-123 | over every run that does not disturb an entry, a later query of the name answers with it iff it is watched or younger than the time to live, and else with a new one |
| `FileCache.BatchEvictsExactly` | lib/FileMgr.cpp:138-155 | a batch evicts exactly the entries indexed under its watch ids, up to the first id of zero |
| `FileCache.WithinTtl` | lib/FileMgr.cpp:62-66 | without inotify every answer is new or younger than the time to live |
| `FileCache.SharedWatchGoesStale` | lib/FileMgr.cpp:98-110 | with a shared watch id a query answers with a changed entry, at any later time |
| `FileCache.FileMgr.Query` | lib/FileMgr.cpp:68-123 | result and new state are those of the step the lemmas are about; of a name not cached, the new entry with its watch and its type |
| `FileCache.OneSlashDropped` | lib/FileMgr.cpp:70-72 | a name and the same name with a slash behind it are one entry, no other name is changed |
| `FileCache.FileMgr.OnFileChanged` | lib/FileMgr.cpp:127-162 | the loop is the fold of the event step up to a watch id of zero, and stays consistent |
| `FileCache.FileMgr.GetMimetype` | lib/FileMgr.cpp:187-215 | the type of the longest known text left by dropping '~' from the extension, else the default |
| `FileCache.ExtensionNeedsSlash` | lib/FileMgr.cpp:189-192 | a known extension counts iff a slash precedes it |
| `FileCache.BackupMarksDoNotCount` | lib/FileMgr.cpp:196-210 | marks of '~' behind a known extension do not change the type, unless a longer form is known |
| `FileCache.OtherwiseDefault` | lib/FileMgr.cpp:189-214 | no extension in the last component, or one of which no form is known, gives the default type |
| `Handover.GetInheritedSocketList` | lib/ServerSocket.cpp:61-90 | the nested tokenizing yields the third, else second field of every entry; where it would crash |
| `Handover.GetSocketInet` | lib/InetServer.cpp:43-88 | the first entry with that address and port, checked; where it would crash |
| `Handover.GetSocketUnix` | lib/UnixServer.cpp:43-84 | the first entry with that path, checked; where it would crash |
| `Handover.TokensUndoJoinedIff` | lib/ServerSocket.cpp:72-79 | tokenizing undoes joining iff no part is empty or contains the delimiter |
| `Handover.ListenerText` | lib/InetServer.cpp:285-290 | the text is the name, the port of an Inet listener and the descriptor, separated by commas |
| `Handover.HandedText` | lib/ServerSocket.cpp:61-90 | entries are separated by semicolons |
| `Handover.SerializeCrashesIff` | lib/UnixServer.cpp:231-236 | a text is copied beyond its buffer exactly where it and its NUL exceed 1024 or 4096 bytes |
| `Handover.SerializeFits` | lib/UnixServer.cpp:195-236 | the text of a bound listener fits the buffer it is printed to |
| `Handover.FdsRoundTrip` | lib/InetServer.cpp:285-290 | parsing the joined texts gives the descriptors of all listeners in order |
| `Handover.InetRoundTrip` | lib/InetServer.cpp:43-88 | on that text the Inet parser agrees with a lookup in the list |
| `Handover.InetFindsFirstIff` | lib/InetServer.cpp:43-88 | on that text it answers with the first listener of address and port, or none, iff no Unix listener before it has that path and descriptor; else it crashes |
| `Handover.InetCrashes` | lib/InetServer.cpp:60-72 | a listener and a query for which it crashes |
| `Handover.UnixRoundTrip` | lib/UnixServer.cpp:43-84 | on that text the Unix parser agrees with a lookup in the list |
| `Handover.UnixLookupIsFirst` | lib/UnixServer.cpp:53-76 | that lookup is the first listener of the name, an Inet listener answering with its port, or -1 if there is none |
| `Handover.UnixFindsFirstIff` | lib/UnixServer.cpp:43-84 | on that text it answers with the first Unix listener of the path, or none, whatever is open, iff the first listener of the name is not an Inet one with another port |
| `Handover.UnixTakesPort` | lib/UnixServer.cpp:60-72 | listeners and a query for which it answers with a port |
| `FilterChain.Process` | lib/FilterStream.cpp:28-56 | the output grows by the accumulated result, by appending and by moving alike, unless a buffer was refused |
| `FilterChain.ComposesIffShort` | lib/FilterStream.cpp:43-46 | the chain is composition for all filters and inputs iff it has one or two members |
| `FilterChain.ThreeFiltersComposeIff` | lib/FilterStream.cpp:43-46 | three filters compose iff the first puts out nothing |
| `FilterChain.ThreeFiltersPutOut` | lib/FilterStream.cpp:41-46 | three filters put out the first one's result and then that of the chain |
| `Sockets.TimerGuardsIo` | lib/Socket.cpp:169-233 | over every run an active timer implies an active I/O watcher; TIMEOUT is called with both stopped |
| `Sockets.LostIffAbandoned` | lib/Socket.cpp:74-133 | a connecting socket loses its descriptor iff it is opened again without getting one |
| `Sockets.ConnectCompletesIff` | lib/Socket.cpp:235-258 | CONNECTED finds the socket operational if SO_ERROR was zero and closed if not, iff it had a descriptor, with both watchers stopped |
| `Sockets.OperationalIff` | lib/Socket.cpp:54-258 | after every run the socket is operational iff it was, or an `open` connected at once or a healthy report came while connecting, and nothing closed or reopened it since |
| `Sockets.StepConnecting` | lib/Socket.cpp:54-133 | a socket starts to connect exactly by a pending `open`; what opening and closing do to state and descriptor |
| `Sockets.ReadinessIsReported` | lib/Socket.cpp:222-233 | readiness reaches the handler as it came and stops the timer |
| `Sockets.WithoutHandler` | lib/Socket.cpp:215-233 | what throws without a handler, and that `stop` stops both watchers |
| `Sockets.TimerStarts` | lib/Socket.cpp:169-213 | which calls start the timer, with which timeout |
| `Sockets.TimeoutIsCalled` | lib/Socket.cpp:183-202 | after a watch with a timeout, over any run without a report, an expiry or a stop, the timer can expire and TIMEOUT is called |
| `Sockets.AtMostOneCompletion` | lib/Socket.cpp:222-258 | over every run without such a loss, each entry into Connecting yields at most one CONNECTED |
| `Sockets.AbandonedReportsAgain` | lib/Socket.cpp:74-133 | from a pending connection, a run the loop allows that gives any number of CONNECTED callbacks without a new entry into Connecting |
| `Sockets.Socket.Open` | lib/Socket.cpp:74-133 | the new state is that of the step; some failures answer Closed without entering it |
| `Sockets.Socket.Io` | lib/Socket.cpp:222-233 | callback and new state are those of the step the lemmas are about |
| `Sockets.Socket.Timeout` | lib/Socket.cpp:281-287 | both watchers stopped, then TIMEOUT, or an exception without a handler |
| `Sockets.Socket.ReadBuffer` | lib/Socket.cpp:294-325 | the fill loop over what the peer sent |

## Left out

- The system calls: only their contracts; the kernel's buffer limits show as short counts and errors.
- Sizes near the limits of size_t, and `size * 1.5` in floating point (exact below 2^52).
- Allocation failure beyond a refusal; after one, `ChunkedStream::read(Buffer&)` writes past the block, where the model stops.
- Aliasing between a destination buffer and the stream that is read; destinations are separate arrays.
- `FileStream`, `File`, `SocketDriver`, `StreamVisitor`, `StreamReader`: stubs or thin wrappers.
- `FilterStream::read` and `pull`: their positions never advance.
- `find` and `split` by a single character, `begins`, `ends`, `chomp`, `hex`: one library call or one comparison each.
- `find` with an empty needle reads past the needle; `rfind`, `vprintf` and `push_back(ref, offset, length)` are unfinished.
- `trim`, `toDouble`, `toFloat`, `toBool`, hashes, `make_etag`, `loadMimetypes`, `DateTime`, `TimeSpan`, `IPAddress`, `SocketSpec`: easy or library-bound.
- The byte layout of inotify events and the names they carry; a batch is the sequence of its watch ids.
- The heading line of `dump` and the locale of `isprint`.
- `InetServer::open`, `UnixServer::open`, `Socket::open` below the level of their outcome, accepting connections, systemd sockets.
- The process that joins the serialized listeners into the environment variable; the joined text is taken as the format describes it.
- Double closing: `Socket::close` keeps the descriptor number, which the model does not follow further.
- FilterChain.Process: the value returned for a single filter is that filter's own and is not stated.
