# WasmWebServer: a model and its proofs

WasmWebServer is a small static-file web server written twice, natively and for WebAssembly, together with
the wasm2c runtime that carries the second version. This project models the two hard parts and proves what
they are for.

**The server** (`src/tiny.c`, `src/webserver.c`). One thread accepts connections and writes each descriptor
number as four raw bytes into a pipe; any number of workers race to read four bytes, serve one request and
close the connection. Connections and opened files share one space of descriptor numbers, and a number that
was closed may be handed out again at once.

- `Bytes.dfy`, `Tokenizer.dfy`, `RequestLine.dfy`: the four-byte layout of an `int`; `strtok_r`, `strcpy` and
  `strlen` as loops over arrays; the parse of the request line in the 1024-byte buffer, whose tail is
  uninitialised.
- `Os.dfy`: the kernel. A call names a number; what it reaches is what the descriptor table holds there.
- `Handler.dfy`: `handle_resp` as an imperative method on that kernel, and `Response`, the bytes one client gets.
- `Server.dfy`: the server as a transition system, one system call of one thread a step, so that a run is an
  interleaving. Labels carry what the kernel is inclined to answer, and what a client sends and whether it then
  hangs up. `ServerInvariant.dfy` proves what every step keeps. The conclusions for all reachable states and all
  runs, for any number of workers and any pipe capacity of at least four bytes, are in `ServerSafety.dfy` (whose
  descriptors are whose, what clients get), `ServerProgress.dfy` (how the process ends, what it holds),
  `ServerService.dfy` (who is served) and `ServerDelivery.dfy` (the file a client gets when no call fails). They are
  about starts that keep error messages out of the message pipe (`CleanStart`); `ServerReports.dfy` says exactly which
  these are and what happens otherwise. `ServerRuns.dfy` and `ServerStarvation.dfy` build runs that show a limit.
- `StartUp.dfy`: `main`, which brings about a start state of the transition system.
- `WasmRequest.dfy`, `PipeFraming.dfy`: the twin's `sscanf` parser and file names, and its pipe functions.

**The runtime** (`src/wasm_c/wasm-rt-impl.c`, `src/wasm_c/wasm_import.h`).

- `FuncTypes.dfy`: the registry of function types, an array reallocated for every new entry.
- `LinearMemory.dfy`: the memory of section 4.5.3 (allocation and growing) and section 4.4.4 (memory
  instructions) of the WebAssembly Core Specification 1.0, with 32-bit wrapping arithmetic and both physical
  layouts, as one class proved against a map from addresses to bytes.
- `Tables.dfy`: the function table and the guard of an indirect call.

Findings. For the first six a lemma shows the behaviour at a concrete input and another one states the exact
condition under which it does not occur.

1. `wasm_rt_grow_memory` is documented (`src/wasm_c/wasm-rt.h:167-169`) to return 2^32-1 when the new page count
   exceeds the maximum; when it is exactly 2^32 the code returns 0 (`WrapReturnsZero`,
   `DocumentedIffNotWrappingToZero`). It returns 0, too, when growing an empty memory succeeds, so 0 does not single
   out the wrap (`GrowResultExact`).
2. The recorded size is the true size only up to 65535 pages (`SizeExact`); 65536 pages, which the specification
   allows, record size 0. A grow that succeeds stays inside the memory it allocated exactly when the two page counts
   modulo 65536 add up to at most 65535 (`GrowStaysInside`); from 65535 pages to 65536 it does not
   (`LastPageDoesNotFit`).
3. On a big-endian host `read_u32` and `write_u32` reach the mirrored address `size - 4 - addr` of the memory that the
   generated loads and stores use. They agree with those for all contents exactly on a little-endian host or where
   `2 * addr + 4 == size` (`HostReadAgreesIff`, `HostMissesFirstWord`). What `write_u32` stored, `read_u32` finds after
   a grow exactly on a little-endian host, when the grow is refused, or when it adds no bytes
   (`HostReadSurvivesGrowIff`, `HostLosesFirstWord`).
4. A client that connects, sends nothing and does not hang up keeps its worker for ever. Every other client is served
   exactly when fewer such clients arrived before it than there are workers, eight in the program
   (`ServedIffFewMuteBefore`). After as many of them as there are workers the next client is never served
   (`NextClientStarves`, `NinthClientStarves`).
5. `perror` writes to descriptor 2. Started without it and with exactly one of 0 and 1, the process gets it as the write
   end of the message pipe, and a request for a directory puts "read(): Is a directory" between the messages. The pipe
   holds whole messages in every run exactly for all other starts, or when no request can open a file (`FramedIff`,
   `ReportBreaksFraming`). Behind such a report workers take descriptors that were never accepted, and one can find a
   number that is not positive (`ReportReachesBadDescriptor`, `ProgramReachesBadDescriptor`); otherwise that exit is
   never taken (`BadDescriptorUnreachable`). Started without 0, 1 and 2, descriptor 2 is the listening socket: the write
   fails and, where it raises SIGPIPE, ends the process. As the pipe's read end it takes no writes.
6. The twin's parse stays inside its buffers, whatever they held before, exactly when the scan ends among the bytes
   received, two words are there and the file name fits (`StaysInsideIff`, `LongNameDoesNotFit`); the program checks
   none of it.
7. The two versions map URIs that end in "/" (other than "/" itself) to different files (`MappingsAgree`), take a URI
   that a carriage return follows for different ones (`LineEndSeparates`), and answer an empty file differently
   (`AnswersCompared`).

Assumptions. A write of four bytes to the pipe is atomic (POSIX.1-2017, `write()`, PIPE_BUF), and a read of four
bytes takes them together. `pipe` and `socket` take the lowest unused descriptors (POSIX.1-2017, section 2.14 of the
System Interfaces volume); which unused number `accept` and `open` take is left open, so the theorems hold for any.
Writes to a connection are complete, so a client that hangs up stops sending and goes on reading: after a full close a
second write raises SIGPIPE, which the program does not ignore. Inherited descriptors take error messages without
failing. Files do not change during a run, and `malloc` succeeds. A client either hangs up after its bytes or lingers
for good; a read returns when there are bytes or the client hung up. A request with fewer
than two tokens makes the program copy from a null pointer; the model ends the process there, and the theorems say
when that happens. Words are laid out lowest byte first, except in the memory of a big-endian host.

## Model

| member | source | states |
|---|---|---|
| Bytes.IntRoundTrip | src/webserver.c:46-108 | a descriptor survives its four raw bytes, and any four bytes are the image of one `int` |
| Bytes.IntValue | src/webserver.c:46-108 | the four bytes of a descriptor make up its value, the lowest first, with 2^32 added when it is negative |
| Bytes.WordValue | src/wasm_c/wasm_server.c:66-77 | byte k of a stored 32-bit word counts for 256 to the k |
| Bytes.AsciiCodes | src/webserver.c:69-82 | the characters of the literals stand for their codes |
| Tokenizer.Strtok | src/webserver.c:64-66 | one `strtok_r` call on a buffer: the token found, the position saved, and the buffer with exactly one NUL written behind the token or none |
| Tokenizer.RunsAreMaximal | src/webserver.c:64-66 | the tokens are exactly the maximal space-free runs of the text |
| RequestLine.TokensFit | src/webserver.c:55-73 | with two tokens, method, separator and URI take at most 1023 bytes, and the file name with its terminator fits 1024 |
| RequestLine.BufferBytes | src/webserver.c:55-63 | the buffer holds the bytes received, then the old ones, and 0 in its last place |
| RequestLine.NameBytes | src/webserver.c:64-73 | for every buffer the name asked for is, byte by byte, "./index.html" for "/" and otherwise "." followed by exactly the second token; there is none exactly for fewer than two tokens |
| RequestLine.TokenName | src/webserver.c:64-73 | a buffer that begins with two tokens one space apart asks for the file of the second |
| RequestLine.ParseRequest | src/webserver.c:63-73 | the in-place parse over four buffers yields the file of the first two tokens, or fails exactly when there are fewer |
| RequestLine.BuildFileName | src/webserver.c:68-73 | the text left in `filename` is the twelve bytes of "./index.html" for "/", and otherwise 46 followed by exactly the URI, one that ends in "/" included |
| RequestLine.TailIrrelevantIffSettled | src/webserver.c:55-73 | the file asked for is independent of the uninitialised tail exactly when the received bytes hold a NUL, or a space after the URI, or leave too little room for the bytes that could still change it |
| Os.AcceptValid | src/webserver.c:42 | accepting on an unused number keeps descriptor table and connections consistent |
| Os.OpenValid | src/webserver.c:76 | opening on an unused number of the same space keeps them consistent |
| Os.CloseValid | src/webserver.c:91-99 | closing makes the number unused, closes exactly the connection it led to, leaves every other number where it led and keeps the registers consistent |
| Handler.Process.HandleResp | src/webserver.c:53-100 | on every path the client gets `Response`, the connection and the file are closed, the allocations are released, a failed `fstat` or `read` is reported on descriptor 2 and nothing else in the kernel changes; the copy from a null pointer happens exactly for a request with fewer than two tokens, the end by SIGPIPE exactly when a report goes to the listening socket and raises it |
| Handler.Process.Transfer | src/webserver.c:75-92 | 404, nothing, header, or header and file, by the results of `open`, `fstat` and `read`, with the NUL that `sizeof` includes; and what `perror` writes to descriptor 2 |
| Handler.ResponseBytes | src/webserver.c:62-88 | what a client reads, byte by byte: the 27 bytes of the 404 line for a missing file, nothing when the size is not known, the 20 bytes of the header and then the file when it can be read whole |
| Handler.ReportBytes | src/webserver.c:79-85 | what is reported, byte by byte, and when |
| Server.FirstNumbers | src/tiny.c:20-27 | for every set of inherited descriptors 0, 1 and 2 are in use after the set-up; 2 is the pipe's write end exactly when it was not inherited and exactly one of 0 and 1 was, and likewise for the read end and the listening socket |
| ServerInvariant.InitInv | src/tiny.c:20-41 | the start state satisfies the invariant |
| ServerInvariant.StepInv | src/webserver.c:39-119 | every step of every thread, `perror` included, keeps it: error messages and message pipe apart, whole messages in the pipe, ownership of connections and files, bytes sent so far, allocations |
| ServerInvariant.MoveKeepsOthers | src/webserver.c:53-119 | a worker's move keeps what is said about all other workers, since no two hold the same connection or file |
| ServerSafety.DescriptorsAreExclusive | src/webserver.c:39-118 | in every reachable state the descriptors in hand, queued, held and opened are open, pairwise different, lead to their own object, and are no pipe end and no listening socket |
| ServerSafety.StartDescriptorsStay | src/webserver.c:39-118 | while the server runs, every descriptor open at the start still leads where it led, and none of those in hand, queued, held or opened is one of them |
| ServerSafety.StepTouchesOwn | src/webserver.c:76-117 | a worker's step changes only its own connection, file and table entries, and what a client was sent is only added to |
| ServerSafety.ClientsGetTheirResponse | src/webserver.c:53-117 | in every run, whatever the interleaving and the reuse of numbers, connection i belongs to the i-th accept and, when closed, was sent exactly the sequential response to its own client's bytes; before that, a part of it |
| ServerSafety.CallsGiveResults | src/webserver.c:62-84 | in a step, the result recorded is that of a call on the worker's own objects: the first bytes of its client, the file that client asked for, that file's length |
| ServerSafety.RunKeepsResults | src/webserver.c:62-84 | over any run a result once recorded is never overwritten |
| ServerSafety.ExactlyOnePlace | src/webserver.c:42-117 | an accepted connection is in exactly one place: the acceptor's hand, one position of the pipe, one worker, or closed |
| ServerSafety.RunLater | src/webserver.c:42-117 | over any run logs only grow: a connection is dequeued at most once, by one worker, and never changes after its close |
| ServerSafety.PipeIsQueue | src/webserver.c:46-108 | in every reachable state of a start that keeps error messages apart the byte pipe holds whole messages, and accepted descriptors are those dequeued, then those in the pipe, then the one in hand, in order |
| ServerProgress.StepEndsIffDisorderly | src/webserver.c:43-115 | with descriptor 0 in use the process ends in a step exactly when a checked call fails, a request has fewer than two tokens or a report raises SIGPIPE; the bad-descriptor exit is never taken, the short-read exit only when reading the pipe fails |
| ServerProgress.RunsIffOrderly | src/webserver.c:43-115 | for every start that keeps error messages apart, the server is still running after a run exactly when no checked call failed, no parsed request had fewer than two tokens and no report raised SIGPIPE |
| ServerProgress.ZeroAlwaysTaken | src/tiny.c:20-27 | for every set of inherited descriptors 0 is in use after the set-up, as the pipe's read end exactly when it was not inherited |
| ServerProgress.BadDescriptorUnreachable | src/webserver.c:112-115 | for every start that keeps error messages apart, no run hands out descriptor 0 to a connection or reaches the exit for a descriptor that is not positive |
| ServerReports.ApartIff | src/webserver.c:79-85 | error messages and message pipe are apart exactly unless 2 was not inherited, exactly one of 0 and 1 was, and some request can open a file |
| ServerReports.FramedIff | src/webserver.c:46-108 | the pipe holds whole messages in every run exactly for those starts; the failing run takes the lowest unused numbers |
| ServerReports.ReportBreaksFraming | src/webserver.c:84-85 | the concrete run: one request for something that opens and cannot be read, and 23 bytes of text are in the pipe |
| ServerReports.ReportReachesBadDescriptor | src/webserver.c:108-115 | going on from there a worker takes a part of the text for a descriptor, and another one takes the exit for a number that is not positive |
| ServerReports.ProgramReachesBadDescriptor | src/tiny.c:6-41 | the same for the program with eight workers, started with descriptors 0 and 3 to 130 open |
| ServerReports.IndexCanBeOpened | src/webserver.c:68-76 | a request for "/" can open the index file |
| ServerProgress.ServingDecreases | src/webserver.c:46-118 | every step but an accept lowers a measure of queued messages and remaining calls |
| ServerProgress.ResourceBounds | src/webserver.c:55-99 | at most five buffers a worker, four of them while it waits for a request, none when all are idle; open connections and files at most queued + 1 + 2 a worker |
| ServerService.CanGoIff | src/webserver.c:62-109 | a worker goes on, whatever the kernel answers, unless it waits at an empty pipe or reads from a mute client |
| ServerService.OpenMeansEnabled | src/webserver.c:46-118 | while a connection is open some thread can go on, even when the pipe is full, or its worker is blocked on its client, or it is not yet taken and all workers are blocked |
| ServerService.StuckIff | src/webserver.c:46-118 | exactly when no worker and no message can move: all workers idle at an empty pipe or blocked, and the pipe full if a message is in hand |
| ServerService.StepHoldsLatest | src/webserver.c:106-118 | every step keeps that a worker holding a connection took no other one since |
| ServerService.RunsDrain | src/webserver.c:39-118 | once accepts stop, a run is no longer than the measure, or one step longer if it ends the process |
| ServerService.DrainExists | src/webserver.c:39-118 | from every reachable running state some steps without accepts lead to one where no thread can step, or end the process |
| ServerService.ServedIffFewMuteBefore | src/webserver.c:39-118 | end to end: after any run, and going on without accepts until no thread can step, a client's connection is closed after exactly the response to its bytes if and only if it is not mute and fewer mute clients arrived before it than there are workers; otherwise it was sent nothing |
| ServerStarvation.NextClientStarves | src/webserver.c:62-118 | for any number of workers, a run of as many mute clients and one more that ends with no thread able to step and the last client sent nothing |
| ServerStarvation.NinthClientStarves | src/tiny.c:6-41 | the same for the program's eight workers and standard descriptors |
| ServerService.EveryClientIsServed | src/webserver.c:39-118 | with fewer mute clients than workers every other client is served |
| ServerDelivery.WholeIsAnswer | src/webserver.c:62-99 | with whole reads and no refused call the response is the header and the file asked for, or 404 |
| ServerDelivery.AnswerTellsMissing | src/webserver.c:75-99 | the answer is 404 exactly when the file is missing |
| ServerDelivery.AnswerBytes | src/webserver.c:62-88 | the answer to `verb SP uri SP ..` byte by byte: the 404 line, or header and file, for "./index.html" or "." followed by the URI; and such a request settles its file |
| ServerDelivery.ClientsGetTheirFile | src/webserver.c:53-117 | in every run without refused calls a closed connection whose request settles its file was sent exactly that file behind the header, or 404, with no reference to recorded results |
| ServerDelivery.EveryClientGetsItsFile | src/webserver.c:39-118 | the same end to end: who gets the file asked for and who gets nothing, in terms of the clients alone |
| StartUp.Start | src/tiny.c:20-41 | with descriptors taken lowest first, `main` creates one acceptor on the write end and N workers on the read end of one pipe, a start state of the transition system |
| StartUp.StartTiny | src/tiny.c:6-41 | the program's eight workers, with descriptor 0 in use, and the invariant unless error messages go to the pipe |
| WasmRequest.ScanRequest | src/wasm_c/webserver.c:124-129 | `sscanf`, `strcpy` and `strcat` on 128-byte buffers yield the file name of the second word, whether a third follows or not, and of what the URI buffer held before when there is no second |
| WasmRequest.ScannedBytes | src/wasm_c/webserver.c:125-129 | the scanned name byte by byte: ".", the second word, and "index.html" behind a word that ends in "/" |
| WasmRequest.LineEndSeparates | src/wasm_c/webserver.c:125 | white space other than a space ends the twin's URI and not the native one, so they ask for different files |
| WasmRequest.StaysInsideIff | src/wasm_c/webserver.c:123-129 | scans and copies stay inside their buffers for every content of the unread and the stale bytes exactly when the scan ends among the bytes received, two words are there and the file name fits |
| WasmRequest.LongNameDoesNotFit | src/wasm_c/webserver.c:126-129 | a request whose file name does not fit, whatever else is in the buffers |
| WasmRequest.MappingsAgree | src/wasm_c/webserver.c:124-129 | on every request read as far as the space behind the URI both parsers find the same URI, and name the same file exactly when it is "/" or does not end in "/" |
| WasmRequest.TwinBytes | src/wasm_c/webserver.c:131-161 | what a client of the twin reads, byte by byte: 23 bytes of a 404 line for a file that is missing or empty, 19 bytes of header and the file otherwise |
| WasmRequest.AnswersCompared | src/wasm_c/webserver.c:131-161 | for one file the two answers agree on the status exactly when it is missing or not empty, and then differ in the NUL behind the header alone |
| PipeFraming.MessagePipe.WritePipe | src/wasm_c/wasm_import.c:93-96 | appends the four bytes of the number |
| PipeFraming.MessagePipe.ReadPipe | src/wasm_c/wasm_import.c:82-91 | takes up to four bytes; -1 for a short read or a number that is not positive |
| PipeFraming.ReceivesWhatWasSent | src/wasm_c/wasm_import.c:82-96 | n reads after n writes give the numbers back in order and leave the pipe empty; a number comes back unchanged exactly when it is positive or -1 |
| PipeFraming.ReceivedIsPrefixOfSent | src/wasm_c/wasm_import.c:82-96 | over any interleaving of writes and reads the numbers received are a prefix of those sent, and the pipe holds exactly the rest as whole messages |
| FuncTypes.FuncTypesAreEqual | src/wasm_c/wasm-rt-impl.c:59-70 | the comparison by counts and elements decides equality of signatures |
| FuncTypes.Registry.RegisterFuncType | src/wasm_c/wasm-rt-impl.c:72-103 | returns the index of an equal signature and leaves the table alone, or appends the signature to a reallocated array |
| FuncTypes.IndicesDenote | src/wasm_c/wasm-rt-impl.c:91-102 | over any sequence of registrations entries stay pairwise different, keep their place, and every index denotes its signature in every later table |
| FuncTypes.SameIndexIffSameSignature | src/wasm_c/wasm-rt-impl.c:59-102 | two calls of a run return the same index exactly when parameter and result lists are equal; the same types split elsewhere are another type |
| FuncTypes.TableInFirstOccurrenceOrder | src/wasm_c/wasm-rt-impl.c:99-102 | the table lists the different signatures in the order of their first registration |
| FuncTypes.EveryIndexIsReturned | src/wasm_c/wasm-rt-impl.c:99-102 | indices are 1 to count without gaps |
| LinearMemory.Memory.constructor | src/wasm_c/wasm-rt-impl.c:111-146 | the initial and maximum pages are recorded, and the data are zeros, initial pages modulo 65536 times 65536 of them |
| LinearMemory.FirstLoad | src/wasm_c/wasm-rt-impl.c:111-146 | up to 65535 pages a first load traps exactly beyond pages x 65536 bytes and finds 0 otherwise |
| LinearMemory.Memory.Grow | src/wasm_c/wasm-rt-impl.c:148-180 | with the true sum of pages between 1 and the maximum and memory to be had, the pages grow by exactly delta, the bytes by delta modulo 65536 times 65536 zeros behind the old ones, and the old page count is returned; otherwise nothing changes and 0 or 2^32-1 is returned, by the true sum; in either layout, for every grow that stays inside its allocation |
| LinearMemory.GrowTwice | src/wasm_c/wasm-rt-impl.c:148-180 | from one page, the second of two grows finds the pages of the first, and the sizes are the true ones |
| LinearMemory.Memory.Memmove | src/wasm_c/wasm-rt-impl.c:173 | the bytes arrive unharmed although source and destination overlap |
| LinearMemory.Memory.Store | src/wasm_c/wasm_server.c:52-77 | in either layout the four bytes at the address make up the value, the lowest first, and all others stay; or a trap and no change |
| LinearMemory.Memory.Load | src/wasm_c/wasm_server.c:44-70 | in either layout the value the four bytes at the address make up, the lowest first, or a trap |
| LinearMemory.Memory.WriteU32 | src/wasm_c/wasm_import.h:32-34 | a host store: the word in the host's order at that place of the data, which is the address or its mirror image on a big-endian host |
| LinearMemory.Memory.ReadU32 | src/wasm_c/wasm_import.h:36-38 | the host load at the same place |
| LinearMemory.GrowResultExact | src/wasm_c/wasm-rt-impl.c:148-167 | the result under wrap-around in terms of the true sum, a failing `realloc` included, and exactly when it is 0 |
| LinearMemory.DocumentedIffNotWrappingToZero | src/wasm_c/wasm-rt.h:167-180 | the documented result is returned exactly when the new page count is not 2^32 |
| LinearMemory.WrapReturnsZero | src/wasm_c/wasm-rt-impl.c:151-153 | a concrete grow that returns 0 where 2^32-1 is documented |
| LinearMemory.SizeExact | src/wasm_c/wasm-rt-impl.c:114-158 | the recorded size is pages x 65536 exactly up to 65535 pages |
| LinearMemory.GrowStaysInside | src/wasm_c/wasm-rt-impl.c:157-174 | a grow that succeeds stays inside the reallocated data exactly when the page counts modulo 65536 add up to at most 65535; then it fills it to the end |
| LinearMemory.LastPageDoesNotFit | src/wasm_c/wasm-rt-impl.c:157-174 | a concrete grow that succeeds and does not stay inside |
| LinearMemory.ReadOverWrite | src/wasm_c/wasm_import.h:32-38 | a load after a store at any two addresses, byte by byte |
| LinearMemory.LoadsSurviveGrow | src/wasm_c/wasm-rt-impl.c:164-178 | a grow changes no load of the module, and a store of the module commutes with a grow |
| LinearMemory.HostReadAgreesIff | src/wasm_c/wasm_import.h:36-38 | for a given size and position `read_u32` and the module's load agree for all contents exactly on a little-endian host or when 2 x addr + 4 is the size |
| LinearMemory.HostMissesFirstWord | src/wasm_c/wasm_import.h:36-38 | concrete contents where the module loads 1 and `read_u32` finds 0 |
| LinearMemory.HostReadOverWrite | src/wasm_c/wasm_import.h:32-38 | `read_u32` returns what `write_u32` stored at the same position, on either host |
| LinearMemory.HostReadSurvivesGrowIff | src/wasm_c/wasm-rt-impl.c:164-178 | `read_u32` after a grow returns what `write_u32` stored before it, for all contents and values, exactly on a little-endian host, when the grow is refused, or when it adds no bytes |
| LinearMemory.HostLosesFirstWord | src/wasm_c/wasm-rt-impl.c:171-174 | a concrete grow after which `read_u32` finds 0 where `write_u32` stored 1 |
| LinearMemory.MemoryIsLastStored | src/wasm_c/wasm-rt-impl.c:111-180 | after any run of stores and grows that stay inside their allocations the pages are the initial ones plus the deltas that were granted by the true sums, the size is the recorded one, pages x 65536 exactly up to 65535 pages, and every byte is the last one stored there, or zero |
| LinearMemory.PagesGranted | src/wasm_c/wasm-rt-impl.c:148-180 | from any memory a run adds exactly the deltas granted by the true sums, none when no grow succeeds |
| LinearMemory.SmallRunsFit | src/wasm_c/wasm-rt-impl.c:151-158 | with a maximum of at most 65535 pages every run is such a run |
| LinearMemory.RunBoth | src/wasm_c/wasm-rt-impl.c:160-178 | any sequence of stores and grows gives both layouts the same logical memory, results and traps |
| Tables.Table.constructor | src/wasm_c/wasm-rt-impl.c:182-188 | all slots zero |
| Tables.Table.Put | src/wasm_c/wasm_server.c:19826-19829 | one slot gets a function with its registered type, the others keep theirs |
| Tables.Table.MayCall | src/wasm_c/wasm_server.c:19-23 | the guard of an indirect call passes exactly when the slot holds a function of the signature the type index was registered for |
| Tables.IndirectCallsAreTypeSafe | src/wasm_c/wasm-rt-impl.c:99-187 | the guard passes at a registered type exactly when the slot was last filled with a function of that signature; never for a slot that was not filled |

## Left out

- Socket set-up and argument checking: calls with nothing to prove. What `printf` writes stays in the buffer of the
  standard output, unless that is a terminal, until the process ends.
- `server_main` and `server_worker` of the WebAssembly build as concurrent threads: they share one linear memory with
  an allocator and a stack pointer of generated code that is not part of this model. Its heap balance is not claimed
  either: the 404 branch goes on before the `free` calls.
- The file type chosen at `src/wasm_c/webserver.c:140-147`: it is never used.
- Address-space reservation, page protection, signal handling and `setjmp`/`longjmp`: behaviour of the operating
  system. A load or store outside the memory is a trap here, whichever way it is detected.
- Partial socket writes, files that change during a request and failing `malloc` calls.
- LinearMemory.Memory.Grow: promises nothing for a grow that does not stay inside its allocation, where the program's
  behaviour is undefined; `GrowStaysInside` says exactly which those are.
- FuncTypes.Registry.RegisterFuncType: asks for fewer than 2^32-1 entries, beyond which the count wraps.
- WasmRequest.ScanRequest: promises nothing for a request whose parse leaves its buffers, where the program's behaviour
  is undefined; `StaysInsideIff` says exactly which those are. `sscanf` is taken to read no further than its format
  asks.
- Handler.Process.HandleResp: asks that descriptor 2 is not a connection, which holds in every run, since 2 is in use
  after the set-up and stays as it is (`FirstNumbers`, `StartDescriptorsStay`).
- ServerProgress.StepEndsIffDisorderly: an exit is one step with the message and the `close` before it
  (`src/webserver.c:43`, `src/webserver.c:108-115`); what other threads do in between, when the pipe's number may be
  handed out again, is not part of this model.
- ServerSafety.ClientsGetTheirResponse: what a worker allocates for the connection's buffers is any contents; the model
  does not follow bytes from one request's buffers into the next one's.
