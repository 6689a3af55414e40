/** The server as a transition system: one acceptor, any number of workers and one process-wide kernel.
    Each step is one system call of one thread (with the computation up to the next call), so a run
    of steps is an interleaving of the threads. */
module Server {
  import opened Bytes
  import opened RequestLine
  import opened Os
  import opened Handler

  /** The number of workers, the capacity of the pipe, the files, and the descriptors of the two pipe
      ends and the listening socket. */
  datatype Config = Config(workers: nat, capacity: nat, fs: FileSystem, pipeIn: int32, pipeOut: int32, listener: int32)

  datatype Acceptor = Accepting | Sending(childfd: int32)

  /** Where a worker is. `conn` and `file` identify, for the record only, which accept and which open
      its descriptors `childfd` and `fd` came from; no step consults them to find an object. */
  datatype Worker =
    | Idle
    | Allocating(childfd: int32, conn: nat)
    | Reading(childfd: int32, conn: nat)
    | Parsing(childfd: int32, conn: nat, buf: seq<byte>)
    | Opening(childfd: int32, conn: nat, name: seq<byte>)
    | Refusing(childfd: int32, conn: nat)
    | Stating(childfd: int32, conn: nat, fd: int32, file: nat)
    | SendingHeader(childfd: int32, conn: nat, fd: int32, file: nat, size: nat)
    | Loading(childfd: int32, conn: nat, fd: int32, file: nat, size: nat)
    | SendingBody(childfd: int32, conn: nat, fd: int32, file: nat, body: seq<byte>)
    | Reporting(childfd: int32, conn: nat, fd: int32, file: nat, text: seq<byte>, loaded: bool)
    | ClosingFile(childfd: int32, conn: nat, fd: int32, file: nat)
    | Closing(childfd: int32, conn: nat)

  datatype Status =
    | Running
    | AcceptFailed | SendFailed             // server_error: exit(1)
    | ShortMessage | BadDescriptor          // a worker's exit(-1)
    | NullCopy                              // strcpy from a null pointer
    | BrokenPipe                            // SIGPIPE from a write to the listening socket

  datatype State = State(
    kernel: Kernel,
    acceptor: Acceptor,
    workers: seq<Worker>,
    status: Status,
    accepted: seq<int32>,       // every descriptor accepted, in order
    dequeued: seq<int32>,       // every descriptor a worker took from the pipe, in order
    server: seq<nat>,           // the worker that dequeued each of them
    opener: seq<nat>,           // the worker that opened each file
    results: seq<Transcript>)   // what the calls made for each connection returned

  /** What the kernel is inclined to answer a worker's call: a count, a descriptor for `open`, the
      contents of fresh memory, the text for an error number. */
  datatype Reply = Reply(n: int, fd: int32, garbage: Block, reason: seq<byte>)

  datatype Label =
    | Accept(fd: int32, incoming: seq<byte>, lingers: bool)
    | AcceptError
    | Send
    | SendError
    | Work(worker: nat, reply: Reply)

  // ---- Start ----

  /** After `main` and the socket set-up: the pipe is empty, all workers share its read end, and the number
      for error messages is in use. */
  predicate Init(c: Config, s: State) {
    && c.workers >= 1 && c.capacity >= 4
    && c.pipeIn >= 0 && c.pipeOut >= 0 && c.listener >= 0
    && STDERR in s.kernel.table
    && Is(s.kernel, c.pipeIn, PipeRead) && Is(s.kernel, c.pipeOut, PipeWrite) && Is(s.kernel, c.listener, Listener)
    && (forall fd :: fd in s.kernel.table && fd !in {c.pipeIn, c.pipeOut, c.listener} ==>
          s.kernel.table[fd] == Standard)
    && s == State(Kernel.Kernel(s.kernel.table, [], [], [], 0), Accepting, seq(c.workers, _ => Idle),
                  Running, [], [], [], [], [])
  }

  /** A start state as `main` can bring it about: `pipe` and then `socket` take the lowest numbers that the
      process, started with the descriptors `inherited` open, has not in use (POSIX.1-2017, section 2.14 of
      the System Interfaces volume). */
  ghost predicate SetUp(c: Config, s: State, inherited: set<int32>) {
    && Init(c, s)
    && IsLowestUnused(inherited, c.pipeIn)
    && IsLowestUnused(inherited + {c.pipeIn}, c.pipeOut)
    && IsLowestUnused(inherited + {c.pipeIn, c.pipeOut}, c.listener)
    && s.kernel.table.Keys == inherited + {c.pipeIn, c.pipeOut, c.listener}
  }

  /** With the lowest numbers taken one after the other, 0, 1 and 2 are in use, and it depends on which of
      them were inherited what 2 became. */
  lemma FirstNumbers(inherited: set<int32>, pipeIn: int32, pipeOut: int32, listener: int32)
    requires IsLowestUnused(inherited, pipeIn)
    requires IsLowestUnused(inherited + {pipeIn}, pipeOut)
    requires IsLowestUnused(inherited + {pipeIn, pipeOut}, listener)
    ensures {0, 1, 2} <= inherited + {pipeIn, pipeOut, listener}
    ensures 0 !in inherited <==> pipeIn == 0
    ensures pipeIn == STDERR <==> 0 in inherited && 1 in inherited && 2 !in inherited
    ensures pipeOut == STDERR <==> 2 !in inherited && (0 in inherited <==> 1 !in inherited)
    ensures listener == STDERR <==> 0 !in inherited && 1 !in inherited && 2 !in inherited
  {
    var zero: int32, one: int32, two: int32 := 0, 1, 2;
    assert zero in inherited || pipeIn == 0;
    assert one in inherited + {pipeIn} || pipeIn == 1 || pipeOut <= 1;
    assert two in inherited + {pipeIn, pipeOut} || listener <= 2;
    if pipeOut > 0 { assert zero in inherited + {pipeIn}; }
    if pipeIn > 1 { assert one in inherited; }
    if pipeOut > 1 { assert one in inherited + {pipeIn}; }
    if pipeIn > 2 { assert two in inherited; }
    if pipeOut > 2 { assert two in inherited + {pipeIn}; }
    if listener > 0 { assert zero in inherited + {pipeIn, pipeOut}; }
    if listener > 1 { assert one in inherited + {pipeIn, pipeOut}; }
    if listener > 2 { assert two in inherited + {pipeIn, pipeOut}; }
  }

  /** The start state for a configuration and what was inherited. */
  function StartState(c: Config, inherited: set<int32>): State {
    var table := map fd | fd in inherited :: Standard;
    State(Kernel.Kernel(table[c.pipeIn := PipeRead][c.pipeOut := PipeWrite][c.listener := Listener], [], [], [], 0),
          Accepting, seq(c.workers, _ => Idle), Running, [], [], [], [], [])
  }

  lemma StartStateIsSetUp(c: Config, inherited: set<int32>)
    requires c.workers >= 1 && c.capacity >= 4
    requires IsLowestUnused(inherited, c.pipeIn)
    requires IsLowestUnused(inherited + {c.pipeIn}, c.pipeOut)
    requires IsLowestUnused(inherited + {c.pipeIn, c.pipeOut}, c.listener)
    ensures SetUp(c, StartState(c, inherited), inherited)
  {
    FirstNumbers(inherited, c.pipeIn, c.pipeOut, c.listener);
    assert 2 in inherited + {c.pipeIn, c.pipeOut, c.listener};
    var s := StartState(c, inherited);
    assert s.kernel.table.Keys == inherited + {c.pipeIn, c.pipeOut, c.listener};
    assert STDERR in s.kernel.table.Keys;
  }

  /** No error message can get into the message pipe: it does not go there, or no file is ever opened that
      could fail to be read. */
  ghost predicate Apart(c: Config) {
    c.pipeOut != STDERR || !CanOpen(c.fs)
  }

  ghost predicate CleanStart(c: Config, s: State) {
    Init(c, s) && Apart(c)
  }

  // ---- Steps ----

  function AcceptorStep(c: Config, s: State, l: Label): Option<State> {
    match l
    case Accept(fd, incoming, lingers) =>
      if s.acceptor.Accepting? && Unused(s.kernel, fd) then
        Some(s.(kernel := Os.Accept(s.kernel, fd, incoming, lingers),
                acceptor := Sending(fd),
                accepted := s.accepted + [fd],
                results := s.results + [UNTOUCHED]))
      else None
    case AcceptError =>
      if s.acceptor.Accepting? then Some(s.(status := AcceptFailed)) else None
    case Send =>
      if s.acceptor.Sending? && |s.kernel.pipe| + 4 <= c.capacity then
        Some(s.(kernel := Write(s.kernel, c.pipeOut, EncodeInt(s.acceptor.childfd)), acceptor := Accepting))
      else None
    case SendError =>
      if s.acceptor.Sending? then Some(s.(status := SendFailed)) else None
    case _ => None
  }

  /** Worker `w` goes on to `next` with kernel `k`. */
  function To(s: State, w: nat, k: Kernel, next: Worker): State
    requires w < |s.workers|
  {
    s.(kernel := k, workers := s.workers[w := next])
  }

  function Note(s: State, conn: nat, t: Transcript): State {
    if conn < |s.results| then s.(results := s.results[conn := t]) else s
  }

  function Result(s: State, conn: nat): Transcript {
    if conn < |s.results| then s.results[conn] else UNTOUCHED
  }

  function WorkerStep(c: Config, s: State, w: nat, r: Reply): Option<State>
    requires w < |s.workers|
  {
    match s.workers[w]
    case Idle => TakeStep(c, s, w, r)
    case Allocating(childfd, conn) => Some(To(s, w, Malloc(s.kernel, 4), Reading(childfd, conn)))
    case Reading(childfd, _) => if Waits(s.kernel, c.fs, childfd) then None else Some(ReadStep(c, s, w, r))
    case Parsing(_, _, _) => Some(ParseStep(s, w))
    case Opening(_, _, _) => Some(OpenStep(c, s, w, r))
    case Refusing(childfd, conn) => Some(To(s, w, Write(s.kernel, childfd, NOT_FOUND), Closing(childfd, conn)))
    case Stating(_, _, _, _) => Some(StatStep(c, s, w, r))
    case SendingHeader(childfd, conn, fd, file, size) =>
      Some(To(s, w, Malloc(Write(s.kernel, childfd, OK_HEADER), 1), Loading(childfd, conn, fd, file, size)))
    case Loading(_, _, _, _, _) => Some(LoadStep(c, s, w, r))
    case Reporting(_, _, _, _, _, _) => ReportStep(c, s, w, r)
    case SendingBody(childfd, conn, fd, file, body) =>
      Some(To(s, w, Release(Write(s.kernel, childfd, body), 1), ClosingFile(childfd, conn, fd, file)))
    case ClosingFile(childfd, conn, fd, file) => Some(To(s, w, Close(s.kernel, fd), Closing(childfd, conn)))
    case Closing(childfd, conn) => Some(To(s, w, Close(Release(s.kernel, 4), childfd), Idle))
  }

  /** `read(message_fd, &childfd, sizeof(childfd))`, which waits while the pipe is empty. */
  function TakeStep(c: Config, s: State, w: nat, r: Reply): Option<State>
    requires w < |s.workers|
  {
    var all := Available(s.kernel, c.fs, c.pipeIn);
    if all == [] then None else
    var n := ReadResult(s.kernel, c.fs, c.pipeIn, 4, if r.n < 0 then -1 else 4);
    var k := Read(s.kernel, c.fs, c.pipeIn, n);
    if n != 4 then
      Some(s.(kernel := Close(k, c.pipeIn), status := ShortMessage))
    else
      var childfd := DecodeInt(all[..4]);
      if childfd <= 0 then
        Some(s.(kernel := Close(k, c.pipeIn), status := BadDescriptor))
      else
        var s' := s.(dequeued := s.dequeued + [childfd], server := s.server + [w]);
        Some(To(s', w, k, Allocating(childfd, |s.dequeued|)))
  }

  /** `read(childfd, buf, 1024)` and `buf[1023] = 0`. */
  function ReadStep(c: Config, s: State, w: nat, r: Reply): State
    requires w < |s.workers| && s.workers[w].Reading?
  {
    var (childfd, conn) := (s.workers[w].childfd, s.workers[w].conn);
    var n := ReadResult(s.kernel, c.fs, childfd, 1024, r.n);
    var k := Read(s.kernel, c.fs, childfd, n);
    var data := if n > 0 then Available(s.kernel, c.fs, childfd)[..n] else [];
    var next := if n > 0 then Parsing(childfd, conn, Buffer(data, r.garbage[n..])) else Closing(childfd, conn);
    Note(To(s, w, k, next), conn, Result(s, conn).(read := n, garbage := r.garbage))
  }

  /** The two `strtok_r` calls and the copies up to `filename`. */
  function ParseStep(s: State, w: nat): State
    requires w < |s.workers| && s.workers[w].Parsing?
  {
    match RequestFile(s.workers[w].buf)
    case None => s.(status := NullCopy)
    case Some(name) => To(s, w, s.kernel, Opening(s.workers[w].childfd, s.workers[w].conn, name))
  }

  function OpenStep(c: Config, s: State, w: nat, r: Reply): State
    requires w < |s.workers| && s.workers[w].Opening?
  {
    var Opening(childfd, conn, name) := s.workers[w];
    var fd := OpenResult(s.kernel, c.fs, name, r.fd);
    if fd < 0 then
      To(s, w, s.kernel, Refusing(childfd, conn))
    else
      var s' := To(s, w, Open(s.kernel, name, fd), Stating(childfd, conn, fd, |s.kernel.files|));
      Note(s'.(opener := s.opener + [w]), conn, Result(s, conn).(found := true))
  }

  function StatStep(c: Config, s: State, w: nat, r: Reply): State
    requires w < |s.workers| && s.workers[w].Stating?
  {
    var Stating(childfd, conn, fd, file) := s.workers[w];
    if r.n < 0 then
      To(s, w, s.kernel, Reporting(childfd, conn, fd, file, Complaint("stat()", r.reason), false))
    else
      var s' := To(s, w, s.kernel, SendingHeader(childfd, conn, fd, file, Size(s.kernel, c.fs, fd)));
      Note(s', conn, Result(s, conn).(statOk := true))
  }

  function LoadStep(c: Config, s: State, w: nat, r: Reply): State
    requires w < |s.workers| && s.workers[w].Loading?
  {
    var Loading(childfd, conn, fd, file, size) := s.workers[w];
    var got := ReadResult(s.kernel, c.fs, fd, size, r.n);
    var k := Read(s.kernel, c.fs, fd, got);
    var s' := if got != size then To(s, w, k, Reporting(childfd, conn, fd, file, Complaint("read()", r.reason), true))
              else To(s, w, k, SendingBody(childfd, conn, fd, file, Available(s.kernel, c.fs, fd)[..got]));
    Note(s', conn, Result(s, conn).(got := got))
  }

  /** `perror`, and the release of what the file was to be read into. The write waits for room when the error
      descriptor is the pipe; to the listening socket it fails, with or without SIGPIPE. */
  function ReportStep(c: Config, s: State, w: nat, r: Reply): Option<State>
    requires w < |s.workers| && s.workers[w].Reporting?
  {
    var Reporting(childfd, conn, fd, file, text, loaded) := s.workers[w];
    if Is(s.kernel, STDERR, PipeWrite) && |s.kernel.pipe| + |text| > c.capacity then None
    else if Is(s.kernel, STDERR, Listener) && r.n < 0 then Some(s.(status := BrokenPipe))
    else
      var k := Write(s.kernel, STDERR, text);
      Some(To(s, w, if loaded then Release(k, 1) else k, ClosingFile(childfd, conn, fd, file)))
  }

  /** One step; `None` when the thread cannot take it. A process that has ended takes no steps. */
  function Step(c: Config, s: State, l: Label): Option<State> {
    if !s.status.Running? then None
    else if l.Work? then
      if l.worker < |s.workers| then WorkerStep(c, s, l.worker, l.reply) else None
    else AcceptorStep(c, s, l)
  }

  /** The state after a sequence of steps, if each could be taken. */
  function Run(c: Config, s: State, ls: seq<Label>): Option<State>
    decreases |ls|
  {
    if ls == [] then Some(s) else
    match Step(c, s, ls[0])
    case None => None
    case Some(s') => Run(c, s', ls[1..])
  }
}
