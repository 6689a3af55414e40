/** What every step of the server keeps. */
module ServerInvariant {
  import opened Bytes
  import opened Os
  import opened Handler
  import opened Server

  // ---- The invariant ----

  predicate HasFile(p: Worker) {
    p.Stating? || p.SendingHeader? || p.Loading? || p.SendingBody? || p.Reporting? || p.ClosingFile?
  }

  predicate HoldsConn(p: Worker, i: nat) {
    !p.Idle? && p.conn == i
  }

  predicate HoldsFile(p: Worker, j: nat) {
    HasFile(p) && p.file == j
  }

  /** Buffers a worker has allocated. */
  function Held(p: Worker): nat {
    if p.Idle? || p.Allocating? then 0
    else if p.Loading? || p.SendingBody? || (p.Reporting? && p.loaded) then 5
    else 4
  }

  function Blocks(ws: seq<Worker>): nat {
    if ws == [] then 0 else Held(ws[0]) + Blocks(ws[1..])
  }

  /** The connection between `accept` and the pipe. */
  function InHand(s: State): nat {
    if s.acceptor.Sending? then 1 else 0
  }

  function Frames(fds: seq<int32>): seq<byte> {
    if fds == [] then [] else EncodeInt(fds[0]) + Frames(fds[1..])
  }

  /** The descriptors written to the pipe and not yet taken. */
  function Queue(s: State): seq<int32>
    requires |s.dequeued| + InHand(s) <= |s.accepted|
  {
    s.accepted[|s.dequeued|..|s.accepted| - InHand(s)]
  }

  predicate Shape(c: Config, s: State) {
    && |s.workers| == c.workers
    && |s.accepted| == |s.kernel.conns| == |s.results|
    && |s.opener| == |s.kernel.files|
    && |s.server| == |s.dequeued|
    && |s.dequeued| + InHand(s) <= |s.accepted|
    && (s.acceptor.Sending? ==> s.acceptor.childfd == s.accepted[|s.accepted| - 1])
  }

  predicate IsObject(k: Kernel, fd: int32) {
    fd in k.table && (k.table[fd].Conn? || k.table[fd].File?)
  }

  /** While the process runs, the pipe holds whole messages, its ends and the listener are open, and the error
      descriptor leads to no connection and no file. */
  predicate Plumbing(c: Config, s: State)
    requires Shape(c, s)
  {
    s.status.Running? ==>
      && s.kernel.pipe == Frames(Queue(s))
      && Is(s.kernel, c.pipeIn, PipeRead)
      && Is(s.kernel, c.pipeOut, PipeWrite)
      && Is(s.kernel, c.listener, Listener)
      && STDERR in s.kernel.table && !IsObject(s.kernel, STDERR)
      && (Is(s.kernel, STDERR, PipeWrite) ==> c.pipeOut == STDERR)
  }

  /** The client sends nothing at all and does not hang up: no read of its connection returns. */
  predicate IsMute(x: Connection) {
    x.incoming == [] && x.lingers
  }

  predicate ConnInv(c: Config, s: State, i: nat)
    requires Shape(c, s) && i < |s.accepted|
  {
    var x := s.kernel.conns[i];
    && x.fd == s.accepted[i] && x.fd >= 0
    && (i >= |s.dequeued| ==> x.open && x.sent == [] && x.pos == 0 && s.results[i] == UNTOUCHED)
    && (i < |s.dequeued| ==>
          && s.dequeued[i] == s.accepted[i]
          && (x.open ==> s.server[i] < |s.workers| && HoldsConn(s.workers[s.server[i]], i))
          && (!x.open ==> !IsMute(x) && x.sent == Response(c.fs, x.incoming, s.results[i])))
  }

  predicate FileInv(c: Config, s: State, j: nat)
    requires Shape(c, s) && j < |s.opener|
  {
    s.kernel.files[j].open ==> s.opener[j] < |s.workers| && HoldsFile(s.workers[s.opener[j]], j)
  }

  predicate WorkerInv(c: Config, s: State, w: nat)
    requires Shape(c, s) && w < |s.workers|
  {
    var p := s.workers[w];
    !p.Idle? ==>
      && p.conn < |s.dequeued|
      && s.server[p.conn] == w
      && s.kernel.conns[p.conn].open
      && s.kernel.conns[p.conn].fd == p.childfd
      && (HasFile(p) ==>
            && c.pipeOut != STDERR
            && p.file < |s.opener|
            && s.opener[p.file] == w
            && s.kernel.files[p.file].open
            && s.kernel.files[p.file].fd == p.fd)
      && (!p.Allocating? && !p.Reading? ==> !IsMute(s.kernel.conns[p.conn]))
      && Local(c.fs, p, s.kernel.conns[p.conn], s.kernel.files, s.results[p.conn])
  }

  /** The request read on a connection asks for `name`. */
  predicate Named(x: Connection, t: Transcript, name: seq<byte>) {
    Asks(x.incoming, t, name)
  }

  /** What a worker has done so far for its connection `x`. */
  predicate Local(fs: FileSystem, p: Worker, x: Connection, files: seq<OpenFile>, t: Transcript)
    requires HasFile(p) ==> p.file < |files|
  {
    match p
    case Idle => true
    case Allocating(_, _) => x.sent == [] && x.pos == 0 && t == UNTOUCHED
    case Reading(_, _) => x.sent == [] && x.pos == 0 && t == UNTOUCHED
    case Parsing(_, _, buf) =>
      x.sent == [] && !t.found && !t.statOk && GotRequest(x.incoming, t) && buf == RequestBuffer(x.incoming, t)
    case Opening(_, _, name) => x.sent == [] && !t.found && !t.statOk && Named(x, t, name)
    case Refusing(_, _) => x.sent == [] && Response(fs, x.incoming, t) == NOT_FOUND
    case Stating(_, _, _, j) =>
      x.sent == [] && t.found && !t.statOk && files[j].pos == 0 && files[j].name in fs && Named(x, t, files[j].name)
    case SendingHeader(_, _, _, j, size) =>
      x.sent == [] && Answering(fs, x, files[j], t) && files[j].pos == 0 && size == |fs[files[j].name]|
    case Loading(_, _, _, j, size) =>
      x.sent == OK_HEADER && Answering(fs, x, files[j], t) && files[j].pos == 0 && size == |fs[files[j].name]|
    case SendingBody(_, _, _, j, body) =>
      x.sent == OK_HEADER && Response(fs, x.incoming, t) == OK_HEADER + body
    case Reporting(_, _, _, _, _, _) => x.sent == Response(fs, x.incoming, t)
    case ClosingFile(_, _, _, _) => x.sent == Response(fs, x.incoming, t)
    case Closing(_, _) => x.sent == Response(fs, x.incoming, t)
  }

  predicate Answering(fs: FileSystem, x: Connection, f: OpenFile, t: Transcript) {
    t.found && t.statOk && f.name in fs && Named(x, t, f.name)
  }

  ghost predicate Inv(c: Config, s: State) {
    && Apart(c)
    && Shape(c, s)
    && Valid(s.kernel, c.fs)
    && Plumbing(c, s)
    && (forall i :: 0 <= i < |s.accepted| ==> ConnInv(c, s, i))
    && (forall j :: 0 <= j < |s.opener| ==> FileInv(c, s, j))
    && (forall w :: 0 <= w < |s.workers| ==> WorkerInv(c, s, w))
    && s.kernel.blocks == Blocks(s.workers)
  }

  lemma InitInv(c: Config, s: State)
    requires CleanStart(c, s)
    ensures Inv(c, s)
  {
    IdleBlocks(s.workers);
  }

  lemma {:induction false} IdleBlocks(ws: seq<Worker>)
    requires forall w :: 0 <= w < |ws| ==> ws[w] == Idle
    ensures Blocks(ws) == 0
  {
    if ws != [] { IdleBlocks(ws[1..]); }
  }

  // ---- Sums and messages ----

  lemma {:induction false} BlocksUpdate(ws: seq<Worker>, w: nat, p: Worker)
    requires w < |ws|
    ensures Blocks(ws[w := p]) == Blocks(ws) - Held(ws[w]) + Held(p)
  {
    if w == 0 {
      assert ws[w := p][1..] == ws[1..];
    } else {
      assert ws[w := p][1..] == ws[1..][w - 1 := p];
      BlocksUpdate(ws[1..], w - 1, p);
    }
  }

  lemma {:induction false} FramesAppend(fds: seq<int32>, fd: int32)
    ensures Frames(fds + [fd]) == Frames(fds) + EncodeInt(fd)
  {
    if fds == [] {
      assert Frames([fd]) == EncodeInt(fd) + Frames([]);
    } else {
      assert (fds + [fd])[1..] == fds[1..] + [fd];
      FramesAppend(fds[1..], fd);
    }
  }

  lemma {:induction false} FramesLength(fds: seq<int32>)
    ensures |Frames(fds)| == 4 * |fds|
  {
    if fds != [] { FramesLength(fds[1..]); }
  }

  // ---- Records that stay ----

  /** What is said about a worker depends only on its own records. */
  lemma WorkerKept(c: Config, s: State, s': State, v: nat)
    requires Shape(c, s) && Shape(c, s') && v < |s.workers| && WorkerInv(c, s, v)
    requires s'.workers[v] == s.workers[v] && s.server <= s'.server && s.opener <= s'.opener
    requires var p := s.workers[v];
             && (!p.Idle? ==> s'.kernel.conns[p.conn] == s.kernel.conns[p.conn])
             && (!p.Idle? ==> s'.results[p.conn] == s.results[p.conn])
             && (HasFile(p) ==> s'.kernel.files[p.file] == s.kernel.files[p.file])
    ensures WorkerInv(c, s', v)
  {
  }

  // ---- The acceptor ----

  lemma AcceptInv(c: Config, s: State, fd: int32, incoming: seq<byte>, lingers: bool)
    requires Inv(c, s) && s.status.Running? && s.acceptor.Accepting? && Unused(s.kernel, fd)
    ensures Inv(c, AcceptorStep(c, s, Accept(fd, incoming, lingers)).value)
  {
    var s' := AcceptorStep(c, s, Accept(fd, incoming, lingers)).value;
    AcceptValid(s.kernel, c.fs, fd, incoming, lingers);
    AcceptKeepsRecords(c, s, s', fd, incoming, lingers);
    AcceptKeepsPlumbing(c, s, s', fd, incoming, lingers);
  }

  lemma AcceptKeepsPlumbing(c: Config, s: State, s': State, fd: int32, incoming: seq<byte>, lingers: bool)
    requires Shape(c, s) && Plumbing(c, s) && Shape(c, s') && Unused(s.kernel, fd) && s.acceptor.Accepting?
    requires s' == s.(kernel := Os.Accept(s.kernel, fd, incoming, lingers), acceptor := Sending(fd),
                      accepted := s.accepted + [fd], results := s.results + [UNTOUCHED])
    ensures Plumbing(c, s')
  {
    assert (s.accepted + [fd])[|s.dequeued|..|s.accepted|] == s.accepted[|s.dequeued|..];
    assert Queue(s') == Queue(s);
  }

  lemma AcceptKeepsRecords(c: Config, s: State, s': State, fd: int32, incoming: seq<byte>, lingers: bool)
    requires Inv(c, s) && Shape(c, s') && fd >= 0
    requires s' == s.(kernel := Os.Accept(s.kernel, fd, incoming, lingers), acceptor := Sending(fd),
                      accepted := s.accepted + [fd], results := s.results + [UNTOUCHED])
    ensures forall i :: 0 <= i < |s'.accepted| ==> ConnInv(c, s', i)
    ensures forall j :: 0 <= j < |s'.opener| ==> FileInv(c, s', j)
    ensures forall w :: 0 <= w < |s'.workers| ==> WorkerInv(c, s', w)
  {
    forall i | 0 <= i < |s'.accepted| ensures ConnInv(c, s', i) {
      if i < |s.accepted| { assert ConnInv(c, s, i); }
    }
    forall j | 0 <= j < |s'.opener| ensures FileInv(c, s', j) { assert FileInv(c, s, j); }
    forall w | 0 <= w < |s'.workers| ensures WorkerInv(c, s', w) {
      assert WorkerInv(c, s, w);
      WorkerKept(c, s, s', w);
    }
  }

  lemma SendInv(c: Config, s: State)
    requires Inv(c, s) && s.status.Running? && s.acceptor.Sending? && |s.kernel.pipe| + 4 <= c.capacity
    ensures Inv(c, AcceptorStep(c, s, Send).value)
  {
    var s' := AcceptorStep(c, s, Send).value;
    WriteValid(s.kernel, c.fs, c.pipeOut, EncodeInt(s.acceptor.childfd));
    assert Queue(s') == Queue(s) + [s.acceptor.childfd];
    FramesAppend(Queue(s), s.acceptor.childfd);
    SameObjects(c, s, s');
  }

  /** A step that leaves connections, files, workers and records alone keeps what is said about them. */
  lemma SameObjects(c: Config, s: State, s': State)
    requires Inv(c, s) && Shape(c, s')
    requires s'.kernel.conns == s.kernel.conns && s'.kernel.files == s.kernel.files
    requires s'.workers == s.workers && s'.accepted == s.accepted && s'.dequeued == s.dequeued
    requires s'.server == s.server && s'.opener == s.opener && s'.results == s.results
    ensures forall i :: 0 <= i < |s'.accepted| ==> ConnInv(c, s', i)
    ensures forall j :: 0 <= j < |s'.opener| ==> FileInv(c, s', j)
    ensures forall w :: 0 <= w < |s'.workers| ==> WorkerInv(c, s', w)
  {
    forall i | 0 <= i < |s'.accepted| ensures ConnInv(c, s', i) { assert ConnInv(c, s, i); }
    forall j | 0 <= j < |s'.opener| ensures FileInv(c, s', j) { assert FileInv(c, s, j); }
    forall w | 0 <= w < |s'.workers| ensures WorkerInv(c, s', w) { assert WorkerInv(c, s, w); }
  }

  /** The process ends without touching any connection, file or worker. */
  lemma StopInv(c: Config, s: State, s': State)
    requires Inv(c, s) && !s'.status.Running? && Valid(s'.kernel, c.fs)
    requires s' == s.(kernel := s.kernel.(table := s'.kernel.table, pipe := s'.kernel.pipe), status := s'.status)
    ensures Inv(c, s')
  {
    SameObjects(c, s, s');
  }

  // ---- The workers ----

  /** Worker `w` serving connection `i`, with file `j` if it has one, moved and touched nothing else. */
  predicate Moved(c: Config, s: State, s': State, w: nat, i: nat, j: nat)
    requires Shape(c, s) && Shape(c, s')
  {
    && w < |s.workers| && i < |s.dequeued|
    && HoldsConn(s.workers[w], i)
    && (HasFile(s.workers[w]) ==> s.workers[w].file == j)
    && (j < |s.opener| ==> s.opener[j] == w)
    && s'.workers == s.workers[w := s'.workers[w]]
    && s'.accepted == s.accepted && s'.dequeued == s.dequeued && s'.server == s.server
    && s'.acceptor == s.acceptor && s'.status == s.status
    && s.opener <= s'.opener && |s'.opener| <= |s.opener| + 1
    && (|s'.opener| > |s.opener| ==> j == |s.opener|)
    && (forall x :: 0 <= x < |s.accepted| && x != i ==>
          s'.kernel.conns[x] == s.kernel.conns[x] && s'.results[x] == s.results[x])
    && (forall y :: 0 <= y < |s.opener| && y != j ==> s'.kernel.files[y] == s.kernel.files[y])
  }

  /** Two workers never hold the same connection or file, so a move by one keeps what is said about
      the others. */
  lemma MoveKeepsOthers(c: Config, s: State, s': State, w: nat, i: nat, j: nat)
    requires Inv(c, s) && Shape(c, s') && Moved(c, s, s', w, i, j)
    requires ConnInv(c, s', i) && WorkerInv(c, s', w)
    requires j < |s'.opener| ==> FileInv(c, s', j)
    ensures forall x :: 0 <= x < |s'.accepted| ==> ConnInv(c, s', x)
    ensures forall y :: 0 <= y < |s'.opener| ==> FileInv(c, s', y)
    ensures forall v :: 0 <= v < |s'.workers| ==> WorkerInv(c, s', v)
  {
    forall x | 0 <= x < |s'.accepted| ensures ConnInv(c, s', x) { assert ConnInv(c, s, x); }
    forall y | 0 <= y < |s'.opener| ensures FileInv(c, s', y) {
      if y < |s.opener| && y != j { assert FileInv(c, s, y); }
    }
    forall v | 0 <= v < |s'.workers| ensures WorkerInv(c, s', v) {
      assert WorkerInv(c, s, v) && WorkerInv(c, s, w);
      if v != w { WorkerKept(c, s, s', v); }
    }
  }

  /** What a worker can rely on: the numbers it holds lead to its own connection and its own file. */
  predicate Ready(c: Config, s: State, w: nat) {
    && Shape(c, s) && w < |s.workers| && !s.workers[w].Idle?
    && WorkerInv(c, s, w)
    && var p := s.workers[w];
    && ConnInv(c, s, p.conn)
    && Is(s.kernel, p.childfd, Conn(p.conn))
    && (HasFile(p) ==> Is(s.kernel, p.fd, File(p.file)) && IsFile(s.kernel, c.fs, p.fd) && p.fd != p.childfd)
    && (p.Reporting? && s.status.Running? ==> Silent(s.kernel))
  }

  /** Nothing the server can see changes by a write to the error descriptor. */
  predicate Silent(k: Kernel) {
    !IsConn(k, STDERR) && !Is(k, STDERR, PipeWrite)
  }

  lemma HeldIsReady(c: Config, s: State, w: nat)
    requires Inv(c, s) && w < |s.workers| && !s.workers[w].Idle?
    ensures Ready(c, s, w)
  {
    var p := s.workers[w];
    assert WorkerInv(c, s, w);
    assert ConnectionOk(s.kernel, p.conn);
    assert ConnInv(c, s, p.conn);
    if HasFile(p) { assert FileOk(s.kernel, c.fs, p.file); }
  }

  /** The result of a worker's step, seen from that worker: its own records are in order and nothing
      else was touched. */
  predicate Stepped(c: Config, s: State, s': State, w: nat, i: nat, j: nat) {
    && Shape(c, s) && Shape(c, s') && Moved(c, s, s', w, i, j)
    && s'.kernel.pipe == s.kernel.pipe
    && (forall fd :: fd in s.kernel.table && !IsObject(s.kernel, fd) ==> Is(s'.kernel, fd, s.kernel.table[fd]))
    && ConnInv(c, s', i) && WorkerInv(c, s', w)
    && (j < |s'.opener| ==> FileInv(c, s', j))
    && s'.kernel.blocks == s.kernel.blocks - Held(s.workers[w]) + Held(s'.workers[w])
  }

  lemma SteppedInv(c: Config, s: State, s': State, w: nat, i: nat, j: nat)
    requires Inv(c, s) && s.status.Running? && Valid(s'.kernel, c.fs)
    requires Stepped(c, s, s', w, i, j)
    ensures Inv(c, s')
  {
    MoveKeepsOthers(c, s, s', w, i, j);
    BlocksUpdate(s.workers, w, s'.workers[w]);
    assert Queue(s') == Queue(s);
  }

  /** What a worker reads at the front of the pipe. */
  lemma FrontOfPipe(c: Config, s: State)
    requires Inv(c, s) && s.status.Running? && Available(s.kernel, c.fs, c.pipeIn) != []
    ensures Queue(s) != [] && Available(s.kernel, c.fs, c.pipeIn) == s.kernel.pipe
    ensures |s.kernel.pipe| >= 4 && DecodeInt(s.kernel.pipe[..4]) == Queue(s)[0]
    ensures s.kernel.pipe[4..] == Frames(Queue(s)[1..])
  {
    FramesLength(Queue(s));
    var fd := Queue(s)[0];
    IntRoundTrip(fd, EncodeInt(fd));
    assert Frames(Queue(s)) == EncodeInt(fd) + Frames(Queue(s)[1..]);
    assert s.kernel.pipe[..4] == EncodeInt(fd);
  }

  lemma TakeInv(c: Config, s: State, w: nat, r: Reply)
    requires Inv(c, s) && s.status.Running? && w < |s.workers| && s.workers[w].Idle?
    requires TakeStep(c, s, w, r).Some?
    ensures Inv(c, TakeStep(c, s, w, r).value)
  {
    if TakeStep(c, s, w, r).value.status.Running? {
      TakeGoesOn(c, s, w, r);
    } else {
      TakeStops(c, s, w, r);
    }
  }

  lemma TakeStops(c: Config, s: State, w: nat, r: Reply)
    requires Inv(c, s) && s.status.Running? && w < |s.workers| && s.workers[w].Idle?
    requires TakeStep(c, s, w, r).Some? && !TakeStep(c, s, w, r).value.status.Running?
    ensures Inv(c, TakeStep(c, s, w, r).value)
  {
    var n := ReadResult(s.kernel, c.fs, c.pipeIn, 4, if r.n < 0 then -1 else 4);
    ReadValid(s.kernel, c.fs, c.pipeIn, n);
    CloseValid(Read(s.kernel, c.fs, c.pipeIn, n), c.fs, c.pipeIn);
    StopInv(c, s, TakeStep(c, s, w, r).value);
  }

  lemma TakeGoesOn(c: Config, s: State, w: nat, r: Reply)
    requires Inv(c, s) && s.status.Running? && w < |s.workers| && s.workers[w].Idle?
    requires TakeStep(c, s, w, r).Some? && TakeStep(c, s, w, r).value.status.Running?
    ensures Inv(c, TakeStep(c, s, w, r).value)
  {
    var s' := TakeStep(c, s, w, r).value;
    ReadValid(s.kernel, c.fs, c.pipeIn, 4);
    FrontOfPipe(c, s);
    assert Queue(s') == Queue(s)[1..];
    Taken(c, s, s', w, Queue(s)[0]);
  }

  lemma Taken(c: Config, s: State, s': State, w: nat, fd: int32)
    requires Inv(c, s) && w < |s.workers| && s.workers[w].Idle? && Shape(c, s')
    requires |s.dequeued| < |s.accepted| && fd == s.accepted[|s.dequeued|]
    requires s' == s.(kernel := s.kernel.(pipe := s'.kernel.pipe),
                      dequeued := s.dequeued + [fd],
                      server := s.server + [w],
                      workers := s.workers[w := Allocating(fd, |s.dequeued|)])
    requires Valid(s'.kernel, c.fs) && Plumbing(c, s')
    ensures Inv(c, s')
  {
    var n := |s.dequeued|;
    forall i | 0 <= i < |s'.accepted| ensures ConnInv(c, s', i) { assert ConnInv(c, s, i); }
    forall j | 0 <= j < |s'.opener| ensures FileInv(c, s', j) { assert FileInv(c, s, j); }
    forall v | 0 <= v < |s'.workers| ensures WorkerInv(c, s', v) {
      assert WorkerInv(c, s, v) && ConnInv(c, s, n);
      if v != w { WorkerKept(c, s, s', v); }
    }
    BlocksUpdate(s.workers, w, Allocating(fd, n));
  }

  lemma ParseMoves(c: Config, s: State, w: nat)
    requires Ready(c, s, w) && s.workers[w].Parsing? && ParseStep(s, w).status == s.status && s.status.Running?
    ensures Stepped(c, s, ParseStep(s, w), w, s.workers[w].conn, |s.opener|)
  {
  }

  lemma ParseInv(c: Config, s: State, w: nat)
    requires Inv(c, s) && s.status.Running? && w < |s.workers| && s.workers[w].Parsing?
    ensures Inv(c, ParseStep(s, w))
  {
    var s' := ParseStep(s, w);
    if s'.status.Running? {
      HeldIsReady(c, s, w);
      ParseMoves(c, s, w);
      SteppedInv(c, s, s', w, s.workers[w].conn, |s.opener|);
    } else {
      StopInv(c, s, s');
    }
  }

  lemma AllocateMoves(c: Config, s: State, w: nat, r: Reply)
    requires Ready(c, s, w) && s.workers[w].Allocating?
    ensures Stepped(c, s, WorkerStep(c, s, w, r).value, w, s.workers[w].conn, |s.opener|)
  {
  }

  lemma AllocateInv(c: Config, s: State, w: nat, r: Reply)
    requires Inv(c, s) && s.status.Running? && w < |s.workers| && s.workers[w].Allocating?
    ensures Inv(c, WorkerStep(c, s, w, r).value)
  {
    HeldIsReady(c, s, w);
    AllocateMoves(c, s, w, r);
    BlocksValid(s.kernel, c.fs, s.kernel.blocks + 4);
    SteppedInv(c, s, WorkerStep(c, s, w, r).value, w, s.workers[w].conn, |s.opener|);
  }

  lemma ReadMoves(c: Config, s: State, w: nat, r: Reply)
    requires Ready(c, s, w) && s.workers[w].Reading? && !Waits(s.kernel, c.fs, s.workers[w].childfd)
    ensures Stepped(c, s, ReadStep(c, s, w, r), w, s.workers[w].conn, |s.opener|)
  {
  }

  lemma ReadInv(c: Config, s: State, w: nat, r: Reply)
    requires Inv(c, s) && s.status.Running? && w < |s.workers| && s.workers[w].Reading?
    requires !Waits(s.kernel, c.fs, s.workers[w].childfd)
    ensures Inv(c, ReadStep(c, s, w, r))
  {
    HeldIsReady(c, s, w);
    ReadMoves(c, s, w, r);
    var childfd := s.workers[w].childfd;
    ReadValid(s.kernel, c.fs, childfd, ReadResult(s.kernel, c.fs, childfd, 1024, r.n));
    SteppedInv(c, s, ReadStep(c, s, w, r), w, s.workers[w].conn, |s.opener|);
  }

  lemma OpenFailMoves(c: Config, s: State, w: nat, r: Reply)
    requires Ready(c, s, w) && s.workers[w].Opening? && OpenResult(s.kernel, c.fs, s.workers[w].name, r.fd) < 0
    ensures Stepped(c, s, OpenStep(c, s, w, r), w, s.workers[w].conn, |s.opener|)
  {
  }

  lemma OpenMoves(c: Config, s: State, w: nat, r: Reply)
    requires Apart(c)
    requires Ready(c, s, w) && s.workers[w].Opening? && !(OpenResult(s.kernel, c.fs, s.workers[w].name, r.fd) < 0)
    ensures Stepped(c, s, OpenStep(c, s, w, r), w, s.workers[w].conn, |s.opener|)
  {
    OpenKeepsWorker(c, s, w, r);
  }

  /** A file that was opened is one that can be opened, so error messages do not go to the pipe. */
  lemma OpenKeepsWorker(c: Config, s: State, w: nat, r: Reply)
    requires Apart(c)
    requires Ready(c, s, w) && s.workers[w].Opening? && !(OpenResult(s.kernel, c.fs, s.workers[w].name, r.fd) < 0)
    ensures Shape(c, OpenStep(c, s, w, r)) && WorkerInv(c, OpenStep(c, s, w, r), w)
  {
    var i := s.workers[w].conn;
    assert Asks(s.kernel.conns[i].incoming, s.results[i], s.workers[w].name);
  }

  lemma OpenInv(c: Config, s: State, w: nat, r: Reply)
    requires Inv(c, s) && s.status.Running? && w < |s.workers| && s.workers[w].Opening?
    ensures Inv(c, OpenStep(c, s, w, r))
  {
    HeldIsReady(c, s, w);
    if OpenResult(s.kernel, c.fs, s.workers[w].name, r.fd) < 0 {
      OpenFailMoves(c, s, w, r);
    } else {
      OpenMoves(c, s, w, r);
    }
    var name := s.workers[w].name;
    OpenValid(s.kernel, c.fs, name, OpenResult(s.kernel, c.fs, name, r.fd));
    SteppedInv(c, s, OpenStep(c, s, w, r), w, s.workers[w].conn, |s.opener|);
  }

  lemma RefuseMoves(c: Config, s: State, w: nat, r: Reply)
    requires Ready(c, s, w) && s.workers[w].Refusing?
    ensures Stepped(c, s, WorkerStep(c, s, w, r).value, w, s.workers[w].conn, |s.opener|)
  {
  }

  lemma RefuseInv(c: Config, s: State, w: nat, r: Reply)
    requires Inv(c, s) && s.status.Running? && w < |s.workers| && s.workers[w].Refusing?
    ensures Inv(c, WorkerStep(c, s, w, r).value)
  {
    HeldIsReady(c, s, w);
    RefuseMoves(c, s, w, r);
    WriteValid(s.kernel, c.fs, s.workers[w].childfd, NOT_FOUND);
    SteppedInv(c, s, WorkerStep(c, s, w, r).value, w, s.workers[w].conn, |s.opener|);
  }

  lemma StatFailMoves(c: Config, s: State, w: nat, r: Reply)
    requires Ready(c, s, w) && s.workers[w].Stating? && r.n < 0
    ensures Stepped(c, s, StatStep(c, s, w, r), w, s.workers[w].conn, s.workers[w].file)
  {
  }

  lemma StatMoves(c: Config, s: State, w: nat, r: Reply)
    requires Ready(c, s, w) && s.workers[w].Stating? && !(r.n < 0)
    ensures Stepped(c, s, StatStep(c, s, w, r), w, s.workers[w].conn, s.workers[w].file)
  {
    StatKeepsWorker(c, s, w, r);
  }

  lemma StatKeepsWorker(c: Config, s: State, w: nat, r: Reply)
    requires Ready(c, s, w) && s.workers[w].Stating? && !(r.n < 0)
    ensures Shape(c, StatStep(c, s, w, r)) && WorkerInv(c, StatStep(c, s, w, r), w)
  {
    var (s', i, p) := (StatStep(c, s, w, r), s.workers[w].conn, s.workers[w]);
    assert s'.workers[w] == SendingHeader(p.childfd, i, p.fd, p.file, |c.fs[s.kernel.files[p.file].name]|);
    assert s'.results == s.results[i := s.results[i].(statOk := true)];
  }

  lemma StatInv(c: Config, s: State, w: nat, r: Reply)
    requires Inv(c, s) && s.status.Running? && w < |s.workers| && s.workers[w].Stating?
    ensures Inv(c, StatStep(c, s, w, r))
  {
    HeldIsReady(c, s, w);
    if r.n < 0 {
      StatFailMoves(c, s, w, r);
    } else {
      StatMoves(c, s, w, r);
    }
    SteppedInv(c, s, StatStep(c, s, w, r), w, s.workers[w].conn, s.workers[w].file);
  }

  lemma SendHeaderMoves(c: Config, s: State, w: nat, r: Reply)
    requires Ready(c, s, w) && s.workers[w].SendingHeader?
    ensures Stepped(c, s, WorkerStep(c, s, w, r).value, w, s.workers[w].conn, s.workers[w].file)
  {
  }

  lemma SendHeaderInv(c: Config, s: State, w: nat, r: Reply)
    requires Inv(c, s) && s.status.Running? && w < |s.workers| && s.workers[w].SendingHeader?
    ensures Inv(c, WorkerStep(c, s, w, r).value)
  {
    HeldIsReady(c, s, w);
    SendHeaderMoves(c, s, w, r);
    var k := Write(s.kernel, s.workers[w].childfd, OK_HEADER);
    WriteValid(s.kernel, c.fs, s.workers[w].childfd, OK_HEADER);
    BlocksValid(k, c.fs, k.blocks + 1);
    SteppedInv(c, s, WorkerStep(c, s, w, r).value, w, s.workers[w].conn, s.workers[w].file);
  }

  predicate LoadsWhole(c: Config, s: State, w: nat, r: Reply)
    requires w < |s.workers| && s.workers[w].Loading?
  {
    ReadResult(s.kernel, c.fs, s.workers[w].fd, s.workers[w].size, r.n) == s.workers[w].size
  }

  lemma LoadFailMoves(c: Config, s: State, w: nat, r: Reply)
    requires Ready(c, s, w) && s.workers[w].Loading? && !LoadsWhole(c, s, w, r)
    ensures Stepped(c, s, LoadStep(c, s, w, r), w, s.workers[w].conn, s.workers[w].file)
  {
  }

  lemma LoadMoves(c: Config, s: State, w: nat, r: Reply)
    requires Ready(c, s, w) && s.workers[w].Loading? && LoadsWhole(c, s, w, r)
    ensures Stepped(c, s, LoadStep(c, s, w, r), w, s.workers[w].conn, s.workers[w].file)
  {
    LoadKeepsWorker(c, s, w, r);
  }

  lemma LoadKeepsWorker(c: Config, s: State, w: nat, r: Reply)
    requires Ready(c, s, w) && s.workers[w].Loading? && LoadsWhole(c, s, w, r)
    ensures Shape(c, LoadStep(c, s, w, r)) && WorkerInv(c, LoadStep(c, s, w, r), w)
  {
  }

  lemma ReportMoves(c: Config, s: State, w: nat, r: Reply)
    requires Ready(c, s, w) && s.workers[w].Reporting? && s.status.Running?
    requires ReportStep(c, s, w, r).Some? && ReportStep(c, s, w, r).value.status.Running?
    ensures Stepped(c, s, ReportStep(c, s, w, r).value, w, s.workers[w].conn, s.workers[w].file)
  {
  }

  lemma ReportInv(c: Config, s: State, w: nat, r: Reply)
    requires Inv(c, s) && s.status.Running? && w < |s.workers| && s.workers[w].Reporting?
    requires ReportStep(c, s, w, r).Some?
    ensures Inv(c, ReportStep(c, s, w, r).value)
  {
    var s' := ReportStep(c, s, w, r).value;
    if s'.status.Running? {
      HeldIsReady(c, s, w);
      ReportMoves(c, s, w, r);
      BlocksValid(s.kernel, c.fs, s'.kernel.blocks);
      SteppedInv(c, s, s', w, s.workers[w].conn, s.workers[w].file);
    } else {
      StopInv(c, s, s');
    }
  }

  lemma LoadValid(c: Config, s: State, w: nat, r: Reply)
    requires Valid(s.kernel, c.fs) && w < |s.workers| && s.workers[w].Loading?
    ensures Valid(LoadStep(c, s, w, r).kernel, c.fs)
  {
    var p := s.workers[w];
    var got := ReadResult(s.kernel, c.fs, p.fd, p.size, r.n);
    ReadValid(s.kernel, c.fs, p.fd, got);
  }

  lemma LoadInv(c: Config, s: State, w: nat, r: Reply)
    requires Inv(c, s) && s.status.Running? && w < |s.workers| && s.workers[w].Loading?
    ensures Inv(c, LoadStep(c, s, w, r))
  {
    HeldIsReady(c, s, w);
    if LoadsWhole(c, s, w, r) {
      LoadMoves(c, s, w, r);
    } else {
      LoadFailMoves(c, s, w, r);
    }
    LoadValid(c, s, w, r);
    SteppedInv(c, s, LoadStep(c, s, w, r), w, s.workers[w].conn, s.workers[w].file);
  }

  lemma SendBodyMoves(c: Config, s: State, w: nat, r: Reply)
    requires Ready(c, s, w) && s.workers[w].SendingBody?
    ensures Stepped(c, s, WorkerStep(c, s, w, r).value, w, s.workers[w].conn, s.workers[w].file)
  {
  }

  lemma SendBodyInv(c: Config, s: State, w: nat, r: Reply)
    requires Inv(c, s) && s.status.Running? && w < |s.workers| && s.workers[w].SendingBody?
    ensures Inv(c, WorkerStep(c, s, w, r).value)
  {
    HeldIsReady(c, s, w);
    SendBodyMoves(c, s, w, r);
    var k := Write(s.kernel, s.workers[w].childfd, s.workers[w].body);
    WriteValid(s.kernel, c.fs, s.workers[w].childfd, s.workers[w].body);
    BlocksValid(k, c.fs, k.blocks - 1);
    SteppedInv(c, s, WorkerStep(c, s, w, r).value, w, s.workers[w].conn, s.workers[w].file);
  }

  lemma CloseFileMoves(c: Config, s: State, w: nat, r: Reply)
    requires Ready(c, s, w) && s.workers[w].ClosingFile?
    ensures Stepped(c, s, WorkerStep(c, s, w, r).value, w, s.workers[w].conn, s.workers[w].file)
  {
  }

  lemma CloseFileInv(c: Config, s: State, w: nat, r: Reply)
    requires Inv(c, s) && s.status.Running? && w < |s.workers| && s.workers[w].ClosingFile?
    ensures Inv(c, WorkerStep(c, s, w, r).value)
  {
    HeldIsReady(c, s, w);
    CloseFileMoves(c, s, w, r);
    CloseValid(s.kernel, c.fs, s.workers[w].fd);
    SteppedInv(c, s, WorkerStep(c, s, w, r).value, w, s.workers[w].conn, s.workers[w].file);
  }

  lemma CloseMoves(c: Config, s: State, w: nat, r: Reply)
    requires Ready(c, s, w) && s.workers[w].Closing?
    ensures Stepped(c, s, WorkerStep(c, s, w, r).value, w, s.workers[w].conn, |s.opener|)
  {
  }

  lemma CloseInv(c: Config, s: State, w: nat, r: Reply)
    requires Inv(c, s) && s.status.Running? && w < |s.workers| && s.workers[w].Closing?
    ensures Inv(c, WorkerStep(c, s, w, r).value)
  {
    HeldIsReady(c, s, w);
    CloseMoves(c, s, w, r);
    ReleaseAndCloseValid(s.kernel, c.fs, s.workers[w].childfd);
    SteppedInv(c, s, WorkerStep(c, s, w, r).value, w, s.workers[w].conn, |s.opener|);
  }

  lemma ReleaseAndCloseValid(k: Kernel, fs: FileSystem, fd: int32)
    requires Valid(k, fs)
    ensures Valid(Close(Release(k, 4), fd), fs)
  {
    BlocksValid(k, fs, k.blocks - 4);
    CloseValid(Release(k, 4), fs, fd);
  }

  /** The file a worker's step may touch: its own, or the next one to be opened. */
  function FileOf(s: State, w: nat): nat
    requires w < |s.workers|
  {
    if HasFile(s.workers[w]) then s.workers[w].file else |s.opener|
  }

  /** A step of a worker with a connection moves that worker alone. */
  lemma StepMoves(c: Config, s: State, w: nat, r: Reply)
    requires Apart(c)
    requires Ready(c, s, w) && s.status.Running?
    requires WorkerStep(c, s, w, r).Some? && WorkerStep(c, s, w, r).value.status.Running?
    ensures Stepped(c, s, WorkerStep(c, s, w, r).value, w, s.workers[w].conn, FileOf(s, w))
  {
    if HasFile(s.workers[w]) {
      FileStepMoves(c, s, w, r);
    } else {
      match s.workers[w]
      case Allocating(_, _) => AllocateMoves(c, s, w, r);
      case Reading(_, _) => ReadMoves(c, s, w, r);
      case Parsing(_, _, _) => ParseMoves(c, s, w);
      case Opening(_, _, name) =>
        if OpenResult(s.kernel, c.fs, name, r.fd) < 0 { OpenFailMoves(c, s, w, r); } else { OpenMoves(c, s, w, r); }
      case Refusing(_, _) => RefuseMoves(c, s, w, r);
      case Closing(_, _) => CloseMoves(c, s, w, r);
    }
  }

  lemma FileStepMoves(c: Config, s: State, w: nat, r: Reply)
    requires Ready(c, s, w) && s.status.Running? && HasFile(s.workers[w])
    requires WorkerStep(c, s, w, r).Some? && WorkerStep(c, s, w, r).value.status.Running?
    ensures Stepped(c, s, WorkerStep(c, s, w, r).value, w, s.workers[w].conn, s.workers[w].file)
  {
    match s.workers[w]
    case Stating(_, _, _, _) => if r.n < 0 { StatFailMoves(c, s, w, r); } else { StatMoves(c, s, w, r); }
    case SendingHeader(_, _, _, _, _) => SendHeaderMoves(c, s, w, r);
    case Loading(_, _, _, _, _) =>
      if LoadsWhole(c, s, w, r) { LoadMoves(c, s, w, r); } else { LoadFailMoves(c, s, w, r); }
    case SendingBody(_, _, _, _, _) => SendBodyMoves(c, s, w, r);
    case Reporting(_, _, _, _, _, _) => ReportMoves(c, s, w, r);
    case ClosingFile(_, _, _, _) => CloseFileMoves(c, s, w, r);
  }

  /** Every step of every thread keeps the invariant. */
  lemma StepInv(c: Config, s: State, l: Label)
    requires Inv(c, s) && Step(c, s, l).Some?
    ensures Inv(c, Step(c, s, l).value)
  {
    match l
    case Accept(fd, incoming, lingers) => AcceptInv(c, s, fd, incoming, lingers);
    case Send => SendInv(c, s);
    case AcceptError => StopInv(c, s, Step(c, s, l).value);
    case SendError => StopInv(c, s, Step(c, s, l).value);
    case Work(w, r) =>
      match s.workers[w]
      case Idle => TakeInv(c, s, w, r);
      case Allocating(_, _) => AllocateInv(c, s, w, r);
      case Reading(_, _) => ReadInv(c, s, w, r);
      case Parsing(_, _, _) => ParseInv(c, s, w);
      case Opening(_, _, _) => OpenInv(c, s, w, r);
      case Refusing(_, _) => RefuseInv(c, s, w, r);
      case Stating(_, _, _, _) => StatInv(c, s, w, r);
      case SendingHeader(_, _, _, _, _) => SendHeaderInv(c, s, w, r);
      case Loading(_, _, _, _, _) => LoadInv(c, s, w, r);
      case SendingBody(_, _, _, _, _) => SendBodyInv(c, s, w, r);
      case Reporting(_, _, _, _, _, _) => ReportInv(c, s, w, r);
      case ClosingFile(_, _, _, _) => CloseFileInv(c, s, w, r);
      case Closing(_, _) => CloseInv(c, s, w, r);
  }

  lemma {:induction false} RunInv(c: Config, s: State, ls: seq<Label>)
    requires Inv(c, s) && Run(c, s, ls).Some?
    ensures Inv(c, Run(c, s, ls).value)
    decreases |ls|
  {
    if ls != [] {
      StepInv(c, s, ls[0]);
      RunInv(c, Step(c, s, ls[0]).value, ls[1..]);
    }
  }
}
