/** Error messages and the message pipe: how the process was started decides whether they can meet. */
module ServerReports {
  import opened Bytes
  import opened Os
  import opened Handler
  import opened Server
  import opened ServerSafety
  import opened ServerRuns
  import WasmRequest

  /** POSIX guarantees room for so many bytes in a pipe. */
  const PIPE_BUF: nat := 512

  /** What the process inherited makes descriptor 2 the write end of the pipe. */
  predicate StderrBecomesPipe(inherited: set<int32>) {
    2 !in inherited && (0 in inherited <==> 1 !in inherited)
  }

  /** Error messages cannot get into the pipe exactly when descriptor 2 did not become its write end, or no
      request can open a file. */
  lemma ApartIff(c: Config, s0: State, inherited: set<int32>)
    requires SetUp(c, s0, inherited)
    ensures Apart(c) <==> !StderrBecomesPipe(inherited) || !CanOpen(c.fs)
  {
    FirstNumbers(inherited, c.pipeIn, c.pipeOut, c.listener);
  }

  /** A request that opens the file `name`. */
  predicate Opens(fs: FileSystem, incoming: seq<byte>, t: Transcript, name: seq<byte>) {
    Asks(incoming, t, name) && name in fs
  }

  /** Numbers for a connection and a file. */
  predicate TwoUnused(k: Kernel, a: int32, b: int32) {
    a > 0 && Unused(k, a) && Unused(k, b) && a != b
  }

  /** Error messages go to the pipe, which has room for one. */
  predicate Misdirected(c: Config) {
    c.pipeOut == STDERR && c.capacity >= PIPE_BUF
  }

  /** "read(): Is a directory", what the read of a directory that was opened reports. */
  function DirectoryReport(): (text: seq<byte>)
    ensures |text| == 23
  {
    Complaint("read()", Ascii("Is a directory"))
  }

  /** Worker 0 goes on to `p`; descriptors and the pipe are as before. */
  predicate GoesOn(s: State, s': State, p: Worker)
    requires |s.workers| > 0
  {
    && s.status.Running? && s'.status.Running? && s'.acceptor == s.acceptor
    && s'.workers == s.workers[0 := p]
    && s'.kernel.table == s.kernel.table && s'.kernel.pipe == s.kernel.pipe
    && |s'.kernel.conns| == |s.kernel.conns| && s'.kernel.files == s.kernel.files
  }

  lemma ReadsRequest(c: Config, s: State, a: int32, incoming: seq<byte>, t: Transcript) returns (r: Reply, s': State)
    requires s.status.Running? && |s.workers| > 0 && s.workers[0] == Reading(a, 0) && GotRequest(incoming, t)
    requires Is(s.kernel, a, Conn(0)) && s.kernel.conns == [Connection(a, incoming, false, 0, [], true)]
    ensures Step(c, s, Work(0, r)) == Some(s') && GoesOn(s, s', Parsing(a, 0, RequestBuffer(incoming, t)))
  {
    r := Reply(t.read, -1, t.garbage, []);
    s' := Step(c, s, Work(0, r)).value;
  }

  /** Worker 0 with the first connection, whose file it opened; the other workers are idle. */
  predicate HasOpened(c: Config, s: State, a: int32, b: int32) {
    && s.status.Running? && s.acceptor.Accepting? && s.kernel.pipe == []
    && |s.workers| == c.workers >= 1 && s.workers[0] == Stating(a, 0, b, 0)
    && (forall w :: 1 <= w < |s.workers| ==> s.workers[w] == Idle)
    && |s.kernel.conns| == 1 && |s.kernel.files| == 1 && s.kernel.files[0].name in c.fs
    && Is(s.kernel, a, Conn(0)) && Is(s.kernel, b, File(0))
    && Is(s.kernel, c.pipeIn, PipeRead) && Is(s.kernel, c.pipeOut, PipeWrite)
  }

  lemma Opened(c: Config, s0: State, a: int32, b: int32, incoming: seq<byte>, t: Transcript, name: seq<byte>)
    returns (ls: seq<Label>, s: State)
    requires Init(c, s0) && Opens(c.fs, incoming, t, name) && TwoUnused(s0.kernel, a, b)
    ensures Run(c, s0, ls) == Some(s) && Arrivals(ls) == [Arrival(a, incoming, false)]
    ensures HasOpened(c, s, a, b) && s.kernel.table.Keys == s0.kernel.table.Keys + {a, b}
  {
    var before, s1 := Accepted(c, s0, a, incoming);
    ls, s := RequestOpened(c, s0, before, s1, a, b, incoming, t, name);
  }

  lemma RequestOpened(c: Config, s0: State, before: seq<Label>, s1: State, a: int32, b: int32, incoming: seq<byte>,
                      t: Transcript, name: seq<byte>)
    returns (ls: seq<Label>, s: State)
    requires Run(c, s0, before) == Some(s1) && HasTaken(c, s1, a, incoming)
    requires Opens(c.fs, incoming, t, name) && Unused(s1.kernel, b)
    ensures Run(c, s0, ls) == Some(s) && Arrivals(ls) == Arrivals(before)
    ensures HasOpened(c, s, a, b) && s.kernel.table.Keys == s1.kernel.table.Keys + {b}
  {
    var r, s2 := ReadsRequest(c, s1, a, incoming, t);
    RunWork(c, s0, before, 0, r);
    ls := before + [Work(0, r)];
    var go, s3;
    go, s3 := ParsesRequest(c, s1, s2, a, incoming, t, name);
    RunWork(c, s0, ls, 0, go);
    ls := ls + [Work(0, go)];
    go, s := OpensFile(c, s1, s3, a, b, incoming, name);
    RunWork(c, s0, ls, 0, go);
    ls := ls + [Work(0, go)];
  }

  /** Worker 0 took the first connection; the other workers are idle. */
  predicate HasTaken(c: Config, s: State, a: int32, incoming: seq<byte>) {
    && s.status.Running? && s.acceptor.Accepting? && s.kernel.pipe == [] && s.kernel.files == []
    && |s.workers| == c.workers >= 1 && s.workers[0] == Reading(a, 0)
    && (forall w :: 1 <= w < |s.workers| ==> s.workers[w] == Idle)
    && s.kernel.conns == [Connection(a, incoming, false, 0, [], true)] && Is(s.kernel, a, Conn(0))
    && Is(s.kernel, c.pipeIn, PipeRead) && Is(s.kernel, c.pipeOut, PipeWrite)
  }

  lemma ParsesRequest(c: Config, s0: State, s: State, a: int32, incoming: seq<byte>, t: Transcript, name: seq<byte>)
    returns (r: Reply, s': State)
    requires |s0.workers| > 0 && Asks(incoming, t, name)
    requires GoesOn(s0, s, Parsing(a, 0, RequestBuffer(incoming, t)))
    ensures Step(c, s, Work(0, r)) == Some(s') && GoesOn(s0, s', Opening(a, 0, name))
  {
    r := Reply(0, -1, Zeros(1024), []);
    s' := Step(c, s, Work(0, r)).value;
  }

  lemma OpensFile(c: Config, s0: State, s: State, a: int32, b: int32, incoming: seq<byte>, name: seq<byte>)
    returns (r: Reply, s': State)
    requires HasTaken(c, s0, a, incoming) && name in c.fs && Unused(s0.kernel, b)
    requires GoesOn(s0, s, Opening(a, 0, name))
    ensures Step(c, s, Work(0, r)) == Some(s')
    ensures HasOpened(c, s', a, b) && s'.kernel.table.Keys == s0.kernel.table.Keys + {b}
  {
    r := Reply(0, b, Zeros(1024), []);
    s' := Step(c, s, Work(0, r)).value;
    assert s'.kernel == Open(s.kernel, name, b) && s'.workers == s.workers[0 := Stating(a, 0, b, 0)];
  }

  /** The first connection is accepted and taken by worker 0. */
  lemma Accepted(c: Config, s0: State, a: int32, incoming: seq<byte>) returns (ls: seq<Label>, s: State)
    requires Init(c, s0) && a > 0 && Unused(s0.kernel, a)
    ensures Run(c, s0, ls) == Some(s) && Arrivals(ls) == [Arrival(a, incoming, false)]
    ensures HasTaken(c, s, a, incoming) && s.kernel.table.Keys == s0.kernel.table.Keys + {a}
  {
    var s1 := PassedOn(c, s0, a, incoming, false);
    assert [] + EncodeInt(a) == EncodeInt(a);
    var taking;
    taking, s := TakenUp(c, s1, 0, a);
    ls := PassOn(a, incoming, false) + taking;
    RunAppend(c, s0, PassOn(a, incoming, false), taking);
    ArrivalsAppend(PassOn(a, incoming, false), taking);
  }

  /** The file is a directory: the header is sent and the read fails. */
  lemma FailsToRead(c: Config, s: State, a: int32, b: int32)
    returns (go: Reply, fail: Reply, s1: State, s2: State, s3: State)
    requires HasOpened(c, s, a, b) && a != b
    ensures Step(c, s, Work(0, go)) == Some(s1) && Step(c, s1, Work(0, go)) == Some(s2)
    ensures Step(c, s2, Work(0, fail)) == Some(s3)
    ensures GoesOn(s, s3, Reporting(a, 0, b, 0, DirectoryReport(), true))
  {
    go := Reply(0, -1, Zeros(1024), []);
    fail := Reply(-1, -1, Zeros(1024), Ascii("Is a directory"));
    s1 := Step(c, s, Work(0, go)).value;
    assert s1.workers[0].SendingHeader? && GoesOn(s, s1, s1.workers[0]);
    s2 := Step(c, s1, Work(0, go)).value;
    assert s2.workers[0].Loading? && GoesOn(s, s2, s2.workers[0]);
    s3 := Step(c, s2, Work(0, fail)).value;
  }

  /** The report is all the pipe holds; descriptors and the other workers are as before. */
  predicate ReportedFrom(s: State, s': State) {
    && s'.status.Running? && s'.acceptor == s.acceptor
    && s'.kernel.pipe == DirectoryReport() && s'.kernel.table == s.kernel.table
    && |s'.workers| == |s.workers| && forall w :: 1 <= w < |s.workers| ==> s'.workers[w] == s.workers[w]
  }

  /** Worker 0 sends the header, fails to read and reports it into the pipe. */
  lemma Reported(c: Config, s0: State, before: seq<Label>, s: State, a: int32, b: int32)
    returns (ls: seq<Label>, s': State)
    requires Run(c, s0, before) == Some(s) && HasOpened(c, s, a, b) && a != b
    requires Misdirected(c)
    ensures Run(c, s0, ls) == Some(s') && Arrivals(ls) == Arrivals(before)
    ensures ReportedFrom(s, s')
  {
    var go, fail, s1, s2, s3 := FailsToRead(c, s, a, b);
    RunWork(c, s0, before, 0, go);
    RunWork(c, s0, before + [Work(0, go)], 0, go);
    RunWork(c, s0, before + [Work(0, go)] + [Work(0, go)], 0, fail);
    ls := before + [Work(0, go)] + [Work(0, go)] + [Work(0, fail)];
    RunWork(c, s0, ls, 0, go);
    s' := ReportsIntoPipe(c, s3, go, a, b);
    ls := ls + [Work(0, go)];
  }

  lemma ReportsIntoPipe(c: Config, s: State, r: Reply, a: int32, b: int32) returns (s': State)
    requires s.status.Running? && |s.workers| > 0 && s.workers[0] == Reporting(a, 0, b, 0, DirectoryReport(), true)
    requires Is(s.kernel, STDERR, PipeWrite) && s.kernel.pipe == [] && c.capacity >= PIPE_BUF
    ensures Step(c, s, Work(0, r)) == Some(s') && ReportedFrom(s, s')
  {
    s' := Step(c, s, Work(0, r)).value;
    assert [] + DirectoryReport() == DirectoryReport();
  }

  /** The pipe holds `text`; all workers but the first are idle. */
  predicate Holding(c: Config, s: State, text: seq<byte>) {
    && s.status.Running? && s.acceptor.Accepting? && s.kernel.pipe == text
    && Is(s.kernel, c.pipeIn, PipeRead) && Is(s.kernel, c.pipeOut, PipeWrite)
    && |s.workers| == c.workers && forall w :: 1 <= w < |s.workers| ==> s.workers[w] == Idle
  }

  /** One request for a directory and the pipe no longer holds whole messages. */
  lemma ReportBreaksFraming(c: Config, s0: State, a: int32, b: int32, incoming: seq<byte>, t: Transcript,
                            name: seq<byte>)
    returns (ls: seq<Label>, s: State)
    requires Init(c, s0) && Misdirected(c) && Opens(c.fs, incoming, t, name) && TwoUnused(s0.kernel, a, b)
    ensures Run(c, s0, ls) == Some(s) && Arrivals(ls) == [Arrival(a, incoming, false)]
    ensures Holding(c, s, DirectoryReport()) && !Framed(s)
    ensures s.kernel.table.Keys == s0.kernel.table.Keys + {a, b}
  {
    var before, s1 := Opened(c, s0, a, b, incoming, t, name);
    ls, s := Reported(c, s0, before, s1, a, b);
  }

  /** The messages are framed in every run exactly for the starts that keep descriptor 2 and the pipe's write
      end apart, or where no request can open a file. The failing run takes the lowest unused numbers. */
  lemma FramedIff(c: Config, s0: State, inherited: set<int32>, a: int32, b: int32)
    requires SetUp(c, s0, inherited) && c.capacity >= PIPE_BUF
    requires IsLowestUnused(s0.kernel.table.Keys, a) && IsLowestUnused(s0.kernel.table.Keys + {a}, b)
    ensures (forall ls :: Run(c, s0, ls).Some? && Run(c, s0, ls).value.status.Running? ==> Framed(Run(c, s0, ls).value))
            <==> !StderrBecomesPipe(inherited) || !CanOpen(c.fs)
  {
    ApartIff(c, s0, inherited);
    FirstNumbers(inherited, c.pipeIn, c.pipeOut, c.listener);
    if Apart(c) {
      forall ls | Run(c, s0, ls).Some? && Run(c, s0, ls).value.status.Running?
        ensures Framed(Run(c, s0, ls).value)
      {
        assert CleanStart(c, s0);
        PipeIsQueue(c, Run(c, s0, ls).value);
      }
    } else {
      var incoming, t, name :| Asks(incoming, t, name) && name in c.fs;
      assert 0 in s0.kernel.table.Keys;
      var ls, s := ReportBreaksFraming(c, s0, a, b, incoming, t, name);
    }
  }

  // ---- A descriptor that was never accepted ----

  lemma TopByteIsSign(word: seq<byte>)
    requires |word| == 4
    ensures word[3] >= 128 ==> DecodeInt(word) < 0
    ensures 1 <= word[3] < 128 ==> DecodeInt(word) > 0
  {
  }

  /** The reply of a kernel that reads four bytes. */
  const WHOLE := Reply(4, -1, Zeros(1024), [])

  /** Worker `w` took four bytes from the pipe for a descriptor. */
  predicate TookWord(s: State, s': State, w: nat)
    requires |s.kernel.pipe| >= 4
  {
    && s' == s.(kernel := s.kernel.(pipe := s.kernel.pipe[4..]), workers := s'.workers,
                dequeued := s.dequeued + [DecodeInt(s.kernel.pipe[..4])], server := s.server + [w])
    && |s'.workers| == |s.workers| && forall v :: 0 <= v < |s.workers| && v != w ==> s'.workers[v] == s.workers[v]
  }

  /** An idle worker takes the next four bytes for a descriptor, whatever they are, if it is positive. */
  lemma WordTaken(c: Config, s: State, w: nat) returns (s': State)
    requires s.status.Running? && w < |s.workers| && s.workers[w].Idle?
    requires Is(s.kernel, c.pipeIn, PipeRead) && |s.kernel.pipe| >= 4 && DecodeInt(s.kernel.pipe[..4]) > 0
    ensures Step(c, s, Work(w, WHOLE)) == Some(s') && TookWord(s, s', w)
  {
    s' := Step(c, s, Work(w, WHOLE)).value;
  }

  /** The first `k` words of the pipe are positive numbers. */
  predicate PositiveWords(pipe: seq<byte>, k: nat) {
    4 * k <= |pipe| && forall j :: 0 <= j < k ==> 1 <= pipe[4 * j + 3] < 128
  }

  lemma PositiveRest(pipe: seq<byte>, k: nat)
    requires k > 0 && PositiveWords(pipe, k)
    ensures DecodeInt(pipe[..4]) > 0 && PositiveWords(pipe[4..], k - 1)
    ensures pipe[4..][4 * (k - 1)..] == pipe[4 * k..]
  {
    assert pipe[4 * 0 + 3] == pipe[..4][3];
    TopByteIsSign(pipe[..4]);
    forall j | 0 <= j < k - 1 ensures 1 <= pipe[4..][4 * j + 3] < 128 {
      assert pipe[4..][4 * j + 3] == pipe[4 * (j + 1) + 3];
    }
  }

  lemma {:induction false} WordsTaken(c: Config, s0: State, before: seq<Label>, s: State, v: nat, k: nat)
    returns (ls: seq<Label>, t: State)
    requires Run(c, s0, before) == Some(s) && s.status.Running? && v + k <= |s.workers|
    requires forall w :: v <= w < |s.workers| ==> s.workers[w] == Idle
    requires Is(s.kernel, c.pipeIn, PipeRead) && PositiveWords(s.kernel.pipe, k)
    ensures Run(c, s0, ls) == Some(t) && Arrivals(ls) == Arrivals(before)
    ensures t.status.Running? && t.kernel == s.kernel.(pipe := s.kernel.pipe[4 * k..])
    ensures |t.workers| == |s.workers| && forall w :: v + k <= w < |t.workers| ==> t.workers[w] == Idle
    ensures s.dequeued <= t.dequeued && (k > 0 ==> DecodeInt(s.kernel.pipe[..4]) in t.dequeued)
    decreases k
  {
    if k == 0 {
      ls, t := before, s;
      assert s.kernel.pipe[0..] == s.kernel.pipe;
    } else {
      PositiveRest(s.kernel.pipe, k);
      var s1 := WordTaken(c, s, v);
      RunWork(c, s0, before, v, WHOLE);
      ls, t := WordsTaken(c, s0, before + [Work(v, WHOLE)], s1, v + 1, k - 1);
      assert s1.dequeued[|s.dequeued|] == DecodeInt(s.kernel.pipe[..4]);
    }
  }

  lemma BadWord(c: Config, s: State, w: nat) returns (s': State)
    requires s.status.Running? && w < |s.workers| && s.workers[w].Idle?
    requires Is(s.kernel, c.pipeIn, PipeRead) && |s.kernel.pipe| >= 4 && DecodeInt(s.kernel.pipe[..4]) <= 0
    ensures Step(c, s, Work(w, WHOLE)) == Some(s') && s'.status == BadDescriptor
    ensures s'.dequeued == s.dequeued && s'.accepted == s.accepted
  {
    s' := Step(c, s, Work(w, WHOLE)).value;
  }

  /** Behind the report a message is out of step: five workers take parts of the text for descriptors, and
      the sixth finds a number that is not positive, made of the rest of the text and the first byte of a
      descriptor. */
  lemma ReportReachesBadDescriptor(c: Config, s0: State, a: int32, b: int32, d: int32, incoming: seq<byte>,
                                   t: Transcript, name: seq<byte>)
    returns (ls: seq<Label>)
    requires Init(c, s0) && Misdirected(c) && c.workers >= 7 && Opens(c.fs, incoming, t, name)
    requires TwoUnused(s0.kernel, a, b) && Unused(s0.kernel, d) && d !in {a, b} && d % 256 >= 128
    ensures Run(c, s0, ls).Some? && Run(c, s0, ls).value.status == BadDescriptor
    ensures Arrivals(ls) == [Arrival(a, incoming, false), Arrival(d, [], false)]
    ensures DecodeInt(Ascii("read")) in Run(c, s0, ls).value.dequeued
  {
    var before, s1 := MisalignedMessage(c, s0, a, b, d, incoming, t, name);
    ReportWords(d);
    var taking, s2 := WordsTaken(c, s0, before, s1, 1, 5);
    TopByteIsSign(s2.kernel.pipe[..4]);
    var s3 := BadWord(c, s2, 6);
    RunWork(c, s0, taking, 6, WHOLE);
    ls := taking + [Work(6, WHOLE)];
  }

  /** The next client's message stands behind the report. */
  lemma MisalignedMessage(c: Config, s0: State, a: int32, b: int32, d: int32, incoming: seq<byte>, t: Transcript,
                          name: seq<byte>)
    returns (ls: seq<Label>, s: State)
    requires Init(c, s0) && Misdirected(c) && Opens(c.fs, incoming, t, name)
    requires TwoUnused(s0.kernel, a, b) && Unused(s0.kernel, d) && d !in {a, b}
    ensures Run(c, s0, ls) == Some(s) && Arrivals(ls) == [Arrival(a, incoming, false), Arrival(d, [], false)]
    ensures Holding(c, s, DirectoryReport() + EncodeInt(d))
  {
    var first, s1 := ReportBreaksFraming(c, s0, a, b, incoming, t, name);
    assert d !in s1.kernel.table.Keys;
    s := PassedOn(c, s1, d, [], false);
    ls := first + PassOn(d, [], false);
    RunAppend(c, s0, first, PassOn(d, [], false));
    ArrivalsAppend(first, PassOn(d, [], false));
  }

  /** The sixth word of the report with a descriptor behind it ends in the descriptor's lowest byte. */
  lemma ReportWords(d: int32)
    requires d >= 0
    ensures var pipe := DirectoryReport() + EncodeInt(d);
            && PositiveWords(pipe, 5)
            && pipe[4 * 5..][..4][3] == d % 256 && pipe[..4] == Ascii("read")
  {
    var pipe := DirectoryReport() + EncodeInt(d);
    assert pipe[3] == 'd' as int && pipe[7] == ' ' as int && pipe[11] == 'a' as int;
    assert pipe[15] == 'r' as int && pipe[19] == 'o' as int;
    assert pipe[23] == EncodeInt(d)[0];
    assert pipe[..4] == Ascii("read");
  }

  // ---- The program itself ----

  /** A request for "/" can open the index file, if there is one. */
  lemma IndexCanBeOpened(fs: FileSystem)
    requires Ascii("./index.html") in fs
    ensures CanOpen(fs)
  {
    var verb, uri := Ascii("GET"), [SLASH];
    var incoming := verb + [SPACE] + uri + [SPACE];
    var t := UNTOUCHED.(read := 6);
    var buf := RequestBuffer(incoming, t);
    assert buf[..5] == incoming[..5] == verb + [SPACE] + uri;
    assert buf[5] == SPACE;
    WasmRequest.NativeName(verb, uri, buf);
    assert Asks(incoming, t, Ascii("./index.html"));
  }

  /** The numbers from 3 up to `n`. */
  function From3(n: int32): (r: set<int32>)
    requires n >= 2
    ensures forall fd: int32 :: fd in r <==> 3 <= fd <= n
    decreases n
  {
    if n == 2 then {} else From3(n - 1) + {n}
  }

  /** The numbers handed out next, when the lowest unused one is taken each time. */
  ghost predicate ThreeLowest(used: set<int32>, a: int32, b: int32, d: int32) {
    IsLowestUnused(used, a) && IsLowestUnused(used + {a}, b) && IsLowestUnused(used + {a, b}, d)
  }

  lemma LowestInTurn()
    ensures var inherited := {0} + From3(130);
            && IsLowestUnused(inherited, 1) && IsLowestUnused(inherited + {1}, 2)
            && IsLowestUnused(inherited + {1, 2}, 131)
            && ThreeLowest(inherited + {1, 2, 131}, 132, 133, 134)
  {
  }

  /** The program started with the descriptors 0 and 3 to 130 open, each number taken being the lowest unused
      one: two clients, and the process ends by a number that is not positive. */
  lemma ProgramReachesBadDescriptor(fs: FileSystem) returns (c: Config, s0: State, ls: seq<Label>)
    requires Ascii("./index.html") in fs
    ensures c.workers == 8 && c.fs == fs && SetUp(c, s0, {0} + From3(130))
    ensures ThreeLowest(s0.kernel.table.Keys, 132, 133, 134)
    ensures Run(c, s0, ls).Some? && Run(c, s0, ls).value.status == BadDescriptor
    ensures |Arrivals(ls)| == 2 && Arrivals(ls)[0].fd == 132 && Arrivals(ls)[1] == Arrival(134, [], false)
  {
    IndexCanBeOpened(fs);
    c := Config(8, 4096, fs, 1, 2, 131);
    s0 := StartState(c, {0} + From3(130));
    LowestInTurn();
    StartStateIsSetUp(c, {0} + From3(130));
    var incoming, t, name :| Asks(incoming, t, name) && name in fs;
    UnusedInTurn(s0.kernel);
    ls := ReportReachesBadDescriptor(c, s0, 132, 133, 134, incoming, t, name);
  }

  lemma UnusedInTurn(k: Kernel)
    requires ThreeLowest(k.table.Keys, 132, 133, 134)
    ensures Unused(k, 132) && Unused(k, 133) && Unused(k, 134)
  {
    assert 132 !in k.table.Keys && 133 !in k.table.Keys && 134 !in k.table.Keys;
  }
}
