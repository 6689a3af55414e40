/** How the server ends, that each step brings it closer to rest, and what it holds at most. */
module ServerProgress {
  import opened Bytes
  import opened RequestLine
  import opened Os
  import opened Server
  import opened ServerInvariant
  import opened ServerSafety

  // ---- The exits ----

  /** Descriptor 0 is open and is not a connection or a file, and no message carries it. */
  predicate ZeroTaken(s: State) {
    && (0 in s.kernel.table && !IsObject(s.kernel, 0))
    && forall i :: 0 <= i < |s.accepted| ==> s.accepted[i] > 0
  }

  /** The environment and the clients behave in this step: no system call the server checks with an exit
      fails, a request that is parsed has two tokens, and no SIGPIPE is raised. */
  predicate Orderly(s: State, l: Label) {
    match l
    case AcceptError => false
    case SendError => false
    case Work(w, r) =>
      w < |s.workers|
      && (s.workers[w].Idle? ==> r.n >= 0)
      && (s.workers[w].Parsing? ==> RequestFile(s.workers[w].buf).Some?)
      && (s.workers[w].Reporting? && Is(s.kernel, STDERR, Listener) ==> r.n >= 0)
    case _ => true
  }

  /** With descriptor 0 open, the process ends in a step exactly when the step is not orderly. Of the two
      exits of a worker, the one for a bad descriptor is never taken and the one for a short message only
      when reading the pipe fails. */
  lemma StepEndsIffDisorderly(c: Config, s: State, l: Label)
    requires Inv(c, s) && ZeroTaken(s) && Step(c, s, l).Some?
    ensures var s' := Step(c, s, l).value;
            && (s'.status.Running? <==> Orderly(s, l))
            && s'.status != BadDescriptor
            && (s'.status == ShortMessage <==> l.Work? && s.workers[l.worker].Idle? && l.reply.n < 0)
            && (s'.status.Running? ==> ZeroTaken(s'))
  {
    match l
    case Work(w, r) =>
      StepTouchesOwn(c, s, w, r);
      if s.workers[w].Idle? {
        TakeEnds(c, s, w, r);
      } else {
        HeldIsReady(c, s, w);
        LogsGrow(c, s, w, r);
        HeldEnds(c, s, w, r);
        ZeroKept(c, s, Step(c, s, l).value, w);
      }
    case _ =>
  }

  lemma TakeEnds(c: Config, s: State, w: nat, r: Reply)
    requires Inv(c, s) && ZeroTaken(s) && s.status.Running? && w < |s.workers| && s.workers[w].Idle?
    requires TakeStep(c, s, w, r).Some?
    ensures var s' := TakeStep(c, s, w, r).value;
            && s'.status == (if r.n < 0 then ShortMessage else Running)
            && (s'.status.Running? ==> ZeroTaken(s'))
  {
    FramesLength(Queue(s));
    var fd := Queue(s)[0];
    IntRoundTrip(fd, EncodeInt(fd));
    assert Available(s.kernel, c.fs, c.pipeIn)[..4] == EncodeInt(fd);
    assert fd == s.accepted[|s.dequeued|];
  }

  lemma HeldEnds(c: Config, s: State, w: nat, r: Reply)
    requires w < |s.workers| && !s.workers[w].Idle? && WorkerStep(c, s, w, r).Some?
    ensures WorkerStep(c, s, w, r).value.status ==
              if s.workers[w].Parsing? && RequestFile(s.workers[w].buf).None? then NullCopy
              else if s.workers[w].Reporting? && Is(s.kernel, STDERR, Listener) && r.n < 0 then BrokenPipe
              else s.status
  {
  }

  lemma ZeroKept(c: Config, s: State, s': State, w: nat)
    requires Ready(c, s, w) && ZeroTaken(s) && TouchesOwn(s, s', w) && s'.accepted == s.accepted
    ensures ZeroTaken(s')
  {
    var zero: int32 := 0;
    assert !Closes(s, s', s.workers[w], zero);
    assert Is(s'.kernel, zero, s.kernel.table[zero]);
  }

  /** Every step of a run is orderly in the state it is taken in. */
  predicate OrderlyRun(c: Config, s: State, ls: seq<Label>)
    decreases |ls|
  {
    ls == [] || (Step(c, s, ls[0]).Some? && Orderly(s, ls[0]) && OrderlyRun(c, Step(c, s, ls[0]).value, ls[1..]))
  }

  /** However the process was started, descriptor 0 is in use after the set-up: if it was not inherited, it
      is the read end of the pipe. */
  lemma ZeroAlwaysTaken(c: Config, s0: State, inherited: set<int32>)
    requires SetUp(c, s0, inherited)
    ensures ZeroTaken(s0)
    ensures 0 !in inherited <==> c.pipeIn == 0
  {
    FirstNumbers(inherited, c.pipeIn, c.pipeOut, c.listener);
    assert 0 in s0.kernel.table.Keys;
  }

  /** While error messages stay out of the pipe, the server is still running after a run exactly when the run
      was orderly. */
  lemma RunsIffOrderly(c: Config, s0: State, inherited: set<int32>, ls: seq<Label>)
    requires SetUp(c, s0, inherited) && Apart(c) && Run(c, s0, ls).Some?
    ensures Run(c, s0, ls).value.status.Running? <==> OrderlyRun(c, s0, ls)
  {
    InitInv(c, s0);
    ZeroAlwaysTaken(c, s0, inherited);
    RunEndsIffDisorderly(c, s0, ls);
  }

  /** While error messages stay out of the pipe, no run hands out descriptor 0 to a connection or reaches
      the exit for a descriptor that is not positive. */
  lemma BadDescriptorUnreachable(c: Config, s0: State, inherited: set<int32>, ls: seq<Label>)
    requires SetUp(c, s0, inherited) && Apart(c) && Run(c, s0, ls).Some?
    ensures var s := Run(c, s0, ls).value;
            && s.status != BadDescriptor
            && (s.status.Running? ==> forall i :: 0 <= i < |s.accepted| ==> s.accepted[i] > 0)
  {
    InitInv(c, s0);
    ZeroAlwaysTaken(c, s0, inherited);
    NeverBadDescriptor(c, s0, ls);
  }

  lemma {:induction false} RunEndsIffDisorderly(c: Config, s: State, ls: seq<Label>)
    requires Inv(c, s) && ZeroTaken(s) && s.status.Running? && Run(c, s, ls).Some?
    ensures Run(c, s, ls).value.status.Running? <==> OrderlyRun(c, s, ls)
    decreases |ls|
  {
    if ls != [] {
      var s' := Step(c, s, ls[0]).value;
      StepInv(c, s, ls[0]);
      StepEndsIffDisorderly(c, s, ls[0]);
      if s'.status.Running? {
        RunEndsIffDisorderly(c, s', ls[1..]);
      } else {
        assert ls[1..] == [];
      }
    }
  }

  lemma {:induction false} NeverBadDescriptor(c: Config, s: State, ls: seq<Label>)
    requires Inv(c, s) && ZeroTaken(s) && Run(c, s, ls).Some? && s.status != BadDescriptor
    ensures Run(c, s, ls).value.status != BadDescriptor
    ensures Run(c, s, ls).value.status.Running? ==> ZeroTaken(Run(c, s, ls).value)
    decreases |ls|
  {
    if ls != [] {
      var s' := Step(c, s, ls[0]).value;
      StepInv(c, s, ls[0]);
      StepEndsIffDisorderly(c, s, ls[0]);
      if s'.status.Running? {
        NeverBadDescriptor(c, s', ls[1..]);
      } else {
        assert ls[1..] == [];
      }
    }
  }

  // ---- Draining ----

  /** How many more calls a worker makes before it is idle again, at most. */
  function Rank(p: Worker): nat {
    match p
    case Idle => 0
    case Closing(_, _) => 1
    case ClosingFile(_, _, _, _) => 2
    case Refusing(_, _) => 2
    case SendingBody(_, _, _, _, _) => 3
    case Reporting(_, _, _, _, _, _) => 3
    case Loading(_, _, _, _, _) => 4
    case SendingHeader(_, _, _, _, _) => 5
    case Stating(_, _, _, _) => 6
    case Opening(_, _, _) => 7
    case Parsing(_, _, _) => 8
    case Reading(_, _) => 9
    case Allocating(_, _) => 10
  }

  function Ranks(ws: seq<Worker>): nat {
    if ws == [] then 0 else Rank(ws[0]) + Ranks(ws[1..])
  }

  /** The steps left once nothing more is accepted. */
  function Measure(s: State): nat
    requires |s.dequeued| + InHand(s) <= |s.accepted|
  {
    12 * InHand(s) + 11 * |Queue(s)| + Ranks(s.workers)
  }

  /** A step of a worker, or of the acceptor passing a connection on. */
  predicate Serving(l: Label) {
    l.Send? || l.Work?
  }

  lemma {:induction false} RanksUpdate(ws: seq<Worker>, w: nat, p: Worker)
    requires w < |ws|
    ensures Ranks(ws[w := p]) == Ranks(ws) - Rank(ws[w]) + Rank(p)
  {
    if w == 0 {
      assert ws[w := p][1..] == ws[1..];
    } else {
      assert ws[w := p][1..] == ws[1..][w - 1 := p];
      RanksUpdate(ws[1..], w - 1, p);
    }
  }

  lemma ServingDecreases(c: Config, s: State, l: Label)
    requires Inv(c, s) && Serving(l) && Step(c, s, l).Some?
    requires Step(c, s, l).value.status.Running?
    ensures Inv(c, Step(c, s, l).value) && Measure(Step(c, s, l).value) < Measure(s)
  {
    StepInv(c, s, l);
    if l.Work? {
      var s' := Step(c, s, l).value;
      RanksUpdate(s.workers, l.worker, s'.workers[l.worker]);
      WorkLowersRank(c, s, l.worker, l.reply);
    }
  }

  predicate LowersRank(s: State, s': State, w: nat)
    requires w < |s.workers|
  {
    && |s'.workers| == |s.workers| && s'.workers == s.workers[w := s'.workers[w]]
    && s'.acceptor == s.acceptor && s'.accepted == s.accepted
    && (s.workers[w].Idle? ==> |s'.dequeued| == |s.dequeued| + 1 && Rank(s'.workers[w]) == 10)
    && (!s.workers[w].Idle? ==> s'.dequeued == s.dequeued && Rank(s'.workers[w]) < Rank(s.workers[w]))
  }

  lemma WorkLowersRank(c: Config, s: State, w: nat, r: Reply)
    requires w < |s.workers| && s.status.Running? && WorkerStep(c, s, w, r).Some?
    requires WorkerStep(c, s, w, r).value.status.Running?
    ensures LowersRank(s, WorkerStep(c, s, w, r).value, w)
  {
    if HasFile(s.workers[w]) {
      FileLowersRank(c, s, w, r);
    }
  }

  lemma FileLowersRank(c: Config, s: State, w: nat, r: Reply)
    requires w < |s.workers| && HasFile(s.workers[w]) && WorkerStep(c, s, w, r).Some?
    requires s.status.Running? && WorkerStep(c, s, w, r).value.status.Running?
    ensures LowersRank(s, WorkerStep(c, s, w, r).value, w)
  {
  }

  // ---- What is held at most ----

  lemma {:induction false} BlocksBound(ws: seq<Worker>)
    ensures Blocks(ws) <= 5 * |ws|
    ensures (forall w :: 0 <= w < |ws| ==> ws[w].Idle?) ==> Blocks(ws) == 0
  {
    if ws != [] { BlocksBound(ws[1..]); }
  }

  function WorkerFds(ws: seq<Worker>): seq<int32> {
    if ws == [] then [] else
    (if ws[0].Idle? then [] else if HasFile(ws[0]) then [ws[0].childfd, ws[0].fd] else [ws[0].childfd])
    + WorkerFds(ws[1..])
  }

  lemma {:induction false} WorkerFdsHold(ws: seq<Worker>, w: nat)
    ensures |WorkerFds(ws)| <= 2 * |ws|
    ensures w < |ws| && !ws[w].Idle? ==>
              ws[w].childfd in WorkerFds(ws) && (HasFile(ws[w]) ==> ws[w].fd in WorkerFds(ws))
  {
    if ws != [] { WorkerFdsHold(ws[1..], if w == 0 then 0 else w - 1); }
  }

  function Elements(fds: seq<int32>): set<int32> {
    set fd | fd in fds
  }

  lemma {:induction false} ElementCount(fds: seq<int32>)
    ensures |Elements(fds)| <= |fds|
  {
    if fds != [] {
      ElementCount(fds[1..]);
      assert Elements(fds) == Elements(fds[1..]) + {fds[0]};
    }
  }

  /** The open descriptors that are connections or files. */
  function Live(k: Kernel): set<int32> {
    set fd | fd in k.table && IsObject(k, fd)
  }

  /** In every reachable state at most five buffers a worker are allocated, none when all are idle, and the
      open connections and files number at most what is queued, one in the acceptor's hand, and two a
      worker. */
  lemma ResourceBounds(c: Config, s: State)
    requires Reachable(c, s)
    ensures 0 <= s.kernel.blocks <= 5 * c.workers
    ensures (forall w :: 0 <= w < |s.workers| ==> s.workers[w].Idle?) ==> s.kernel.blocks == 0
    ensures |s.dequeued| + InHand(s) <= |s.accepted| && |Live(s.kernel)| <= |Queue(s)| + 1 + 2 * c.workers
  {
    ReachableInv(c, s);
    BlocksBound(s.workers);
    var fds := s.accepted[|s.dequeued|..] + WorkerFds(s.workers);
    WorkerFdsHold(s.workers, 0);
    forall fd | fd in Live(s.kernel) ensures fd in fds { LiveIsHeld(c, s, fd); }
    assert |fds| <= |Queue(s)| + InHand(s) + 2 * |s.workers|;
    assert Live(s.kernel) <= Elements(fds);
    SubsetCount(Live(s.kernel), Elements(fds));
    ElementCount(fds);
  }

  lemma SubsetCount<T>(a: set<T>, b: set<T>)
    requires a <= b
    ensures |a| <= |b|
  {
    assert b == a + (b - a);
  }

  lemma LiveIsHeld(c: Config, s: State, fd: int32)
    requires Inv(c, s) && fd in Live(s.kernel)
    ensures fd in s.accepted[|s.dequeued|..] + WorkerFds(s.workers)
  {
    var id := s.kernel.table[fd].id;
    if s.kernel.table[fd].Conn? {
      assert ConnInv(c, s, id);
      if id < |s.dequeued| {
        WorkerFdsHold(s.workers, s.server[id]);
        assert WorkerInv(c, s, s.server[id]);
      } else {
        assert s.accepted[|s.dequeued|..][id - |s.dequeued|] == fd;
      }
    } else {
      assert FileInv(c, s, id);
      WorkerFdsHold(s.workers, s.opener[id]);
      assert WorkerInv(c, s, s.opener[id]);
    }
  }
}
