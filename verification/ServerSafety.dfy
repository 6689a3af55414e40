/** Whose descriptors are whose, where every connection is, and what its client got. */
module ServerSafety {
  import opened Bytes
  import opened Os
  import opened Handler
  import opened Server
  import opened ServerInvariant

  /** A state some run from a start state leads to. */
  ghost predicate Reachable(c: Config, s: State) {
    exists s0, ls :: CleanStart(c, s0) && Run(c, s0, ls) == Some(s)
  }

  lemma ReachableInv(c: Config, s: State)
    requires Reachable(c, s)
    ensures Inv(c, s)
  {
    var s0, ls :| CleanStart(c, s0) && Run(c, s0, ls) == Some(s);
    InitInv(c, s0);
    RunInv(c, s0, ls);
  }

  // ---- Exclusive descriptors ----

  /** Descriptors in the acceptor's hand, in the pipe, held by workers and opened as files are open,
      lead to the object they were handed out for, and are pairwise different. */
  predicate Exclusive(s: State)
    requires |s.dequeued| + InHand(s) <= |s.accepted|
  {
    && (forall i :: |s.dequeued| <= i < |s.accepted| ==> Is(s.kernel, s.accepted[i], Conn(i)))
    && (forall w :: 0 <= w < |s.workers| && !s.workers[w].Idle? ==>
          Is(s.kernel, s.workers[w].childfd, Conn(s.workers[w].conn)))
    && (forall w :: 0 <= w < |s.workers| && HasFile(s.workers[w]) ==>
          Is(s.kernel, s.workers[w].fd, File(s.workers[w].file)))
    && (forall i, j :: |s.dequeued| <= i < j < |s.accepted| ==> s.accepted[i] != s.accepted[j])
    && (forall w, i :: 0 <= w < |s.workers| && !s.workers[w].Idle? && |s.dequeued| <= i < |s.accepted| ==>
          s.workers[w].childfd != s.accepted[i] && (HasFile(s.workers[w]) ==> s.workers[w].fd != s.accepted[i]))
    && (forall w, v :: 0 <= w < v < |s.workers| && !s.workers[w].Idle? && !s.workers[v].Idle? ==>
          s.workers[w].childfd != s.workers[v].childfd)
    && (forall w, v :: 0 <= w < v < |s.workers| && HasFile(s.workers[w]) && HasFile(s.workers[v]) ==>
          s.workers[w].fd != s.workers[v].fd)
    && (forall w, v :: 0 <= w < |s.workers| && 0 <= v < |s.workers| && !s.workers[w].Idle? && HasFile(s.workers[v]) ==>
          s.workers[w].childfd != s.workers[v].fd)
  }

  /** In every reachable state all live descriptors are exclusive, and none is a pipe end or the listening
      socket. */
  lemma DescriptorsAreExclusive(c: Config, s: State)
    requires Reachable(c, s)
    ensures |s.dequeued| + InHand(s) <= |s.accepted| && Exclusive(s)
    ensures s.status.Running? ==>
              && (forall i :: |s.dequeued| <= i < |s.accepted| ==> s.accepted[i] !in {c.pipeIn, c.pipeOut, c.listener})
              && (forall w :: 0 <= w < |s.workers| && !s.workers[w].Idle? ==>
                    s.workers[w].childfd !in {c.pipeIn, c.pipeOut, c.listener})
              && (forall w :: 0 <= w < |s.workers| && HasFile(s.workers[w]) ==>
                    s.workers[w].fd !in {c.pipeIn, c.pipeOut, c.listener})
  {
    ReachableInv(c, s);
    forall i | |s.dequeued| <= i < |s.accepted| ensures Is(s.kernel, s.accepted[i], Conn(i)) {
      assert ConnInv(c, s, i);
      assert ConnectionOk(s.kernel, i);
    }
    forall w | 0 <= w < |s.workers| && !s.workers[w].Idle?
      ensures var p := s.workers[w];
              && p.conn < |s.dequeued| && s.server[p.conn] == w && Is(s.kernel, p.childfd, Conn(p.conn))
              && (HasFile(p) ==> p.file < |s.opener| && s.opener[p.file] == w && Is(s.kernel, p.fd, File(p.file)))
    {
      HeldIsReady(c, s, w);
    }
  }

  /** A worker's step changes at most its own connection, its own file and the table entries of their
      descriptors; only a worker that waits for a message changes the pipe. */
  predicate TouchesOwn(s: State, s': State, w: nat)
    requires w < |s.workers|
  {
    var p := s.workers[w];
    && |s'.kernel.conns| == |s.kernel.conns| && |s'.kernel.files| >= |s.kernel.files|
    && (forall x :: 0 <= x < |s.kernel.conns| && !HoldsConn(p, x) ==> s'.kernel.conns[x] == s.kernel.conns[x])
    && (forall y :: 0 <= y < |s.kernel.files| && !HoldsFile(p, y) ==> s'.kernel.files[y] == s.kernel.files[y])
    && (forall v :: 0 <= v < |s.workers| && v != w ==> |s'.workers| == |s.workers| && s'.workers[v] == s.workers[v])
    && (forall fd :: fd in s.kernel.table && !Closes(s, s', p, fd) ==> Is(s'.kernel, fd, s.kernel.table[fd]))
    && (!p.Idle? ==> s'.kernel.pipe == s.kernel.pipe)
    // the content of a connection is only added to
    && (forall x :: 0 <= x < |s.kernel.conns| ==>
          && s'.kernel.conns[x].fd == s.kernel.conns[x].fd
          && s'.kernel.conns[x].incoming == s.kernel.conns[x].incoming
          && s'.kernel.conns[x].lingers == s.kernel.conns[x].lingers
          && s.kernel.conns[x].sent <= s'.kernel.conns[x].sent)
  }

  predicate Closes(s: State, s': State, p: Worker, fd: int32) {
    || (p.Closing? && fd == p.childfd)
    || (p.ClosingFile? && fd == p.fd)
    || (p.Idle? && !s'.status.Running? && Is(s.kernel, fd, PipeRead))
  }

  lemma StepTouchesOwn(c: Config, s: State, w: nat, r: Reply)
    requires Inv(c, s) && Step(c, s, Work(w, r)).Some?
    ensures TouchesOwn(s, Step(c, s, Work(w, r)).value, w)
  {
    if s.workers[w].Idle? {
      IdleTouchesOwn(c, s, w, r);
    } else {
      HeldIsReady(c, s, w);
      var p := s.workers[w];
      if p.Allocating? { AllocateTouchesOwn(c, s, w, r); }
      else if p.Reading? { ReadTouchesOwn(c, s, w, r); }
      else if p.Parsing? { ParseTouchesOwn(c, s, w, r); }
      else if p.Opening? { OpenTouchesOwn(c, s, w, r); }
      else if p.Refusing? || p.Closing? { EndTouchesOwn(c, s, w, r); }
      else if p.Stating? { StatTouchesOwn(c, s, w, r); }
      else if p.Reporting? { ReportTouchesOwn(c, s, w, r); }
      else if p.ClosingFile? { CloseFileTouchesOwn(c, s, w, r); }
      else if p.Loading? && LoadsWhole(c, s, w, r) { LoadTouchesOwn(c, s, w, r); }
      else if p.Loading? { LoadFailTouchesOwn(c, s, w, r); }
      else if p.SendingHeader? { SendHeaderTouchesOwn(c, s, w, r); }
      else { SendBodyTouchesOwn(c, s, w, r); }
    }
  }

  lemma IdleTouchesOwn(c: Config, s: State, w: nat, r: Reply)
    requires w < |s.workers| && s.workers[w].Idle? && Is(s.kernel, c.pipeIn, PipeRead) && TakeStep(c, s, w, r).Some?
    ensures TouchesOwn(s, TakeStep(c, s, w, r).value, w)
  {
  }

  lemma ReadTouchesOwn(c: Config, s: State, w: nat, r: Reply)
    requires Ready(c, s, w) && s.workers[w].Reading?
    ensures TouchesOwn(s, ReadStep(c, s, w, r), w)
  {
  }

  lemma AllocateTouchesOwn(c: Config, s: State, w: nat, r: Reply)
    requires Ready(c, s, w) && s.workers[w].Allocating?
    ensures TouchesOwn(s, WorkerStep(c, s, w, r).value, w)
  {
  }

  lemma ParseTouchesOwn(c: Config, s: State, w: nat, r: Reply)
    requires Ready(c, s, w) && s.workers[w].Parsing?
    ensures TouchesOwn(s, WorkerStep(c, s, w, r).value, w)
  {
  }

  lemma OpenTouchesOwn(c: Config, s: State, w: nat, r: Reply)
    requires Ready(c, s, w) && s.workers[w].Opening?
    ensures TouchesOwn(s, WorkerStep(c, s, w, r).value, w)
  {
  }

  lemma EndTouchesOwn(c: Config, s: State, w: nat, r: Reply)
    requires Ready(c, s, w) && (s.workers[w].Refusing? || s.workers[w].Closing?)
    ensures TouchesOwn(s, WorkerStep(c, s, w, r).value, w)
  {
  }

  lemma StatTouchesOwn(c: Config, s: State, w: nat, r: Reply)
    requires Ready(c, s, w) && s.workers[w].Stating?
    ensures TouchesOwn(s, WorkerStep(c, s, w, r).value, w)
  {
  }

  lemma ReportTouchesOwn(c: Config, s: State, w: nat, r: Reply)
    requires Ready(c, s, w) && s.workers[w].Reporting? && s.status.Running? && ReportStep(c, s, w, r).Some?
    ensures TouchesOwn(s, ReportStep(c, s, w, r).value, w)
  {
  }

  lemma CloseFileTouchesOwn(c: Config, s: State, w: nat, r: Reply)
    requires Ready(c, s, w) && s.workers[w].ClosingFile?
    ensures TouchesOwn(s, WorkerStep(c, s, w, r).value, w)
  {
  }

  lemma SendHeaderTouchesOwn(c: Config, s: State, w: nat, r: Reply)
    requires Ready(c, s, w) && s.workers[w].SendingHeader?
    ensures TouchesOwn(s, WorkerStep(c, s, w, r).value, w)
  {
  }

  lemma SendBodyTouchesOwn(c: Config, s: State, w: nat, r: Reply)
    requires Ready(c, s, w) && s.workers[w].SendingBody?
    ensures TouchesOwn(s, WorkerStep(c, s, w, r).value, w)
  {
  }

  lemma LoadFailTouchesOwn(c: Config, s: State, w: nat, r: Reply)
    requires Ready(c, s, w) && s.workers[w].Loading? && !LoadsWhole(c, s, w, r)
    ensures TouchesOwn(s, LoadStep(c, s, w, r), w)
  {
  }

  lemma LoadTouchesOwn(c: Config, s: State, w: nat, r: Reply)
    requires Ready(c, s, w) && s.workers[w].Loading? && LoadsWhole(c, s, w, r)
    ensures TouchesOwn(s, LoadStep(c, s, w, r), w)
  {
  }

  /** While the server runs, every descriptor that was open at the start still leads where it led; so no
      live descriptor is one of them. */
  lemma {:induction false} StartDescriptorsStay(c: Config, s: State, ls: seq<Label>, fd: int32)
    requires Inv(c, s) && Run(c, s, ls).Some? && Run(c, s, ls).value.status.Running?
    requires fd in s.kernel.table && !IsObject(s.kernel, fd)
    ensures var t := Run(c, s, ls).value;
            && Is(t.kernel, fd, s.kernel.table[fd])
            && |t.dequeued| + InHand(t) <= |t.accepted|
            && fd !in t.accepted[|t.dequeued|..]
            && (forall w :: 0 <= w < |t.workers| && !t.workers[w].Idle? ==> t.workers[w].childfd != fd)
            && (forall w :: 0 <= w < |t.workers| && HasFile(t.workers[w]) ==> t.workers[w].fd != fd)
    decreases |ls|
  {
    if ls == [] {
      forall w | 0 <= w < |s.workers| && !s.workers[w].Idle?
        ensures s.workers[w].childfd != fd && (HasFile(s.workers[w]) ==> s.workers[w].fd != fd)
      {
        HeldIsReady(c, s, w);
      }
      forall i | |s.dequeued| <= i < |s.accepted| ensures s.accepted[i] != fd {
        assert ConnInv(c, s, i);
        assert ConnectionOk(s.kernel, i);
      }
    } else {
      var s' := Step(c, s, ls[0]).value;
      StepInv(c, s, ls[0]);
      StillRunning(c, s', ls[1..]);
      if ls[0].Work? { WorkKeepsStart(c, s, ls[0].worker, ls[0].reply, fd); }
      StartDescriptorsStay(c, s', ls[1..], fd);
    }
  }

  /** A run that ends in a running state began in one. */
  lemma StillRunning(c: Config, s: State, ls: seq<Label>)
    requires Run(c, s, ls).Some? && Run(c, s, ls).value.status.Running?
    ensures s.status.Running?
  {
  }

  lemma WorkKeepsStart(c: Config, s: State, w: nat, r: Reply, fd: int32)
    requires Inv(c, s) && Step(c, s, Work(w, r)).Some? && Step(c, s, Work(w, r)).value.status.Running?
    requires fd in s.kernel.table && !IsObject(s.kernel, fd)
    ensures Is(Step(c, s, Work(w, r)).value.kernel, fd, s.kernel.table[fd])
  {
    var s' := Step(c, s, Work(w, r)).value;
    StepTouchesOwn(c, s, w, r);
    if !s.workers[w].Idle? { HeldIsReady(c, s, w); }
    assert !Closes(s, s', s.workers[w], fd);
  }

  // ---- What a client gets ----

  /** A client: the descriptor its connection was handed out as, the bytes it sends, and whether it lingers
      then. */
  datatype Arrival = Arrival(fd: int32, incoming: seq<byte>, lingers: bool)

  /** The clients of a run in the order of their accepts. */
  function Arrivals(ls: seq<Label>): seq<Arrival> {
    if ls == [] then []
    else if ls[0].Accept? then [Arrival(ls[0].fd, ls[0].incoming, ls[0].lingers)] + Arrivals(ls[1..])
    else Arrivals(ls[1..])
  }

  predicate Records(s: State, arrivals: seq<Arrival>) {
    && |s.kernel.conns| == |arrivals|
    && forall i :: 0 <= i < |arrivals| ==>
         && s.kernel.conns[i].fd == arrivals[i].fd
         && s.kernel.conns[i].incoming == arrivals[i].incoming
         && s.kernel.conns[i].lingers == arrivals[i].lingers
  }

  lemma StepRecords(c: Config, s: State, l: Label, before: seq<Arrival>)
    requires Inv(c, s) && Step(c, s, l).Some? && Records(s, before)
    ensures Records(Step(c, s, l).value, before + Arrivals([l]))
  {
    assert Arrivals([l][1..]) == [];
    if l.Work? {
      StepTouchesOwn(c, s, l.worker, l.reply);
      assert before + [] == before;
    }
  }

  lemma ArrivalsHead(ls: seq<Label>)
    requires ls != []
    ensures Arrivals(ls) == Arrivals([ls[0]]) + Arrivals(ls[1..])
  {
    var l := ls[0];
    var tail := Arrivals(ls[1..]);
    assert [l][1..] == [];
    if l.Accept? {
      assert Arrivals([l]) == [Arrival(l.fd, l.incoming, l.lingers)];
    } else {
      assert Arrivals([l]) == [];
      assert [] + tail == tail;
    }
  }

  lemma Associative<T>(a: seq<T>, b: seq<T>, c: seq<T>)
    ensures (a + b) + c == a + (b + c)
  {
  }

  lemma ArrivalsInOrder(before: seq<Arrival>, ls: seq<Label>)
    requires ls != []
    ensures (before + Arrivals([ls[0]])) + Arrivals(ls[1..]) == before + Arrivals(ls)
  {
    ArrivalsHead(ls);
    var (head, tail) := (Arrivals([ls[0]]), Arrivals(ls[1..]));
    Associative(before, head, tail);
  }

  lemma {:induction false} RunRecords(c: Config, s: State, ls: seq<Label>, before: seq<Arrival>)
    requires Inv(c, s) && Run(c, s, ls).Some? && Records(s, before)
    ensures Records(Run(c, s, ls).value, before + Arrivals(ls))
    decreases |ls|
  {
    if ls == [] {
      assert before + [] == before;
    } else {
      var s' := Step(c, s, ls[0]).value;
      StepRecords(c, s, ls[0], before);
      StepInv(c, s, ls[0]);
      RunRecords(c, s', ls[1..], before + Arrivals([ls[0]]));
      ArrivalsInOrder(before, ls);
    }
  }

  /** Whatever the interleaving and however descriptors were reused: a closed connection was sent exactly
      the sequential response to the bytes of its own client, and an open one a part of a response. */
  lemma ClientsGetTheirResponse(c: Config, s0: State, ls: seq<Label>, i: nat)
    requires CleanStart(c, s0) && Run(c, s0, ls).Some? && i < |Arrivals(ls)|
    ensures var s := Run(c, s0, ls).value;
            && |s.kernel.conns| == |s.results| == |Arrivals(ls)|
            && var x := s.kernel.conns[i];
            && x.fd == Arrivals(ls)[i].fd
            && (!x.open ==> x.sent == Response(c.fs, Arrivals(ls)[i].incoming, s.results[i]))
            && (x.open ==>
                  x.sent in {[], OK_HEADER, Response(c.fs, Arrivals(ls)[i].incoming, s.results[i])})
  {
    InitInv(c, s0);
    RunInv(c, s0, ls);
    RunRecords(c, s0, ls, []);
    assert [] + Arrivals(ls) == Arrivals(ls);
    var s := Run(c, s0, ls).value;
    assert ConnInv(c, s, i);
    if s.kernel.conns[i].open && i < |s.dequeued| {
      assert WorkerInv(c, s, s.server[i]);
    }
  }

  /** The recorded results are what the calls had to return on the worker's own objects: the first bytes of
      its own client, the file its own client asked for, the whole length of that file. */
  lemma CallsGiveResults(c: Config, s: State, w: nat, r: Reply)
    requires Inv(c, s) && Step(c, s, Work(w, r)).Some? && !s.workers[w].Idle?
    ensures var s' := Step(c, s, Work(w, r)).value;
            var p := s.workers[w];
            && p.conn < |s.results| == |s'.results| == |s.kernel.conns|
            && var (x, t, t') := (s.kernel.conns[p.conn], s.results[p.conn], s'.results[p.conn]);
            && (p.Reading? ==>
                  t'.read == Limit(r.n, if |x.incoming| < 1024 then |x.incoming| else 1024) && t'.garbage == r.garbage)
            && (p.Opening? ==> Named(x, t, p.name) && t'.found == (Unused(s.kernel, r.fd) && p.name in c.fs))
            && (p.Stating? ==> t'.statOk == (r.n >= 0))
            && (p.Loading? ==>
                  && p.file < |s.kernel.files|
                  && var name := s.kernel.files[p.file].name;
                  && Named(x, t, name) && name in c.fs && t'.got == Limit(r.n, |c.fs[name]|))
  {
    HeldIsReady(c, s, w);
    var p := s.workers[w];
    StepInv(c, s, Work(w, r));
    if p.Reading? { ReadGives(c, s, w, r); }
    else if p.Opening? { OpenGives(c, s, w, r); }
    else if p.Stating? { StatGives(c, s, w, r); }
    else if p.Loading? { LoadGives(c, s, w, r); }
  }

  lemma StatGives(c: Config, s: State, w: nat, r: Reply)
    requires Ready(c, s, w) && s.workers[w].Stating?
    ensures StatStep(c, s, w, r).results[s.workers[w].conn].statOk == (r.n >= 0)
  {
  }

  lemma ReadGives(c: Config, s: State, w: nat, r: Reply)
    requires Ready(c, s, w) && s.workers[w].Reading?
    ensures var t' := ReadStep(c, s, w, r).results[s.workers[w].conn];
            var n := |s.kernel.conns[s.workers[w].conn].incoming|;
            t'.read == Limit(r.n, if n < 1024 then n else 1024) && t'.garbage == r.garbage
  {
  }

  lemma OpenGives(c: Config, s: State, w: nat, r: Reply)
    requires Ready(c, s, w) && s.workers[w].Opening?
    ensures OpenStep(c, s, w, r).results[s.workers[w].conn].found
            == (Unused(s.kernel, r.fd) && s.workers[w].name in c.fs)
  {
  }

  lemma LoadGives(c: Config, s: State, w: nat, r: Reply)
    requires Ready(c, s, w) && s.workers[w].Loading?
    ensures LoadStep(c, s, w, r).results[s.workers[w].conn].got
            == Limit(r.n, |c.fs[s.kernel.files[s.workers[w].file].name]|)
  {
  }

  // ---- Where every connection is ----

  datatype Place = Hand | InPipe(position: nat) | With(worker: nat) | Closed

  /** Connection `i` is found at a place by looking at the descriptors there. */
  predicate At(s: State, i: nat, place: Place) {
    match place
    case Hand => s.acceptor.Sending? && Is(s.kernel, s.acceptor.childfd, Conn(i))
    case InPipe(k) => 4 * k + 4 <= |s.kernel.pipe| && Is(s.kernel, DecodeInt(s.kernel.pipe[4 * k..4 * k + 4]), Conn(i))
    case With(w) => w < |s.workers| && !s.workers[w].Idle? && Is(s.kernel, s.workers[w].childfd, Conn(i))
    case Closed => i < |s.kernel.conns| && !s.kernel.conns[i].open
  }

  function PlaceOf(s: State, i: nat): Place {
    if i < |s.server| then
      if i < |s.kernel.conns| && s.kernel.conns[i].open then With(s.server[i]) else Closed
    else if s.acceptor.Sending? && i + 1 == |s.accepted| then Hand
    else InPipe(i - |s.server|)
  }

  lemma {:induction false} FramesAt(fds: seq<int32>, k: nat)
    ensures |Frames(fds)| == 4 * |fds|
    ensures k < |fds| ==> Frames(fds)[4 * k..4 * k + 4] == EncodeInt(fds[k])
  {
    FramesLength(fds);
    if k < |fds| {
      FramesLength(fds[1..]);
      var rest := Frames(fds[1..]);
      assert Frames(fds) == EncodeInt(fds[0]) + rest;
      if k > 0 {
        FramesAt(fds[1..], k - 1);
        assert Frames(fds)[4 * k..4 * k + 4] == rest[4 * (k - 1)..4 * (k - 1) + 4];
      }
    }
  }

  lemma QueueAt(c: Config, s: State, i: nat, k: nat)
    requires Inv(c, s) && s.status.Running?
    ensures At(s, i, InPipe(k)) <==> k < |Queue(s)| && i == |s.dequeued| + k
  {
    FramesAt(Queue(s), k);
    if k < |Queue(s)| {
      IntRoundTrip(Queue(s)[k], EncodeInt(Queue(s)[k]));
      var n := |s.dequeued| + k;
      assert Queue(s)[k] == s.accepted[n];
      assert ConnInv(c, s, n);
      assert ConnectionOk(s.kernel, n);
    }
  }

  /** While the server runs, every accepted connection is in exactly one place: the acceptor's hand, one
      position of the pipe, one worker, or closed. */
  lemma ExactlyOnePlace(c: Config, s: State, i: nat, place: Place)
    requires Reachable(c, s) && s.status.Running? && i < |s.accepted|
    ensures At(s, i, place) <==> place == PlaceOf(s, i)
  {
    ReachableInv(c, s);
    assert ConnInv(c, s, i);
    assert ConnectionOk(s.kernel, i);
    match place
    case Hand =>
      if s.acceptor.Sending? {
        assert ConnInv(c, s, |s.accepted| - 1);
        assert ConnectionOk(s.kernel, |s.accepted| - 1);
      }
    case InPipe(k) =>
      QueueAt(c, s, i, k);
    case With(w) =>
      if w < |s.workers| && !s.workers[w].Idle? { HeldIsReady(c, s, w); }
    case Closed =>
  }

  // ---- Order and permanence ----

  /** `t` comes after `s`: the logs only grow, what a client was sent is only added to, and a closed
      connection never changes again. */
  predicate Later(s: State, t: State) {
    && s.accepted <= t.accepted && s.dequeued <= t.dequeued && s.server <= t.server && s.opener <= t.opener
    && |s.kernel.conns| <= |t.kernel.conns|
    && forall x :: 0 <= x < |s.kernel.conns| ==>
         && s.kernel.conns[x].sent <= t.kernel.conns[x].sent
         && (!s.kernel.conns[x].open ==> t.kernel.conns[x] == s.kernel.conns[x])
  }

  lemma StepLater(c: Config, s: State, l: Label)
    requires Inv(c, s) && Step(c, s, l).Some?
    ensures Later(s, Step(c, s, l).value)
  {
    if l.Work? {
      LogsGrow(c, s, l.worker, l.reply);
      StepTouchesOwn(c, s, l.worker, l.reply);
      if !s.workers[l.worker].Idle? { assert WorkerInv(c, s, l.worker); }
      OwnIsOpen(s, Step(c, s, l).value, l.worker);
    }
  }

  lemma OwnIsOpen(s: State, s': State, w: nat)
    requires w < |s.workers| && TouchesOwn(s, s', w)
    requires !s.workers[w].Idle? ==> s.workers[w].conn < |s.kernel.conns| && s.kernel.conns[s.workers[w].conn].open
    ensures forall x :: 0 <= x < |s.kernel.conns| && !s.kernel.conns[x].open ==> s'.kernel.conns[x] == s.kernel.conns[x]
  {
  }

  predicate LogsOnlyGrow(s: State, s': State) {
    s'.accepted == s.accepted && s.dequeued <= s'.dequeued && s.server <= s'.server && s.opener <= s'.opener
  }

  lemma LogsGrow(c: Config, s: State, w: nat, r: Reply)
    requires w < |s.workers| && WorkerStep(c, s, w, r).Some?
    ensures LogsOnlyGrow(s, WorkerStep(c, s, w, r).value)
  {
    if HasFile(s.workers[w]) { FileLogsGrow(c, s, w, r); }
  }

  lemma FileLogsGrow(c: Config, s: State, w: nat, r: Reply)
    requires w < |s.workers| && HasFile(s.workers[w]) && WorkerStep(c, s, w, r).Some?
    ensures LogsOnlyGrow(s, WorkerStep(c, s, w, r).value)
  {
  }

  /** A connection is taken from the pipe at most once, by one worker, and is closed at most once. */
  lemma {:induction false} RunLater(c: Config, s: State, ls: seq<Label>)
    requires Inv(c, s) && Run(c, s, ls).Some?
    ensures Later(s, Run(c, s, ls).value)
    decreases |ls|
  {
    if ls != [] {
      StepLater(c, s, ls[0]);
      StepInv(c, s, ls[0]);
      RunLater(c, Step(c, s, ls[0]).value, ls[1..]);
    }
  }

  /** How much of the transcript of connection `i` is settled: nothing, the read, `open`, `fstat`, all. */
  function Settledness(s: State, i: nat): nat {
    if i >= |s.server| then 0
    else if i < |s.kernel.conns| && !s.kernel.conns[i].open then 4
    else if s.server[i] >= |s.workers| then 0
    else
      match s.workers[s.server[i]]
      case Idle => 0
      case Allocating(_, _) => 0
      case Reading(_, _) => 0
      case Parsing(_, _, _) => 1
      case Opening(_, _, _) => 1
      case Stating(_, _, _, _) => 2
      case SendingHeader(_, _, _, _, _) => 3
      case Loading(_, _, _, _, _) => 3
      case _ => 4
  }

  predicate AgreeUpTo(level: nat, t: Transcript, t': Transcript) {
    && (level >= 1 ==> t'.read == t.read && t'.garbage == t.garbage)
    && (level >= 2 ==> t'.found == t.found)
    && (level >= 3 ==> t'.statOk == t.statOk)
    && (level >= 4 ==> t' == t)
  }

  /** What is settled in `s` is as settled and the same in `t`. */
  predicate KeepsResult(s: State, t: State, i: nat)
    requires i < |s.results| <= |t.results|
  {
    Settledness(s, i) <= Settledness(t, i) && AgreeUpTo(Settledness(s, i), s.results[i], t.results[i])
  }

  predicate KeepsResults(s: State, t: State) {
    && |s.results| <= |t.results|
    && forall i :: 0 <= i < |s.results| ==> KeepsResult(s, t, i)
  }

  lemma StepKeepsResults(c: Config, s: State, l: Label)
    requires Inv(c, s) && Step(c, s, l).Some? && Step(c, s, l).value.status.Running?
    ensures KeepsResults(s, Step(c, s, l).value)
  {
    StepInv(c, s, l);
    if l.Work? {
      if s.workers[l.worker].Idle? {
        TakeKeepsResults(c, s, l.worker, l.reply);
      } else {
        HeldKeepsResults(c, s, l.worker, l.reply);
      }
    }
  }

  lemma TakeKeepsResults(c: Config, s: State, w: nat, r: Reply)
    requires Inv(c, s) && w < |s.workers| && s.workers[w].Idle?
    requires TakeStep(c, s, w, r).Some? && TakeStep(c, s, w, r).value.status.Running?
    ensures KeepsResults(s, TakeStep(c, s, w, r).value)
  {
    forall i | 0 <= i < |s.results| ensures KeepsResult(s, TakeStep(c, s, w, r).value, i) {
      assert ConnInv(c, s, i);
    }
  }

  lemma HeldKeepsResults(c: Config, s: State, w: nat, r: Reply)
    requires Inv(c, s) && Step(c, s, Work(w, r)).Some? && Step(c, s, Work(w, r)).value.status.Running?
    requires !s.workers[w].Idle?
    ensures KeepsResults(s, Step(c, s, Work(w, r)).value)
  {
    var s' := Step(c, s, Work(w, r)).value;
    HeldIsReady(c, s, w);
    StepMoves(c, s, w, r);
    OwnResultsKept(c, s, w, r);
    forall i | 0 <= i < |s.results| ensures KeepsResult(s, s', i) {
      assert ConnInv(c, s, i);
      if i != s.workers[w].conn { OtherResultsKept(c, s, s', w, i); }
    }
  }

  lemma OtherResultsKept(c: Config, s: State, s': State, w: nat, i: nat)
    requires Shape(c, s) && Shape(c, s') && i < |s.results| && ConnInv(c, s, i)
    requires w < |s.workers| && !s.workers[w].Idle? && s.workers[w].conn != i
    requires exists j :: Moved(c, s, s', w, s.workers[w].conn, j)
    ensures KeepsResult(s, s', i)
  {
  }

  lemma OwnResultsKept(c: Config, s: State, w: nat, r: Reply)
    requires Ready(c, s, w) && s.status.Running?
    requires WorkerStep(c, s, w, r).Some? && WorkerStep(c, s, w, r).value.status.Running?
    ensures |WorkerStep(c, s, w, r).value.results| == |s.results|
    ensures KeepsResult(s, WorkerStep(c, s, w, r).value, s.workers[w].conn)
  {
    var p := s.workers[w];
    if p.Allocating? || p.Reading? {}
    else if p.Parsing? {}
    else if p.Opening? { OpenKeepsResult(c, s, w, r); }
    else if p.Stating? { StatKeepsResult(c, s, w, r); }
    else if p.Loading? { LoadKeepsResult(c, s, w, r); }
    else if p.Reporting? { ReportKeepsResult(c, s, w, r); }
    else if p.Refusing? || p.Closing? || p.ClosingFile? { EndKeepsResult(c, s, w, r); }
    else if p.SendingHeader? { SendHeaderKeepsResult(c, s, w, r); }
    else { SendBodyKeepsResult(c, s, w, r); }
  }

  lemma OpenKeepsResult(c: Config, s: State, w: nat, r: Reply)
    requires Ready(c, s, w) && s.workers[w].Opening?
    ensures |OpenStep(c, s, w, r).results| == |s.results|
    ensures KeepsResult(s, OpenStep(c, s, w, r), s.workers[w].conn)
  {
  }

  lemma StatKeepsResult(c: Config, s: State, w: nat, r: Reply)
    requires Ready(c, s, w) && s.workers[w].Stating?
    ensures |StatStep(c, s, w, r).results| == |s.results|
    ensures KeepsResult(s, StatStep(c, s, w, r), s.workers[w].conn)
  {
  }

  lemma LoadKeepsResult(c: Config, s: State, w: nat, r: Reply)
    requires Ready(c, s, w) && s.workers[w].Loading?
    ensures |LoadStep(c, s, w, r).results| == |s.results|
    ensures KeepsResult(s, LoadStep(c, s, w, r), s.workers[w].conn)
  {
  }

  lemma SendHeaderKeepsResult(c: Config, s: State, w: nat, r: Reply)
    requires Ready(c, s, w) && s.workers[w].SendingHeader?
    ensures |WorkerStep(c, s, w, r).value.results| == |s.results|
    ensures KeepsResult(s, WorkerStep(c, s, w, r).value, s.workers[w].conn)
  {
  }

  lemma SendBodyKeepsResult(c: Config, s: State, w: nat, r: Reply)
    requires Ready(c, s, w) && s.workers[w].SendingBody?
    ensures |WorkerStep(c, s, w, r).value.results| == |s.results|
    ensures KeepsResult(s, WorkerStep(c, s, w, r).value, s.workers[w].conn)
  {
  }

  lemma ReportKeepsResult(c: Config, s: State, w: nat, r: Reply)
    requires Ready(c, s, w) && s.workers[w].Reporting? && ReportStep(c, s, w, r).Some?
    requires s.status.Running? && ReportStep(c, s, w, r).value.status.Running?
    ensures |ReportStep(c, s, w, r).value.results| == |s.results|
    ensures KeepsResult(s, ReportStep(c, s, w, r).value, s.workers[w].conn)
  {
  }

  lemma EndKeepsResult(c: Config, s: State, w: nat, r: Reply)
    requires Ready(c, s, w) && (s.workers[w].Refusing? || s.workers[w].Closing? || s.workers[w].ClosingFile?)
    ensures |WorkerStep(c, s, w, r).value.results| == |s.results|
    ensures KeepsResult(s, WorkerStep(c, s, w, r).value, s.workers[w].conn)
  {
  }

  /** Over any run a recorded result is never overwritten. */
  lemma {:induction false} RunKeepsResults(c: Config, s: State, ls: seq<Label>)
    requires Inv(c, s) && Run(c, s, ls).Some? && Run(c, s, ls).value.status.Running?
    ensures KeepsResults(s, Run(c, s, ls).value)
    decreases |ls|
  {
    if ls != [] {
      var s' := Step(c, s, ls[0]).value;
      StepInv(c, s, ls[0]);
      StillRunning(c, s', ls[1..]);
      StepKeepsResults(c, s, ls[0]);
      RunKeepsResults(c, s', ls[1..]);
      KeepsTransitive(s, s', Run(c, s, ls).value);
    }
  }

  lemma KeepsTransitive(s: State, t: State, u: State)
    requires KeepsResults(s, t) && KeepsResults(t, u)
    ensures KeepsResults(s, u)
  {
    forall i | 0 <= i < |s.results| ensures KeepsResult(s, u, i) {
      assert KeepsResult(s, t, i) && KeepsResult(t, u, i);
    }
  }

  /** The messages in a byte string, four bytes each; what is left over is no message. */
  function Messages(bytes: seq<byte>): seq<int32> {
    if |bytes| < 4 then [] else [DecodeInt(bytes[..4])] + Messages(bytes[4..])
  }

  lemma {:induction false} MessagesOfFrames(fds: seq<int32>)
    ensures Messages(Frames(fds)) == fds
  {
    if fds != [] {
      IntRoundTrip(fds[0], EncodeInt(fds[0]));
      assert Frames(fds)[4..] == Frames(fds[1..]);
      assert Frames(fds)[..4] == EncodeInt(fds[0]);
      MessagesOfFrames(fds[1..]);
    }
  }

  /** The byte pipe is a queue of descriptors: whole messages only, taken in the order of the accepts. */
  predicate Framed(s: State) {
    && |s.kernel.pipe| % 4 == 0
    && s.accepted == s.dequeued + Messages(s.kernel.pipe)
                     + (if s.acceptor.Sending? then [s.acceptor.childfd] else [])
  }

  lemma PipeIsQueue(c: Config, s: State)
    requires Reachable(c, s) && s.status.Running?
    ensures Framed(s)
  {
    ReachableInv(c, s);
    FramesLength(Queue(s));
    MessagesOfFrames(Queue(s));
    forall i | 0 <= i < |s.dequeued| ensures s.dequeued[i] == s.accepted[i] { assert ConnInv(c, s, i); }
    LogsMatch(c, s);
  }

  lemma LogsMatch(c: Config, s: State)
    requires Shape(c, s) && forall i :: 0 <= i < |s.dequeued| ==> s.dequeued[i] == s.accepted[i]
    ensures s.accepted == s.dequeued + Queue(s) + (if s.acceptor.Sending? then [s.acceptor.childfd] else [])
  {
  }
}
