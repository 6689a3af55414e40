/** What clients get when no call fails: the file they asked for, without reference to call results. */
module ServerDelivery {
  import opened Bytes
  import opened RequestLine
  import opened Os
  import opened Handler
  import opened Server
  import opened ServerInvariant
  import opened ServerSafety
  import opened ServerProgress
  import opened ServerService

  // ---- Favourable runs ----

  /** In this step the kernel refuses nothing and reads are whole. */
  predicate Favourable(s: State, l: Label) {
    match l
    case Work(w, r) =>
      w < |s.workers| &&
      (match s.workers[w]
       case Reading(_, _) => r.n >= BUFFER_SIZE
       case Opening(_, _, _) => Unused(s.kernel, r.fd)
       case Stating(_, _, _, _) => r.n >= 0
       case Loading(_, _, _, _, size) => r.n >= size
       case _ => true)
    case _ => true
  }

  predicate FavourableRun(c: Config, s: State, ls: seq<Label>)
    decreases |ls|
  {
    ls == [] || (Step(c, s, ls[0]).Some? && Favourable(s, ls[0]) && FavourableRun(c, Step(c, s, ls[0]).value, ls[1..]))
  }

  /** As much of the request as one read can deliver. */
  function First(incoming: seq<byte>): seq<byte> {
    if |incoming| <= BUFFER_SIZE then incoming else incoming[..BUFFER_SIZE]
  }

  /** The answer to a request: nothing to a client that sends nothing, header and file, or 404 when there is
      no such file. */
  function Answer(fs: FileSystem, incoming: seq<byte>): seq<byte> {
    if incoming == [] then [] else
    match RequestFile(Received(First(incoming)))
    case None => []
    case Some(name) => if name in fs then OK_HEADER + fs[name] else NOT_FOUND
  }

  // ---- Transcripts of favourable runs ----

  predicate ReadWhole(incoming: seq<byte>, t: Transcript) {
    t.read == |First(incoming)|
  }

  predicate Whole(fs: FileSystem, incoming: seq<byte>, t: Transcript) {
    && ReadWhole(incoming, t)
    && (GotRequest(incoming, t) ==>
          match RequestFile(RequestBuffer(incoming, t))
          case None => true
          case Some(name) => t.found == (name in fs) && (t.found ==> t.statOk && t.got == |fs[name]|))
  }

  /** With a whole transcript and a request that settles its file, the response is the answer. */
  lemma WholeIsAnswer(fs: FileSystem, incoming: seq<byte>, t: Transcript)
    requires Whole(fs, incoming, t) && Settled(First(incoming))
    ensures Response(fs, incoming, t) == Answer(fs, incoming)
  {
    if incoming != [] {
      var first := First(incoming);
      assert incoming[..t.read] == first;
      SettledFile(first, t.garbage[t.read..]);
    }
  }

  /** A 404 is told apart from a file by its first line. */
  lemma AnswerTellsMissing(fs: FileSystem, incoming: seq<byte>, name: seq<byte>)
    requires incoming != [] && RequestFile(Received(First(incoming))) == Some(name)
    ensures Answer(fs, incoming) == NOT_FOUND <==> name !in fs
  {
    if name in fs {
      assert (OK_HEADER + fs[name])[7] == OK_HEADER[7];
      assert NOT_FOUND[7] != OK_HEADER[7];
    }
  }

  /** The answer to a request line, byte by byte: for "/" the index file and otherwise "." followed by the URI;
      the 27 bytes of the 404 line when that is missing, and the 20 bytes of the header and the file when it
      is there. The space behind the URI settles the request. */
  lemma AnswerBytes(fs: FileSystem, verb: seq<byte>, uri: seq<byte>, rest: seq<byte>)
    requires IsToken(verb) && IsToken(uri) && |verb| + |uri| + 2 <= 1024
    ensures var incoming := verb + [32] + uri + [32] + rest;
            var file := if uri == [47] then [46, 47, 105, 110, 100, 101, 120, 46, 104, 116, 109, 108] else [46] + uri;
            var r := Answer(fs, incoming);
            && Settled(First(incoming))
            && (file !in fs ==>
                  r == [72, 84, 84, 80, 47, 49, 46, 48, 32, 52, 48, 52, 32,
                        78, 111, 116, 32, 70, 111, 117, 110, 100, 13, 10, 13, 10, 0])
            && (file in fs ==>
                  && |r| >= 20
                  && r[..20] == [72, 84, 84, 80, 47, 49, 46, 49, 32, 50, 48, 48, 32, 79, 75, 13, 10, 13, 10, 0]
                  && r[20..] == fs[file])
  {
    var incoming := verb + [32] + uri + [32] + rest;
    var (q, v) := (|verb| + 1 + |uri|, Received(First(incoming)));
    assert incoming[..q] == verb + [SPACE] + uri && incoming[q] == SPACE;
    assert First(incoming)[..q] == incoming[..q] == v[..q];
    SpaceSettles(verb, uri, First(incoming));
    TokenName(verb, uri, v);
    IndexBytes();
    LiteralBytes();
  }

  /** What a favourable run has recorded for a connection in its worker's hand. */
  predicate Promised(fs: FileSystem, p: Worker, incoming: seq<byte>, t: Transcript) {
    match p
    case Idle => true
    case Allocating(_, _) => true
    case Reading(_, _) => true
    case Parsing(_, _, _) => ReadWhole(incoming, t)
    case Opening(_, _, _) => ReadWhole(incoming, t)
    case Stating(_, _, _, _) => ReadWhole(incoming, t)
    case SendingHeader(_, _, _, _, _) => ReadWhole(incoming, t)
    case Loading(_, _, _, _, _) => ReadWhole(incoming, t)
    case _ => Whole(fs, incoming, t)
  }

  predicate Delivered(c: Config, s: State, i: nat)
    requires Shape(c, s) && i < |s.dequeued|
  {
    var x := s.kernel.conns[i];
    if x.open then s.server[i] < |s.workers| && Promised(c.fs, s.workers[s.server[i]], x.incoming, s.results[i])
    else Whole(c.fs, x.incoming, s.results[i])
  }

  predicate Delivery(c: Config, s: State)
    requires Shape(c, s)
  {
    forall i :: 0 <= i < |s.dequeued| ==> Delivered(c, s, i)
  }

  // ---- Favourable steps ----

  /** The worker's own connection after a favourable step. */
  predicate OwnDelivered(c: Config, s: State, s': State, w: nat)
    requires w < |s.workers| && !s.workers[w].Idle?
  {
    Shape(c, s') && s.workers[w].conn < |s'.dequeued| && Delivered(c, s', s.workers[w].conn)
  }

  predicate Good(c: Config, s: State, w: nat) {
    && Ready(c, s, w)
    && s.workers[w].conn < |s.dequeued|
    && Promised(c.fs, s.workers[w], s.kernel.conns[s.workers[w].conn].incoming, s.results[s.workers[w].conn])
  }

  lemma ReadDelivers(c: Config, s: State, w: nat, r: Reply)
    requires Good(c, s, w) && s.workers[w].Reading? && r.n >= BUFFER_SIZE
    ensures OwnDelivered(c, s, ReadStep(c, s, w, r), w)
  {
  }

  lemma OpenDelivers(c: Config, s: State, w: nat, r: Reply)
    requires Good(c, s, w) && s.workers[w].Opening? && Unused(s.kernel, r.fd)
    ensures OwnDelivered(c, s, OpenStep(c, s, w, r), w)
  {
  }

  lemma StatDelivers(c: Config, s: State, w: nat, r: Reply)
    requires Good(c, s, w) && s.workers[w].Stating? && r.n >= 0
    ensures OwnDelivered(c, s, StatStep(c, s, w, r), w)
  {
  }

  lemma LoadDelivers(c: Config, s: State, w: nat, r: Reply)
    requires Good(c, s, w) && s.workers[w].Loading? && r.n >= s.workers[w].size
    ensures OwnDelivered(c, s, LoadStep(c, s, w, r), w)
  {
    LoadGivesAll(c, s, w, r);
    var s' := LoadStep(c, s, w, r);
    var i := s.workers[w].conn;
    LoadedIsWhole(c.fs, s.kernel.conns[i], s.kernel.files[s.workers[w].file], s.results[i], s'.results[i]);
  }

  /** A load of the whole size gives the whole file and leaves the rest of the transcript alone. */
  lemma LoadGivesAll(c: Config, s: State, w: nat, r: Reply)
    requires Ready(c, s, w) && s.workers[w].Loading? && r.n >= s.workers[w].size
    ensures var (s', p) := (LoadStep(c, s, w, r), s.workers[w]);
            && Shape(c, s') && s'.dequeued == s.dequeued && s'.server == s.server
            && s'.workers[w].SendingBody? && s'.kernel.conns == s.kernel.conns
            && s'.results[p.conn] == s.results[p.conn].(got := |c.fs[s.kernel.files[p.file].name]|)
  {
  }

  lemma LoadedIsWhole(fs: FileSystem, x: Connection, f: OpenFile, t: Transcript, t': Transcript)
    requires Answering(fs, x, f, t) && ReadWhole(x.incoming, t) && t' == t.(got := |fs[f.name]|)
    ensures Whole(fs, x.incoming, t')
  {
  }

  lemma ParseDelivers(c: Config, s: State, w: nat)
    requires Good(c, s, w) && s.workers[w].Parsing? && ParseStep(s, w).status.Running?
    ensures OwnDelivered(c, s, ParseStep(s, w), w)
  {
  }

  lemma SendDelivers(c: Config, s: State, w: nat, r: Reply)
    requires Good(c, s, w)
    requires var p := s.workers[w]; p.Allocating? || p.Refusing? || p.SendingHeader? || p.SendingBody?
    ensures OwnDelivered(c, s, WorkerStep(c, s, w, r).value, w)
  {
  }

  lemma CloseDelivers(c: Config, s: State, w: nat, r: Reply)
    requires Good(c, s, w) && (s.workers[w].ClosingFile? || s.workers[w].Closing?)
    ensures OwnDelivered(c, s, WorkerStep(c, s, w, r).value, w)
  {
  }

  lemma ReportDelivers(c: Config, s: State, w: nat, r: Reply)
    requires Good(c, s, w) && s.workers[w].Reporting? && s.status.Running?
    requires ReportStep(c, s, w, r).Some? && ReportStep(c, s, w, r).value.status.Running?
    ensures OwnDelivered(c, s, ReportStep(c, s, w, r).value, w)
  {
  }

  lemma HeldDelivers(c: Config, s: State, w: nat, r: Reply)
    requires Good(c, s, w) && s.status.Running? && Favourable(s, Work(w, r))
    requires WorkerStep(c, s, w, r).Some? && WorkerStep(c, s, w, r).value.status.Running?
    ensures OwnDelivered(c, s, WorkerStep(c, s, w, r).value, w)
  {
    var p := s.workers[w];
    if p.Reading? { ReadDelivers(c, s, w, r); }
    else if p.Parsing? { ParseDelivers(c, s, w); }
    else if p.Opening? { OpenDelivers(c, s, w, r); }
    else if p.Stating? { StatDelivers(c, s, w, r); }
    else if p.Loading? { LoadDelivers(c, s, w, r); }
    else if p.Reporting? { ReportDelivers(c, s, w, r); }
    else if p.ClosingFile? || p.Closing? { CloseDelivers(c, s, w, r); }
    else { SendDelivers(c, s, w, r); }
  }

  lemma OthersDelivered(c: Config, s: State, s': State, w: nat, i: nat)
    requires Shape(c, s) && Shape(c, s') && i < |s.dequeued| && ConnInv(c, s, i) && Delivered(c, s, i)
    requires w < |s.workers| && !s.workers[w].Idle? && s.workers[w].conn != i
    requires exists j :: Moved(c, s, s', w, s.workers[w].conn, j)
    ensures Delivered(c, s', i)
  {
  }

  /** The records of connection `i` and of the worker that serves it are the same in both states. */
  predicate SameRecords(s: State, s': State, i: nat)
    requires i < |s.dequeued| == |s.server| && |s.dequeued| <= |s.kernel.conns| == |s.results|
  {
    && i < |s'.server| && s'.server[i] == s.server[i]
    && i < |s'.kernel.conns| && s'.kernel.conns[i] == s.kernel.conns[i]
    && i < |s'.results| && s'.results[i] == s.results[i]
    && (s.kernel.conns[i].open ==>
          s.server[i] < |s.workers| == |s'.workers| && s'.workers[s.server[i]] == s.workers[s.server[i]])
  }

  lemma SameDelivered(c: Config, s: State, s': State, i: nat)
    requires Shape(c, s) && Shape(c, s') && i < |s.dequeued| && SameRecords(s, s', i) && Delivered(c, s, i)
    ensures i < |s'.dequeued| && Delivered(c, s', i)
  {
  }

  lemma AcceptorDelivers(c: Config, s: State, l: Label)
    requires Inv(c, s) && Delivery(c, s) && s.status.Running?
    requires AcceptorStep(c, s, l).Some? && Shape(c, AcceptorStep(c, s, l).value)
    ensures Delivery(c, AcceptorStep(c, s, l).value)
  {
    var s' := AcceptorStep(c, s, l).value;
    forall i | 0 <= i < |s'.dequeued| ensures Delivered(c, s', i) {
      assert ConnInv(c, s, i) && Delivered(c, s, i);
      assert i < |s.kernel.conns| && s'.kernel.conns[i] == s.kernel.conns[i];
      SameDelivered(c, s, s', i);
    }
  }

  lemma TakeDelivers(c: Config, s: State, w: nat, r: Reply)
    requires Inv(c, s) && Delivery(c, s) && w < |s.workers| && s.workers[w].Idle?
    requires TakeStep(c, s, w, r).Some? && TakeStep(c, s, w, r).value.status.Running?
    requires Inv(c, TakeStep(c, s, w, r).value) && s.status.Running?
    ensures Delivery(c, TakeStep(c, s, w, r).value)
  {
    var s' := TakeStep(c, s, w, r).value;
    forall i | 0 <= i < |s'.dequeued| ensures Delivered(c, s', i) {
      if i < |s.dequeued| {
        assert ConnInv(c, s, i) && Delivered(c, s, i);
        assert SameRecords(s, s', i);
        SameDelivered(c, s, s', i);
      } else {
        assert ConnInv(c, s, i);
        assert s'.workers[w].Allocating?;
      }
    }
  }

  lemma StepDelivers(c: Config, s: State, l: Label)
    requires Inv(c, s) && Delivery(c, s) && Favourable(s, l)
    requires Step(c, s, l).Some? && Step(c, s, l).value.status.Running?
    ensures Inv(c, Step(c, s, l).value) && Delivery(c, Step(c, s, l).value)
  {
    StepInv(c, s, l);
    if !l.Work? {
      AcceptorDelivers(c, s, l);
    } else if s.workers[l.worker].Idle? {
      TakeDelivers(c, s, l.worker, l.reply);
    } else {
      WorkDelivers(c, s, l.worker, l.reply);
    }
  }

  lemma WorkDelivers(c: Config, s: State, w: nat, r: Reply)
    requires Inv(c, s) && Delivery(c, s) && Favourable(s, Work(w, r)) && !s.workers[w].Idle?
    requires Step(c, s, Work(w, r)).Some? && Step(c, s, Work(w, r)).value.status.Running?
    requires Inv(c, Step(c, s, Work(w, r)).value)
    ensures Delivery(c, Step(c, s, Work(w, r)).value)
  {
    var s' := Step(c, s, Work(w, r)).value;
    HeldIsReady(c, s, w);
    StepMoves(c, s, w, r);
    var own := s.workers[w].conn;
    assert WorkerInv(c, s, w) && Delivered(c, s, own);
    HeldDelivers(c, s, w, r);
    forall i | 0 <= i < |s'.dequeued| ensures Delivered(c, s', i) {
      if i != own {
        assert Delivered(c, s, i) && ConnInv(c, s, i);
        OthersDelivered(c, s, s', w, i);
      }
    }
  }

  lemma {:induction false} RunDelivers(c: Config, s: State, ls: seq<Label>)
    requires Inv(c, s) && Delivery(c, s) && FavourableRun(c, s, ls)
    requires Run(c, s, ls).Some? && Run(c, s, ls).value.status.Running?
    ensures Inv(c, Run(c, s, ls).value) && Delivery(c, Run(c, s, ls).value)
    decreases |ls|
  {
    if ls != [] {
      var s' := Step(c, s, ls[0]).value;
      StillRunning(c, s', ls[1..]);
      StepDelivers(c, s, ls[0]);
      RunDelivers(c, s', ls[1..]);
    }
  }

  /** If no call is refused and every read is whole, a closed connection whose request settles its file was
      sent exactly the answer to its own client's bytes, whatever the interleaving, the contents of fresh
      memory and the reuse of numbers. */
  lemma ClientsGetTheirFile(c: Config, s0: State, ls: seq<Label>, i: nat)
    requires CleanStart(c, s0) && Run(c, s0, ls).Some? && Run(c, s0, ls).value.status.Running?
    requires FavourableRun(c, s0, ls)
    requires i < |Arrivals(ls)| && Settled(First(Arrivals(ls)[i].incoming))
    ensures var s := Run(c, s0, ls).value;
            && |s.kernel.conns| == |Arrivals(ls)|
            && s.kernel.conns[i].fd == Arrivals(ls)[i].fd
            && (!s.kernel.conns[i].open ==> s.kernel.conns[i].sent == Answer(c.fs, Arrivals(ls)[i].incoming))
  {
    InitInv(c, s0);
    RunDelivers(c, s0, ls);
    RunRecords(c, s0, ls, []);
    assert [] + Arrivals(ls) == Arrivals(ls);
    var s := Run(c, s0, ls).value;
    assert ConnInv(c, s, i);
    if !s.kernel.conns[i].open {
      assert Delivered(c, s, i);
      WholeIsAnswer(c.fs, s.kernel.conns[i].incoming, s.results[i]);
    }
  }

  /** End to end: after any favourable run, and going on favourably without accepts until no thread can
      step, a client that is not mute and had fewer mute ones before it than there are workers got exactly
      the answer to its request, if that settles its file; all others got nothing. */
  lemma EveryClientGetsItsFile(c: Config, s0: State, before: seq<Label>, after: seq<Label>, i: nat)
    requires CleanStart(c, s0) && Run(c, s0, before).Some? && Run(c, s0, before).value.status.Running?
    requires forall k :: 0 <= k < |after| ==> Serving(after[k])
    requires Run(c, Run(c, s0, before).value, after).Some?
    requires var t := Run(c, Run(c, s0, before).value, after).value; t.status.Running? && Stuck(c, t)
    requires FavourableRun(c, s0, before) && FavourableRun(c, Run(c, s0, before).value, after)
    requires i < |Arrivals(before)| && Settled(First(Arrivals(before)[i].incoming))
    ensures var t := Run(c, Run(c, s0, before).value, after).value;
            var (arrivals, x) := (Arrivals(before), Arrivals(before)[i]);
            && |t.kernel.conns| == |arrivals|
            && t.kernel.conns[i].fd == x.fd
            && t.kernel.conns[i].sent ==
                 if !IsMuteArrival(x) && |MuteArrivals(arrivals, i)| < c.workers then Answer(c.fs, x.incoming) else []
  {
    var s := Run(c, s0, before).value;
    var t := Run(c, s, after).value;
    InitInv(c, s0);
    RunDelivers(c, s0, before);
    RunDelivers(c, s, after);
    ServedIffFewMuteBefore(c, s0, before, after, i);
    RecordsAtEnd(c, s0, before, after);
    assert ConnInv(c, t, i);
    if !t.kernel.conns[i].open {
      assert Delivered(c, t, i);
      WholeIsAnswer(c.fs, t.kernel.conns[i].incoming, t.results[i]);
    }
  }
}
