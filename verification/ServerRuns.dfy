/** Pieces that runs are put together from. */
module ServerRuns {
  import opened Bytes
  import opened Os
  import opened Handler
  import opened Server
  import opened ServerSafety

  lemma {:induction false} RunAppend(c: Config, s: State, a: seq<Label>, b: seq<Label>)
    requires Run(c, s, a).Some?
    ensures Run(c, s, a + b) == Run(c, Run(c, s, a).value, b)
    decreases |a|
  {
    if a == [] {
      assert a + b == b;
    } else {
      assert (a + b)[1..] == a[1..] + b;
      RunAppend(c, Step(c, s, a[0]).value, a[1..], b);
    }
  }

  lemma RunOne(c: Config, s: State, ls: seq<Label>, l: Label)
    requires Run(c, s, ls).Some?
    ensures Run(c, s, ls + [l]) == Step(c, Run(c, s, ls).value, l)
    ensures Arrivals(ls + [l]) == Arrivals(ls) + Arrivals([l])
  {
    RunAppend(c, s, ls, [l]);
    ArrivalsAppend(ls, [l]);
    assert [l][1..] == [];
  }

  /** A run goes on with a worker's step, which is no arrival. */
  lemma RunWork(c: Config, s: State, ls: seq<Label>, w: nat, r: Reply)
    requires Run(c, s, ls).Some?
    ensures Run(c, s, ls + [Work(w, r)]) == Step(c, Run(c, s, ls).value, Work(w, r))
    ensures Arrivals(ls + [Work(w, r)]) == Arrivals(ls)
  {
    RunOne(c, s, ls, Work(w, r));
    assert [Work(w, r)][1..] == [];
    assert Arrivals(ls) + [] == Arrivals(ls);
  }

  lemma {:induction false} ArrivalsAppend(a: seq<Label>, b: seq<Label>)
    ensures Arrivals(a + b) == Arrivals(a) + Arrivals(b)
  {
    if a == [] {
      assert a + b == b;
    } else {
      assert (a + b)[1..] == a[1..] + b;
      ArrivalsAppend(a[1..], b);
      ArrivalsHead(a);
      ArrivalsHead(a + b);
      Associative(Arrivals([a[0]]), Arrivals(a[1..]), Arrivals(b));
    }
  }

  /** An accept and the message for it. */
  function PassOn(fd: int32, incoming: seq<byte>, lingers: bool): seq<Label> {
    [Accept(fd, incoming, lingers)] + [Send]
  }

  lemma PassedOn(c: Config, s: State, fd: int32, incoming: seq<byte>, lingers: bool) returns (t: State)
    requires s.status.Running? && s.acceptor.Accepting? && Unused(s.kernel, fd)
    requires Is(s.kernel, c.pipeOut, PipeWrite) && |s.kernel.pipe| + 4 <= c.capacity
    ensures Run(c, s, PassOn(fd, incoming, lingers)) == Some(t)
    ensures Arrivals(PassOn(fd, incoming, lingers)) == [Arrival(fd, incoming, lingers)]
    ensures t == s.(kernel := Os.Accept(s.kernel, fd, incoming, lingers).(pipe := s.kernel.pipe + EncodeInt(fd)),
                    accepted := s.accepted + [fd], results := s.results + [UNTOUCHED])
  {
    var accept := Accept(fd, incoming, lingers);
    var s1 := Step(c, s, accept).value;
    t := Step(c, s1, Send).value;
    assert Run(c, s, [accept]) == Some(s1) by { assert [accept][1..] == []; }
    RunOne(c, s, [accept], Send);
    assert [accept][1..] == [] && [Send][1..] == [];
  }

  /** Worker `w` takes the only message and allocates its buffers. */
  lemma TakenUp(c: Config, s: State, w: nat, fd: int32) returns (ls: seq<Label>, t: State)
    requires s.status.Running? && w < |s.workers| && s.workers[w].Idle? && fd > 0
    requires Is(s.kernel, c.pipeIn, PipeRead) && s.kernel.pipe == EncodeInt(fd)
    ensures Run(c, s, ls) == Some(t) && Arrivals(ls) == []
    ensures t == s.(kernel := s.kernel.(pipe := [], blocks := s.kernel.blocks + 4),
                    workers := s.workers[w := Reading(fd, |s.dequeued|)],
                    dequeued := s.dequeued + [fd], server := s.server + [w])
  {
    var work := Work(w, Reply(4, -1, Zeros(1024), []));
    IntRoundTrip(fd, EncodeInt(fd));
    assert EncodeInt(fd)[..4] == EncodeInt(fd);
    var s1 := Step(c, s, work).value;
    t := Step(c, s1, work).value;
    assert t.workers == s.workers[w := Reading(fd, |s.dequeued|)];
    assert [] + [work] == [work];
    RunWork(c, s, [], w, work.reply);
    RunWork(c, s, [work], w, work.reply);
    ls := [work] + [work];
  }
}
