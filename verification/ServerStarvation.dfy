/** As many mute clients as there are workers starve everyone behind them. */
module ServerStarvation {
  import opened Bytes
  import opened Os
  import opened Server
  import opened ServerInvariant
  import opened ServerSafety
  import opened ServerService
  import opened ServerRuns

  /** Different numbers that may be handed out and pass for descriptors. */
  predicate Fresh(s: State, fds: seq<int32>) {
    && (forall k :: 0 <= k < |fds| ==> fds[k] > 0 && fds[k] !in s.kernel.table)
    && (forall j, k :: 0 <= j < k < |fds| ==> fds[j] != fds[k])
  }

  function Muted(fds: seq<int32>): seq<Arrival> {
    seq(|fds|, k requires 0 <= k < |fds| => Arrival(fds[k], [], true))
  }

  /** Each of the first `|fds|` workers reads from one of the connections `fds`; the others are idle. */
  predicate Occupied(c: Config, s0: State, s: State, fds: seq<int32>) {
    && s.status.Running? && s.acceptor.Accepting? && s.kernel.pipe == []
    && Is(s.kernel, c.pipeIn, PipeRead) && Is(s.kernel, c.pipeOut, PipeWrite)
    && (forall fd :: fd in s.kernel.table ==> fd in s0.kernel.table || fd in fds)
    && |s.kernel.conns| == |s.dequeued| == |fds| <= |s.workers| == c.workers
    && (forall w :: 0 <= w < |fds| ==> s.workers[w] == Reading(fds[w], w))
    && (forall w :: |fds| <= w < |s.workers| ==> s.workers[w] == Idle)
  }

  lemma FreshLast(s: State, fds: seq<int32>)
    requires Fresh(s, fds) && fds != []
    ensures var (init, fd) := (fds[..|fds| - 1], fds[|fds| - 1]);
            Fresh(s, init) && fd > 0 && fd !in s.kernel.table && fd !in init
  {
  }

  lemma {:induction false} MutesOccupy(c: Config, s0: State, fds: seq<int32>) returns (ls: seq<Label>, s: State)
    requires Occupied(c, s0, s0, []) && c.capacity >= 4 && Fresh(s0, fds) && |fds| <= c.workers
    ensures Run(c, s0, ls) == Some(s) && Arrivals(ls) == Muted(fds)
    ensures Occupied(c, s0, s, fds)
    decreases |fds|
  {
    if fds == [] {
      ls, s := [], s0;
    } else {
      var (init, fd) := (fds[..|fds| - 1], fds[|fds| - 1]);
      FreshLast(s0, fds);
      var before, s1 := MutesOccupy(c, s0, init);
      assert fds == init + [fd];
      var more;
      more, s := OneMoreOccupied(c, s0, s1, init, fd);
      ls := before + more;
      RunAppend(c, s0, before, more);
      ArrivalsAppend(before, more);
      MutedLast(init, fd);
    }
  }

  lemma MutedLast(fds: seq<int32>, fd: int32)
    ensures Muted(fds + [fd]) == Muted(fds) + [Arrival(fd, [], true)]
  {
  }

  lemma OneMoreOccupied(c: Config, s0: State, s: State, fds: seq<int32>, fd: int32) returns (ls: seq<Label>, t: State)
    requires Occupied(c, s0, s, fds) && |fds| < c.workers && c.capacity >= 4
    requires fd > 0 && fd !in s0.kernel.table && fd !in fds
    ensures Run(c, s, ls) == Some(t) && Arrivals(ls) == [Arrival(fd, [], true)]
    ensures Occupied(c, s0, t, fds + [fd])
  {
    var s1 := PassedOn(c, s, fd, [], true);
    assert [] + EncodeInt(fd) == EncodeInt(fd);
    var taking;
    taking, t := TakenUp(c, s1, |fds|, fd);
    ls := PassOn(fd, [], true) + taking;
    RunAppend(c, s, PassOn(fd, [], true), taking);
    ArrivalsAppend(PassOn(fd, [], true), taking);
  }

  /** Workers that all read from mute connections are stuck. */
  lemma OccupiedIsStuck(c: Config, t: State, fds: seq<int32>, last: Arrival)
    requires Inv(c, t) && Records(t, Muted(fds) + [last]) && |fds| == |t.workers|
    requires t.status.Running? && t.acceptor.Accepting?
    requires forall w :: 0 <= w < |fds| ==> t.workers[w] == Reading(fds[w], w)
    ensures Stuck(c, t)
  {
    var arrivals := Muted(fds) + [last];
    forall w | 0 <= w < |t.workers| ensures Blocked(c, t, w) {
      assert t.workers[w] == Reading(fds[w], w) && arrivals[w] == Arrival(fds[w], [], true);
      BlockedIffMute(c, t, w);
    }
    StuckIff(c, t);
  }

  /** After as many mute clients as there are workers, the next client is accepted and never served, whatever
      it sends: the run ends in a state where no thread can step. */
  lemma NextClientStarves(c: Config, s0: State, fds: seq<int32>, last: int32, incoming: seq<byte>)
    returns (ls: seq<Label>)
    requires CleanStart(c, s0) && Fresh(s0, fds + [last]) && |fds| == c.workers
    ensures Arrivals(ls) == Muted(fds) + [Arrival(last, incoming, false)]
    ensures Run(c, s0, ls).Some?
    ensures var t := Run(c, s0, ls).value;
            && t.status.Running? && Stuck(c, t)
            && |t.kernel.conns| == |fds| + 1 && t.kernel.conns[|fds|].open && t.kernel.conns[|fds|].sent == []
  {
    var t;
    ls, t := LastWaits(c, s0, fds, last, incoming);
    InitInv(c, s0);
    RunInv(c, s0, ls);
    RunRecords(c, s0, ls, []);
    assert [] + Arrivals(ls) == Arrivals(ls);
    OccupiedIsStuck(c, t, fds, Arrival(last, incoming, false));
  }

  lemma LastWaits(c: Config, s0: State, fds: seq<int32>, last: int32, incoming: seq<byte>)
    returns (ls: seq<Label>, t: State)
    requires Init(c, s0) && Fresh(s0, fds + [last]) && |fds| == c.workers
    ensures Run(c, s0, ls) == Some(t) && Arrivals(ls) == Muted(fds) + [Arrival(last, incoming, false)]
    ensures t.status.Running? && t.acceptor.Accepting? && |t.workers| == |fds|
    ensures forall w :: 0 <= w < |fds| ==> t.workers[w] == Reading(fds[w], w)
    ensures |t.kernel.conns| == |fds| + 1 && t.kernel.conns[|fds|] == Connection(last, incoming, false, 0, [], true)
  {
    FreshLast(s0, fds + [last]);
    assert (fds + [last])[..|fds|] == fds;
    var before, s := MutesOccupy(c, s0, fds);
    t := PassedOn(c, s, last, incoming, false);
    ls := before + PassOn(last, incoming, false);
    RunAppend(c, s0, before, PassOn(last, incoming, false));
    ArrivalsAppend(before, PassOn(last, incoming, false));
  }

  /** The program with its standard descriptors open: eight mute clients, and the ninth client starves. */
  lemma NinthClientStarves(fs: FileSystem, incoming: seq<byte>) returns (c: Config, s0: State, ls: seq<Label>)
    ensures c.workers == 8 && c.fs == fs && SetUp(c, s0, {0, 1, 2})
    ensures Arrivals(ls) == Muted([6, 7, 8, 9, 10, 11, 12, 13]) + [Arrival(14, incoming, false)]
    ensures Run(c, s0, ls).Some?
    ensures var t := Run(c, s0, ls).value;
            && t.status.Running? && Stuck(c, t)
            && |t.kernel.conns| == 9 && t.kernel.conns[8].open && t.kernel.conns[8].sent == []
  {
    c := Config(8, 4096, fs, 3, 4, 5);
    s0 := StartState(c, {0, 1, 2});
    StandardSetUp(c);
    SixToFourteenFresh(s0);
    ls := NextClientStarves(c, s0, [6, 7, 8, 9, 10, 11, 12, 13], 14, incoming);
  }

  lemma StandardSetUp(c: Config)
    requires c.workers >= 1 && c.capacity >= 4 && c.pipeIn == 3 && c.pipeOut == 4 && c.listener == 5
    ensures SetUp(c, StartState(c, {0, 1, 2}), {0, 1, 2}) && c.pipeOut != STDERR
    ensures StartState(c, {0, 1, 2}).kernel.table.Keys == {0, 1, 2, 3, 4, 5}
  {
    StartStateIsSetUp(c, {0, 1, 2});
    assert {0, 1, 2} + {c.pipeIn, c.pipeOut, c.listener} == {0, 1, 2, 3, 4, 5};
  }

  lemma SixToFourteenFresh(s: State)
    requires s.kernel.table.Keys == {0, 1, 2, 3, 4, 5}
    ensures Fresh(s, [6, 7, 8, 9, 10, 11, 12, 13] + [14])
  {
    assert forall fd: int32 :: fd in s.kernel.table ==> fd in s.kernel.table.Keys;
    assert [6, 7, 8, 9, 10, 11, 12, 13] + [14] == [6, 7, 8, 9, 10, 11, 12, 13, 14];
  }
}
