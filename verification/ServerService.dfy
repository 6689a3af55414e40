/** Who is served: what the server has done when it can do no more, in terms of the clients alone. */
module ServerService {
  import opened Bytes
  import opened Os
  import opened Handler
  import opened Server
  import opened ServerInvariant
  import opened ServerSafety
  import opened ServerProgress

  // ---- Threads that can go on ----

  /** Worker `w` is in a read that does not return. */
  predicate Blocked(c: Config, s: State, w: nat) {
    w < |s.workers| && s.workers[w].Reading? && Waits(s.kernel, c.fs, s.workers[w].childfd)
  }

  /** Worker `w` can take its next step, whatever the kernel answers it. */
  ghost predicate CanGo(c: Config, s: State, w: nat) {
    w < |s.workers| && forall r: Reply :: Step(c, s, Work(w, r)).Some?
  }

  /** No worker can take a step and the acceptor cannot pass a connection on. */
  ghost predicate Stuck(c: Config, s: State) {
    forall l :: Serving(l) ==> Step(c, s, l).None?
  }

  /** A read of the worker's connection does not return exactly when its client is mute. */
  lemma BlockedIffMute(c: Config, s: State, w: nat)
    requires Inv(c, s) && w < |s.workers| && s.workers[w].Reading?
    ensures s.workers[w].conn < |s.dequeued| <= |s.kernel.conns|
    ensures Blocked(c, s, w) <==> IsMute(s.kernel.conns[s.workers[w].conn])
  {
    HeldIsReady(c, s, w);
    assert WorkerInv(c, s, w);
  }

  /** A worker goes on, whatever the kernel answers, unless it is idle at an empty pipe or blocked. */
  lemma CanGoIff(c: Config, s: State, w: nat)
    requires Inv(c, s) && s.status.Running? && w < |s.workers|
    ensures CanGo(c, s, w) <==> !Blocked(c, s, w) && (s.workers[w].Idle? ==> Queue(s) != [])
    ensures !CanGo(c, s, w) ==> forall r: Reply :: Step(c, s, Work(w, r)).None?
  {
    FramesLength(Queue(s));
    if s.workers[w].Reporting? { HeldIsReady(c, s, w); }
    var r := Reply(0, -1, Zeros(1024), []);
    assert CanGo(c, s, w) ==> Step(c, s, Work(w, r)).Some?;
  }

  /** While a connection is open, some thread can go on, whatever the kernel answers it, or its worker is
      blocked on it, or no worker has taken it yet and all are blocked. */
  lemma OpenMeansEnabled(c: Config, s: State, i: nat)
    requires Inv(c, s) && s.status.Running? && c.workers >= 1 && c.capacity >= 4
    requires i < |s.kernel.conns| && s.kernel.conns[i].open
    ensures || Step(c, s, Send).Some?
            || (exists w :: CanGo(c, s, w))
            || (if i < |s.dequeued| then Blocked(c, s, s.server[i])
                else forall w :: 0 <= w < c.workers ==> Blocked(c, s, w))
  {
    assert ConnInv(c, s, i);
    FramesLength(Queue(s));
    if i < |s.dequeued| {
      CanGoIff(c, s, s.server[i]);
    } else {
      forall w | 0 <= w < c.workers && !CanGo(c, s, w) && Queue(s) != [] ensures Blocked(c, s, w) { CanGoIff(c, s, w); }
    }
  }

  /** Exactly when the server can do no more until a client moves: every worker is idle or blocked, all are
      blocked if a message is in the pipe, and the pipe is full if the acceptor has one to send. */
  lemma StuckIff(c: Config, s: State)
    requires Inv(c, s) && s.status.Running?
    ensures Stuck(c, s) <==>
              && (forall w :: 0 <= w < |s.workers| ==> Blocked(c, s, w) || (s.workers[w].Idle? && Queue(s) == []))
              && (s.acceptor.Sending? ==> |s.kernel.pipe| + 4 > c.capacity)
  {
    var r := Reply(0, -1, Zeros(1024), []);
    forall w | 0 <= w < |s.workers|
      ensures (forall r: Reply :: Step(c, s, Work(w, r)).None?)
              <==> Blocked(c, s, w) || (s.workers[w].Idle? && Queue(s) == [])
    {
      CanGoIff(c, s, w);
      assert CanGo(c, s, w) ==> Step(c, s, Work(w, r)).Some?;
    }
    if Stuck(c, s) {
      assert Serving(Send);
      forall w: nat, r | w < |s.workers| ensures Step(c, s, Work(w, r)).None? { assert Serving(Work(w, r)); }
    }
  }

  // ---- A worker's connection is the last it took ----

  /** A worker that holds a connection took no other one since. */
  predicate HoldsLatest(s: State) {
    && (forall j :: 0 <= j < |s.server| ==> s.server[j] < |s.workers|)
    && (forall w, j :: 0 <= w < |s.workers| && !s.workers[w].Idle? && s.workers[w].conn < j < |s.server| ==>
          s.server[j] != w)
  }

  lemma StepHoldsLatest(c: Config, s: State, l: Label)
    requires Inv(c, s) && Step(c, s, l).Some? && HoldsLatest(s)
    ensures HoldsLatest(Step(c, s, l).value)
  {
    if l.Work? {
      var s' := Step(c, s, l).value;
      StepTouchesOwn(c, s, l.worker, l.reply);
      WorkSameConn(c, s, l.worker, l.reply);
    }
  }

  /** A step of a worker leaves it with its connection or idle, or takes the next one from the pipe. */
  lemma WorkSameConn(c: Config, s: State, w: nat, r: Reply)
    requires w < |s.workers| && WorkerStep(c, s, w, r).Some?
    ensures var s' := WorkerStep(c, s, w, r).value;
            && |s'.workers| == |s.workers|
            && (forall v :: 0 <= v < |s.workers| && v != w ==> s'.workers[v] == s.workers[v])
            && (s.workers[w].Idle? ==>
                  || (s'.server == s.server && s'.workers[w].Idle?)
                  || (s'.server == s.server + [w] && !s'.workers[w].Idle? && s'.workers[w].conn == |s.dequeued|))
            && (!s.workers[w].Idle? ==>
                  s'.server == s.server && (s'.workers[w].Idle? || s'.workers[w].conn == s.workers[w].conn))
  {
    if HasFile(s.workers[w]) { FileSameConn(c, s, w, r); }
  }

  lemma FileSameConn(c: Config, s: State, w: nat, r: Reply)
    requires w < |s.workers| && HasFile(s.workers[w]) && WorkerStep(c, s, w, r).Some?
    ensures var s' := WorkerStep(c, s, w, r).value;
            && |s'.workers| == |s.workers|
            && (forall v :: 0 <= v < |s.workers| && v != w ==> s'.workers[v] == s.workers[v])
            && s'.server == s.server && !s'.workers[w].Idle? && s'.workers[w].conn == s.workers[w].conn
  {
  }

  lemma {:induction false} RunHoldsLatest(c: Config, s: State, ls: seq<Label>)
    requires Inv(c, s) && HoldsLatest(s) && Run(c, s, ls).Some?
    ensures HoldsLatest(Run(c, s, ls).value)
    decreases |ls|
  {
    if ls != [] {
      StepInv(c, s, ls[0]);
      StepHoldsLatest(c, s, ls[0]);
      RunHoldsLatest(c, Step(c, s, ls[0]).value, ls[1..]);
    }
  }

  // ---- Counting ----

  function Image(a: set<nat>, f: seq<nat>): set<nat>
    requires forall m :: m in a ==> m < |f|
  {
    set m | m in a :: f[m]
  }

  lemma {:induction false} ImageCount(a: set<nat>, f: seq<nat>)
    requires forall m :: m in a ==> m < |f|
    requires forall m, n :: m in a && n in a && f[m] == f[n] ==> m == n
    ensures |Image(a, f)| == |a|
    decreases |a|
  {
    if a != {} {
      var m :| m in a;
      ImageCount(a - {m}, f);
      assert Image(a, f) == Image(a - {m}, f) + {f[m]};
      assert f[m] !in Image(a - {m}, f);
    }
  }

  /** The numbers below `n`. */
  function Below(n: nat): (r: set<nat>)
    ensures |r| == n && forall k: nat :: k in r <==> k < n
  {
    if n == 0 then {} else Below(n - 1) + {n - 1}
  }

  /** The mute ones among the first `i` connections. */
  function Mutes(s: State, i: nat): set<nat> {
    set m: nat | m < i && m < |s.kernel.conns| && IsMute(s.kernel.conns[m])
  }

  // ---- What is done when nothing more can be ----

  /** With all workers blocked, at least as many of the connections taken are mute as there are workers. */
  lemma AllBlocked(c: Config, s: State, i: nat)
    requires Inv(c, s) && s.status.Running? && |s.dequeued| <= i
    requires forall w :: 0 <= w < |s.workers| ==> Blocked(c, s, w)
    ensures |Mutes(s, i)| >= c.workers
  {
    forall w | 0 <= w < |s.workers|
      ensures var p := s.workers[w]; !p.Idle? && p.conn in Mutes(s, i) && p.conn < |s.server| && s.server[p.conn] == w
    {
      assert Blocked(c, s, w);
      BlockedIffMute(c, s, w);
      assert WorkerInv(c, s, w);
    }
    var conns := seq(|s.workers|, w requires 0 <= w < |s.workers| =>
                       if s.workers[w].Idle? then 0 else s.workers[w].conn);
    ImageCount(Below(c.workers), conns);
    SubsetCount(Image(Below(c.workers), conns), Mutes(s, i));
  }

  /** A connection that was taken and closed had fewer mute ones before it than there are workers. */
  lemma ServedBehindFew(c: Config, s: State, i: nat)
    requires Inv(c, s) && HoldsLatest(s) && i < |s.dequeued|
    ensures |Mutes(s, i)| < c.workers
  {
    var mutes := Mutes(s, i);
    forall m | m in mutes
      ensures m < |s.server| && s.server[m] < c.workers && s.server[m] != s.server[i]
      ensures HoldsConn(s.workers[s.server[m]], m)
    {
      assert ConnInv(c, s, m);
    }
    ImageCount(mutes, s.server);
    var rest := Below(c.workers) - {s.server[i]};
    SubsetCount(Image(mutes, s.server), rest);
    assert Below(c.workers) == rest + {s.server[i]};
  }

  /** In a state where the server can do no more, connection `i` is closed exactly when its client is not
      mute and fewer mute clients came before it than there are workers. */
  lemma StuckIsServed(c: Config, s: State, i: nat)
    requires Inv(c, s) && HoldsLatest(s) && s.status.Running? && c.workers >= 1 && c.capacity >= 4
    requires Stuck(c, s) && i < |s.kernel.conns|
    ensures |s.results| == |s.kernel.conns|
    ensures !s.kernel.conns[i].open <==> !IsMute(s.kernel.conns[i]) && |Mutes(s, i)| < c.workers
    ensures s.kernel.conns[i].sent ==
              if s.kernel.conns[i].open then [] else Response(c.fs, s.kernel.conns[i].incoming, s.results[i])
  {
    StuckIff(c, s);
    FramesLength(Queue(s));
    assert ConnInv(c, s, i);
    if i < |s.dequeued| {
      ServedBehindFew(c, s, i);
      if s.kernel.conns[i].open {
        BlockedIffMute(c, s, s.server[i]);
        assert WorkerInv(c, s, s.server[i]);
      }
    } else {
      AllBlocked(c, s, i);
    }
  }

  /** Once accepts stop, the server takes at most `Measure` further steps, and one more if it ends. */
  lemma {:induction false} RunsDrain(c: Config, s: State, ls: seq<Label>)
    requires Inv(c, s) && s.status.Running?
    requires Run(c, s, ls).Some? && forall k :: 0 <= k < |ls| ==> Serving(ls[k])
    ensures |ls| <= Measure(s) + (if Run(c, s, ls).value.status.Running? then 0 else 1)
    decreases |ls|
  {
    if ls != [] {
      var s' := Step(c, s, ls[0]).value;
      if s'.status.Running? {
        ServingDecreases(c, s, ls[0]);
        RunsDrain(c, s', ls[1..]);
      } else {
        assert ls[1..] == [];
      }
    }
  }

  /** The server always can drain: some steps without accepts lead to a state where it can do no more, or end
      the process. */
  lemma {:induction false} DrainExists(c: Config, s: State) returns (ls: seq<Label>)
    requires Inv(c, s) && s.status.Running?
    ensures forall k :: 0 <= k < |ls| ==> Serving(ls[k])
    ensures Run(c, s, ls).Some?
    ensures var t := Run(c, s, ls).value; t.status.Running? ==> Stuck(c, t)
    decreases Measure(s)
  {
    if Stuck(c, s) {
      ls := [];
    } else {
      var l :| Serving(l) && Step(c, s, l).Some?;
      var s' := Step(c, s, l).value;
      var rest := [];
      if s'.status.Running? {
        ServingDecreases(c, s, l);
        rest := DrainExists(c, s');
      }
      ls := [l] + rest;
      assert ls[1..] == rest;
    }
  }

  lemma {:induction false} NoArrivals(ls: seq<Label>)
    requires forall k :: 0 <= k < |ls| ==> Serving(ls[k])
    ensures Arrivals(ls) == []
  {
    if ls != [] { NoArrivals(ls[1..]); }
  }

  // ---- End to end ----

  predicate IsMuteArrival(a: Arrival) {
    a.incoming == [] && a.lingers
  }

  /** The mute clients among the first `i` of a run. */
  function MuteArrivals(arrivals: seq<Arrival>, i: nat): set<nat> {
    set m: nat | m < i && m < |arrivals| && IsMuteArrival(arrivals[m])
  }

  lemma RecordsAtEnd(c: Config, s0: State, before: seq<Label>, after: seq<Label>)
    requires CleanStart(c, s0) && Run(c, s0, before).Some?
    requires forall k :: 0 <= k < |after| ==> Serving(after[k])
    requires Run(c, Run(c, s0, before).value, after).Some?
    ensures var t := Run(c, Run(c, s0, before).value, after).value;
            Inv(c, t) && HoldsLatest(t) && Records(t, Arrivals(before)) && c.workers >= 1 && c.capacity >= 4
  {
    var (s, arrivals) := (Run(c, s0, before).value, Arrivals(before));
    InitInv(c, s0);
    RunInv(c, s0, before);
    RunHoldsLatest(c, s0, before);
    RunRecords(c, s0, before, []);
    assert [] + arrivals == arrivals;
    RunInv(c, s, after);
    RunHoldsLatest(c, s, after);
    RunRecords(c, s, after, arrivals);
    NoArrivals(after);
    assert arrivals + [] == arrivals;
  }

  /** Take any run from the start and let the server go on without new accepts for as long as it can. If it
      has not ended, a client's connection is closed after exactly the response to its own bytes, if it is
      not mute and fewer mute clients arrived before it than there are workers; otherwise it is open and
      was sent nothing. */
  lemma ServedIffFewMuteBefore(c: Config, s0: State, before: seq<Label>, after: seq<Label>, i: nat)
    requires CleanStart(c, s0) && Run(c, s0, before).Some? && Run(c, s0, before).value.status.Running?
    requires forall k :: 0 <= k < |after| ==> Serving(after[k])
    requires Run(c, Run(c, s0, before).value, after).Some?
    requires var t := Run(c, Run(c, s0, before).value, after).value; t.status.Running? && Stuck(c, t)
    requires i < |Arrivals(before)|
    ensures var t := Run(c, Run(c, s0, before).value, after).value;
            var arrivals := Arrivals(before);
            && |t.kernel.conns| == |t.results| == |arrivals|
            && var x := t.kernel.conns[i];
            && x.fd == arrivals[i].fd
            && (!x.open <==> !IsMuteArrival(arrivals[i]) && |MuteArrivals(arrivals, i)| < c.workers)
            && x.sent == (if x.open then [] else Response(c.fs, arrivals[i].incoming, t.results[i]))
  {
    var t := Run(c, Run(c, s0, before).value, after).value;
    RecordsAtEnd(c, s0, before, after);
    assert Mutes(t, i) == MuteArrivals(Arrivals(before), i);
    StuckIsServed(c, t, i);
  }

  /** With fewer mute clients than workers, every client that is not mute is served. */
  lemma EveryClientIsServed(c: Config, s0: State, before: seq<Label>, after: seq<Label>, i: nat)
    requires CleanStart(c, s0) && Run(c, s0, before).Some? && Run(c, s0, before).value.status.Running?
    requires forall k :: 0 <= k < |after| ==> Serving(after[k])
    requires Run(c, Run(c, s0, before).value, after).Some?
    requires var t := Run(c, Run(c, s0, before).value, after).value; t.status.Running? && Stuck(c, t)
    requires i < |Arrivals(before)| && !IsMuteArrival(Arrivals(before)[i])
    requires |MuteArrivals(Arrivals(before), |Arrivals(before)|)| < c.workers
    ensures var t := Run(c, Run(c, s0, before).value, after).value;
            && |t.kernel.conns| == |t.results| == |Arrivals(before)|
            && !t.kernel.conns[i].open
            && t.kernel.conns[i].sent == Response(c.fs, Arrivals(before)[i].incoming, t.results[i])
  {
    ServedIffFewMuteBefore(c, s0, before, after, i);
    SubsetCount(MuteArrivals(Arrivals(before), i), MuteArrivals(Arrivals(before), |Arrivals(before)|));
  }
}
