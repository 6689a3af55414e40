/** `main`: one pipe, one acceptor, and workers that share the pipe's read end. */
module StartUp {
  import opened Bytes
  import opened Os
  import opened Handler
  import opened Server
  import opened ServerInvariant
  import opened ServerProgress
  import opened ServerReports

  const WORKER_SIZE: nat := 8

  /** A thread and the descriptor it was given. */
  datatype Thread = NotCreated | ServerMain(messageFd: int32) | ServerWorker(messageFd: int32)

  /** The thread table stands for the workers of a state. */
  ghost predicate Threads(c: Config, s: State, threads: seq<Thread>) {
    && |threads| == |s.workers| + 1
    && threads[0] == ServerMain(c.pipeOut)
    && forall i :: 1 <= i < |threads| ==> threads[i] == ServerWorker(c.pipeIn)
  }

  /** Started with the descriptors `inherited` open, when `pipe` and then `socket` take the lowest unused
      numbers, the server is in a start state of the transition system: the acceptor writes to the pipe all
      workers read from. */
  method Start(fs: FileSystem, inherited: set<int32>, pair: (int32, int32), listener: int32,
               capacity: nat, workerSize: nat)
    returns (threads: array<Thread>, c: Config, s: State)
    requires workerSize >= 1 && capacity >= 4
    requires IsLowestUnused(inherited, pair.0)
    requires IsLowestUnused(inherited + {pair.0}, pair.1)
    requires IsLowestUnused(inherited + {pair.0, pair.1}, listener)
    ensures SetUp(c, s, inherited) && s == StartState(c, inherited)
    ensures c.fs == fs && c.workers == workerSize && c.capacity == capacity
    ensures c.pipeIn == pair.0 && c.pipeOut == pair.1 && c.listener == listener
    ensures Threads(c, s, threads[..])
  {
    var workerSd, serverSd := pair.0, pair.1;
    var table := map fd | fd in inherited :: Standard;
    table := table[workerSd := PipeRead][serverSd := PipeWrite];
    threads := new Thread[workerSize + 1](_ => NotCreated);
    threads[0] := ServerMain(serverSd);
    table := table[listener := Listener];
    var workers: seq<Worker> := [];
    for i := 0 to workerSize
      invariant |workers| == i && forall w :: 0 <= w < i ==> workers[w] == Idle
      invariant threads[0] == ServerMain(serverSd)
      invariant forall k :: 1 <= k <= i ==> threads[k] == ServerWorker(workerSd)
    {
      threads[i + 1] := ServerWorker(workerSd);
      workers := workers + [Idle];
    }
    c := Config(workerSize, capacity, fs, workerSd, serverSd, listener);
    s := State(Kernel.Kernel(table, [], [], [], 0), Accepting, workers, Running, [], [], [], [], []);
    assert workers == seq(workerSize, _ => Idle);
    StartStateIsSetUp(c, inherited);
  }

  /** The program: eight workers, and descriptor 0 in use, so that no connection can be handed out as 0. The
      invariant holds from here on unless error messages go to the pipe. */
  method StartTiny(fs: FileSystem, inherited: set<int32>, pair: (int32, int32), listener: int32, capacity: nat)
    returns (threads: array<Thread>, c: Config, s: State)
    requires capacity >= 4
    requires IsLowestUnused(inherited, pair.0)
    requires IsLowestUnused(inherited + {pair.0}, pair.1)
    requires IsLowestUnused(inherited + {pair.0, pair.1}, listener)
    ensures SetUp(c, s, inherited) && ZeroTaken(s)
    ensures !StderrBecomesPipe(inherited) || !CanOpen(fs) ==> Inv(c, s)
    ensures c.fs == fs && c.workers == 8 && threads.Length == 9 && Threads(c, s, threads[..])
  {
    threads, c, s := Start(fs, inherited, pair, listener, capacity, WORKER_SIZE);
    ZeroAlwaysTaken(c, s, inherited);
    ApartIff(c, s, inherited);
    if Apart(c) { InitInv(c, s); }
  }
}
