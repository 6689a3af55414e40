/** The part of the operating system the server talks to: one table of descriptor numbers shared by
    accepted connections and opened files, the message pipe, and the number of live allocations.
    A call names a number; what it reaches is whatever the table holds there. */
module Os {
  import opened Bytes

  type FileSystem = map<seq<byte>, seq<byte>>

  datatype Object =
    | Standard
    | Listener
    | PipeRead
    | PipeWrite
    | Conn(id: nat)
    | File(id: nat)

  /** A connection, named by its place in the order of accepts: the bytes its client sends, whether the
      client then lingers without sending more or hanging up, how many bytes were read, and the bytes
      written to it. */
  datatype Connection = Connection(
    fd: int32,
    incoming: seq<byte>,
    lingers: bool,
    pos: nat,
    sent: seq<byte>,
    open: bool)

  /** One successful `open`, named by its place in the order of opens. */
  datatype OpenFile = OpenFile(fd: int32, name: seq<byte>, pos: nat, open: bool)

  /** The number error messages are written to, whatever it leads to. */
  const STDERR: int32 := 2

  datatype Kernel = Kernel(
    table: map<int32, Object>,
    pipe: seq<byte>,
    conns: seq<Connection>,
    files: seq<OpenFile>,
    blocks: int)

  /** The table and the two registers of objects agree. */
  predicate Valid(k: Kernel, fs: FileSystem) {
    && (forall fd :: fd in k.table && k.table[fd].Conn? ==>
          && k.table[fd].id < |k.conns|
          && k.conns[k.table[fd].id].fd == fd
          && k.conns[k.table[fd].id].open)
    && (forall fd :: fd in k.table && k.table[fd].File? ==>
          && k.table[fd].id < |k.files|
          && k.files[k.table[fd].id].fd == fd
          && k.files[k.table[fd].id].open)
    && (forall i :: 0 <= i < |k.conns| ==> ConnectionOk(k, i))
    && (forall j :: 0 <= j < |k.files| ==> FileOk(k, fs, j))
  }

  predicate ConnectionOk(k: Kernel, i: nat)
    requires i < |k.conns|
  {
    var c := k.conns[i];
    && c.pos <= |c.incoming|
    && (c.open ==> c.fd in k.table && k.table[c.fd] == Conn(i))
  }

  predicate FileOk(k: Kernel, fs: FileSystem, j: nat)
    requires j < |k.files|
  {
    var f := k.files[j];
    && f.name in fs && f.pos <= |fs[f.name]|
    && (f.open ==> f.fd in k.table && k.table[f.fd] == File(j))
  }

  // ---- System calls ----

  /** A number the kernel may hand out: not negative and not in use. */
  predicate Unused(k: Kernel, fd: int32) {
    fd >= 0 && fd !in k.table
  }

  /** The numbers POSIX lets the kernel hand out: the lowest that is not in use. */
  predicate IsLowestUnused(used: set<int32>, fd: int32) {
    fd >= 0 && fd !in used && forall k: int32 :: 0 <= k < fd ==> k in used
  }

  function Accept(k: Kernel, fd: int32, incoming: seq<byte>, lingers: bool): Kernel {
    k.(table := k.table[fd := Conn(|k.conns|)],
       conns := k.conns + [Connection(fd, incoming, lingers, 0, [], true)])
  }

  /** What `open(name, O_RDONLY)` returns when the kernel is inclined to hand out `fd`. */
  function OpenResult(k: Kernel, fs: FileSystem, name: seq<byte>, fd: int32): (r: int32)
    ensures r < 0 || (Unused(k, r) && name in fs)
  {
    if Unused(k, fd) && name in fs then fd else -1
  }

  function Open(k: Kernel, name: seq<byte>, fd: int32): Kernel {
    if fd < 0 then k else
    k.(table := k.table[fd := File(|k.files|)],
       files := k.files + [OpenFile(fd, name, 0, true)])
  }

  /** The descriptor leads to a connection, to a file, or to a given object. */
  predicate IsConn(k: Kernel, fd: int32) {
    fd in k.table && k.table[fd].Conn? && k.table[fd].id < |k.conns|
  }

  predicate IsFile(k: Kernel, fs: FileSystem, fd: int32) {
    fd in k.table && k.table[fd].File? && k.table[fd].id < |k.files| && k.files[k.table[fd].id].name in fs
  }

  predicate Is(k: Kernel, fd: int32, what: Object) {
    fd in k.table && k.table[fd] == what
  }

  function From(s: seq<byte>, pos: nat): seq<byte> {
    if pos <= |s| then s[pos..] else []
  }

  /** The bytes a read of `fd` could deliver now. */
  function Available(k: Kernel, fs: FileSystem, fd: int32): seq<byte> {
    if IsConn(k, fd) then
      var c := k.conns[k.table[fd].id];
      From(c.incoming, c.pos)
    else if IsFile(k, fs, fd) then
      var f := k.files[k.table[fd].id];
      From(fs[f.name], f.pos)
    else if Is(k, fd, PipeRead) then k.pipe
    else []
  }

  /** A read of `fd` does not return: nothing is there and the client neither sends nor hangs up. */
  predicate Waits(k: Kernel, fs: FileSystem, fd: int32) {
    IsConn(k, fd) && Available(k, fs, fd) == [] && k.conns[k.table[fd].id].lingers
  }

  /** What `read` returns when the kernel is inclined to return `wish`: an error (-1), or a count that
      is limited by the request and by what there is. */
  function ReadResult(k: Kernel, fs: FileSystem, fd: int32, count: nat, wish: int): (n: int)
    ensures -1 <= n <= count && n <= |Available(k, fs, fd)|
  {
    Limit(wish, if count <= |Available(k, fs, fd)| then count else |Available(k, fs, fd)|)
  }

  function Limit(wish: int, most: nat): (n: int)
    ensures -1 <= n <= most
  {
    if wish < 0 then -1 else if wish <= most then wish else most
  }

  function Read(k: Kernel, fs: FileSystem, fd: int32, n: int): Kernel
    requires n <= |Available(k, fs, fd)|
  {
    if n <= 0 then k
    else if IsConn(k, fd) then
      var i := k.table[fd].id;
      k.(conns := k.conns[i := k.conns[i].(pos := k.conns[i].pos + n)])
    else if IsFile(k, fs, fd) then
      var j := k.table[fd].id;
      k.(files := k.files[j := k.files[j].(pos := k.files[j].pos + n)])
    else if Is(k, fd, PipeRead) then k.(pipe := k.pipe[n..])
    else k
  }

  function Write(k: Kernel, fd: int32, bytes: seq<byte>): Kernel {
    if IsConn(k, fd) then
      var i := k.table[fd].id;
      k.(conns := k.conns[i := k.conns[i].(sent := k.conns[i].sent + bytes)])
    else if Is(k, fd, PipeWrite) then k.(pipe := k.pipe + bytes)
    else k
  }

  /** `st_size` as `fstat` reports it. */
  function Size(k: Kernel, fs: FileSystem, fd: int32): nat {
    if IsFile(k, fs, fd) then |fs[k.files[k.table[fd].id].name]| else 0
  }

  function Close(k: Kernel, fd: int32): Kernel {
    if fd !in k.table then k else
    var k' := k.(table := k.table - {fd});
    match k.table[fd]
    case Conn(i) => if i < |k.conns| then k'.(conns := k.conns[i := k.conns[i].(open := false)]) else k'
    case File(j) => if j < |k.files| then k'.(files := k.files[j := k.files[j].(open := false)]) else k'
    case _ => k'
  }

  function Malloc(k: Kernel, n: nat): Kernel {
    k.(blocks := k.blocks + n)
  }

  function Release(k: Kernel, n: nat): Kernel {
    k.(blocks := k.blocks - n)
  }

  // ---- Every call keeps the table consistent ----

  lemma AcceptValid(k: Kernel, fs: FileSystem, fd: int32, incoming: seq<byte>, lingers: bool)
    requires Valid(k, fs) && Unused(k, fd)
    ensures Valid(Accept(k, fd, incoming, lingers), fs)
  {
    var k' := Accept(k, fd, incoming, lingers);
    forall i | 0 <= i < |k'.conns| ensures ConnectionOk(k', i) {
      if i < |k.conns| { assert ConnectionOk(k, i); }
    }
    forall j | 0 <= j < |k'.files| ensures FileOk(k', fs, j) { assert FileOk(k, fs, j); }
  }

  lemma OpenValid(k: Kernel, fs: FileSystem, name: seq<byte>, fd: int32)
    requires Valid(k, fs) && (fd < 0 || (Unused(k, fd) && name in fs))
    ensures Valid(Open(k, name, fd), fs)
  {
    var k' := Open(k, name, fd);
    forall i | 0 <= i < |k'.conns| ensures ConnectionOk(k', i) { assert ConnectionOk(k, i); }
    forall j | 0 <= j < |k'.files| ensures FileOk(k', fs, j) {
      if j < |k.files| { assert FileOk(k, fs, j); }
    }
  }

  lemma ReadValid(k: Kernel, fs: FileSystem, fd: int32, n: int)
    requires Valid(k, fs) && n <= |Available(k, fs, fd)|
    ensures Valid(Read(k, fs, fd, n), fs)
  {
    var k' := Read(k, fs, fd, n);
    forall i | 0 <= i < |k'.conns| ensures ConnectionOk(k', i) { assert ConnectionOk(k, i); }
    forall j | 0 <= j < |k'.files| ensures FileOk(k', fs, j) { assert FileOk(k, fs, j); }
  }

  lemma WriteValid(k: Kernel, fs: FileSystem, fd: int32, bytes: seq<byte>)
    requires Valid(k, fs)
    ensures Valid(Write(k, fd, bytes), fs)
  {
    var k' := Write(k, fd, bytes);
    forall i | 0 <= i < |k'.conns| ensures ConnectionOk(k', i) { assert ConnectionOk(k, i); }
    forall j | 0 <= j < |k'.files| ensures FileOk(k', fs, j) { assert FileOk(k, fs, j); }
  }

  lemma CloseValid(k: Kernel, fs: FileSystem, fd: int32)
    requires Valid(k, fs)
    ensures Valid(Close(k, fd), fs)
    ensures fd >= 0 ==> Unused(Close(k, fd), fd)
    ensures forall other :: other in k.table && other != fd ==> Is(Close(k, fd), other, k.table[other])
    ensures forall i :: 0 <= i < |k.conns| ==>
              (Close(k, fd).conns[i].open <==> k.conns[i].open && k.conns[i].fd != fd)
  {
    var k' := Close(k, fd);
    forall i | 0 <= i < |k'.conns|
      ensures ConnectionOk(k', i) && (k'.conns[i].open <==> k.conns[i].open && k.conns[i].fd != fd)
    {
      assert ConnectionOk(k, i);
    }
    forall j | 0 <= j < |k'.files| ensures FileOk(k', fs, j) { assert FileOk(k, fs, j); }
  }

  lemma BlocksValid(k: Kernel, fs: FileSystem, blocks: int)
    requires Valid(k, fs)
    ensures Valid(k.(blocks := blocks), fs)
  {
    var k' := k.(blocks := blocks);
    forall i | 0 <= i < |k'.conns| ensures ConnectionOk(k', i) { assert ConnectionOk(k, i); }
    forall j | 0 <= j < |k'.files| ensures FileOk(k', fs, j) { assert FileOk(k, fs, j); }
  }
}
