/** `handle_resp`: one request, one response. */
module Handler {
  import opened Bytes
  import opened RequestLine
  import opened Os

  /** The contents of a fresh 1024-byte allocation. */
  type Block = s: seq<byte> | |s| == BUFFER_SIZE witness Zeros(1024)

  /** What the system calls of one `handle_resp` returned: the length read from the connection and what
      its buffer held before, whether `open` and `fstat` succeeded, and the length read from the file. */
  datatype Transcript = Transcript(read: int, garbage: Block, found: bool, statOk: bool, got: int)

  const UNTOUCHED := Transcript(0, Zeros(1024), false, false, 0)

  /** Literals written with `sizeof`, so the terminating NUL is sent too. */
  const NOT_FOUND: seq<byte> := Ascii("HTTP/1.0 404 Not Found\r\n\r\n") + [NUL]
  const OK_HEADER: seq<byte> := Ascii("HTTP/1.1 200 OK\r\n\r\n") + [NUL]

  predicate GotRequest(incoming: seq<byte>, t: Transcript) {
    0 < t.read <= |incoming| && t.read <= BUFFER_SIZE
  }

  function RequestBuffer(incoming: seq<byte>, t: Transcript): seq<byte>
    requires GotRequest(incoming, t)
  {
    Buffer(incoming[..t.read], t.garbage[t.read..])
  }

  /** The bytes a client gets: nothing, the 404 line, the header alone, or the header and the file. */
  function Response(fs: FileSystem, incoming: seq<byte>, t: Transcript): seq<byte> {
    if !GotRequest(incoming, t) then [] else
    match RequestFile(RequestBuffer(incoming, t))
    case None => []
    case Some(name) =>
      if !t.found || name !in fs then NOT_FOUND
      else if !t.statOk then []
      else if t.got != |fs[name]| then OK_HEADER
      else OK_HEADER + fs[name]
  }

  /** What a client reads, byte by byte: "HTTP/1.0 404 Not Found" and a blank line in 27 bytes, or "HTTP/1.1
      200 OK" and a blank line in 20 bytes, each with the NUL that `sizeof` includes, and the file behind
      the second; the header alone when the file cannot be read whole, and nothing when its size is not
      known. */
  lemma ResponseBytes(fs: FileSystem, incoming: seq<byte>, t: Transcript, name: seq<byte>)
    requires Asks(incoming, t, name)
    ensures var r := Response(fs, incoming, t);
            && (!t.found || name !in fs ==>
                  r == [72, 84, 84, 80, 47, 49, 46, 48, 32, 52, 48, 52, 32,
                        78, 111, 116, 32, 70, 111, 117, 110, 100, 13, 10, 13, 10, 0])
            && (t.found && name in fs && !t.statOk ==> r == [])
            && (t.found && name in fs && t.statOk ==>
                  && |r| >= 20
                  && r[..20] == [72, 84, 84, 80, 47, 49, 46, 49, 32, 50, 48, 48, 32, 79, 75, 13, 10, 13, 10, 0]
                  && r[20..] == if t.got == |fs[name]| then fs[name] else [])
  {
    LiteralBytes();
  }

  lemma LiteralBytes()
    ensures NOT_FOUND == [72, 84, 84, 80, 47, 49, 46, 48, 32, 52, 48, 52, 32,
                          78, 111, 116, 32, 70, 111, 117, 110, 100, 13, 10, 13, 10, 0]
    ensures OK_HEADER == [72, 84, 84, 80, 47, 49, 46, 49, 32, 50, 48, 48, 32, 79, 75, 13, 10, 13, 10, 0]
  {
    AsciiCodes("HTTP/1.0 404 Not Found\r\n\r\n");
    AsciiCodes("HTTP/1.1 200 OK\r\n\r\n");
  }

  /** The line that `perror(call)` writes, `reason` being the text for the error number. */
  function Complaint(call: string, reason: seq<byte>): seq<byte> {
    Ascii(call) + Ascii(": ") + reason + [NEWLINE]
  }

  /** What goes to the error descriptor for a file of `size` bytes. */
  function Complaints(size: nat, t: Transcript, reason: seq<byte>): seq<byte> {
    if !t.found then []
    else if !t.statOk then Complaint("stat()", reason)
    else if t.got != size then Complaint("read()", reason)
    else []
  }

  /** What one request sends to the error descriptor. */
  function Report(fs: FileSystem, incoming: seq<byte>, t: Transcript, reason: seq<byte>): seq<byte> {
    if !GotRequest(incoming, t) then [] else
    match RequestFile(RequestBuffer(incoming, t))
    case None => []
    case Some(name) => if name in fs then Complaints(|fs[name]|, t, reason) else []
  }

  /** What is reported, byte by byte: "stat(): " or "read(): ", the text for the error number and a line end. */
  lemma ReportBytes(fs: FileSystem, incoming: seq<byte>, t: Transcript, name: seq<byte>, reason: seq<byte>)
    requires Asks(incoming, t, name) && name in fs
    ensures Report(fs, incoming, t, reason) ==
              if t.found && !t.statOk then [115, 116, 97, 116, 40, 41, 58, 32] + reason + [10]
              else if t.found && t.got != |fs[name]| then [114, 101, 97, 100, 40, 41, 58, 32] + reason + [10]
              else []
  {
    AsciiCodes("stat()");
    AsciiCodes("read()");
    AsciiCodes(": ");
    assert Ascii("stat()") + Ascii(": ") == [115, 116, 97, 116, 40, 41, 58, 32];
    assert Ascii("read()") + Ascii(": ") == [114, 101, 97, 100, 40, 41, 58, 32];
  }

  /** The pipe after `text` was written to the error descriptor. */
  function PipeAfter(k: Kernel, text: seq<byte>): seq<byte> {
    if Is(k, STDERR, PipeWrite) then k.pipe + text else k.pipe
  }

  /** A request with these bytes asks for `name`. */
  predicate Asks(incoming: seq<byte>, t: Transcript, name: seq<byte>) {
    GotRequest(incoming, t) && RequestFile(RequestBuffer(incoming, t)) == Some(name)
  }

  /** Some request asks for a file that is there. */
  ghost predicate CanOpen(fs: FileSystem) {
    exists incoming, t, name :: Asks(incoming, t, name) && name in fs
  }

  /** The environment's side of one `handle_resp`: what each call is inclined to return, the text for an
      error number, and whether a write that cannot be made raises SIGPIPE. */
  datatype Wishes = Wishes(read: int, fd: int32, statOk: bool, got: int, reason: seq<byte>, raises: bool)

  datatype Outcome = Done | NullCopied | Killed

  class Process {
    const fs: FileSystem
    var kernel: Kernel

    constructor (fs: FileSystem, kernel: Kernel)
      ensures this.kernel == kernel && this.fs == fs
    {
      this.fs := fs;
      this.kernel := kernel;
    }

    static method Deliver(buf: array<byte>, data: seq<byte>)
      requires |data| <= buf.Length
      modifies buf
      ensures buf[..] == data + old(buf[..])[|data|..]
    {
      for i := 0 to |data|
        invariant forall k :: 0 <= k < i ==> buf[k] == data[k]
        invariant forall k :: i <= k < buf.Length ==> buf[k] == old(buf[k])
      {
        buf[i] := data[i];
      }
    }

    /** `read(fd, buf, buf.Length)` */
    method Read(fd: int32, buf: array<byte>, wish: int) returns (n: int)
      modifies this, buf
      ensures n == ReadResult(old(kernel), fs, fd, buf.Length, wish)
      ensures kernel == Os.Read(old(kernel), fs, fd, n)
      ensures n > 0 ==> buf[..] == Available(old(kernel), fs, fd)[..n] + old(buf[..])[n..]
      ensures n <= 0 ==> buf[..] == old(buf[..])
    {
      n := ReadResult(kernel, fs, fd, buf.Length, wish);
      var data := if n > 0 then Available(kernel, fs, fd)[..n] else [];
      ghost var before := buf[..];
      Deliver(buf, data);
      assert n <= 0 ==> [] + before[0..] == before;
      kernel := Os.Read(kernel, fs, fd, n);
    }

    method Write(fd: int32, bytes: seq<byte>)
      modifies this
      ensures kernel == Os.Write(old(kernel), fd, bytes)
    {
      kernel := Os.Write(kernel, fd, bytes);
    }

    method Open(name: seq<byte>, wish: int32) returns (fd: int32)
      modifies this
      ensures fd == OpenResult(old(kernel), fs, name, wish)
      ensures kernel == Os.Open(old(kernel), name, fd)
    {
      fd := OpenResult(kernel, fs, name, wish);
      kernel := Os.Open(kernel, name, fd);
    }

    method Close(fd: int32)
      modifies this
      ensures kernel == Os.Close(old(kernel), fd)
    {
      kernel := Os.Close(kernel, fd);
    }

    method Malloc(n: nat) returns (a: array<byte>)
      modifies this
      ensures kernel == Os.Malloc(old(kernel), 1)
      ensures fresh(a) && a.Length == n
    {
      a := new byte[n];
      kernel := Os.Malloc(kernel, 1);
    }

    method Release(blocks: nat)
      modifies this
      ensures kernel == Os.Release(old(kernel), blocks)
    {
      kernel := Os.Release(kernel, blocks);
    }

    /** `perror`. A write to the listening socket fails and may raise SIGPIPE, which ends the process. */
    method Perror(call: string, wishes: Wishes) returns (killed: bool)
      modifies this
      ensures killed == (Is(old(kernel), STDERR, Listener) && wishes.raises)
      ensures kernel == Os.Write(old(kernel), STDERR, Complaint(call, wishes.reason))
    {
      killed := Is(kernel, STDERR, Listener) && wishes.raises;
      Write(STDERR, Complaint(call, wishes.reason));
    }

    /** One request on a freshly accepted connection `id`. Whatever the calls return, the connection gets
        the response and is closed, a file that was opened is closed, every allocation is released, a
        failed `fstat` or `read` of the file is reported on the error descriptor, and nothing else in the
        kernel changes; unless the process ends by the copy from a null pointer or by SIGPIPE. */
    method HandleResp(childfd: int32, wishes: Wishes, ghost id: nat) returns (outcome: Outcome, ghost t: Transcript)
      requires Is(kernel, childfd, Conn(id)) && id < |kernel.conns|
      requires kernel.conns[id].pos == 0 && !IsConn(kernel, STDERR)
      modifies this
      ensures t.read == ReadResult(old(kernel), fs, childfd, 1024, wishes.read)
      ensures outcome.NullCopied? <==> Faults(old(kernel.conns[id]).incoming, t)
      ensures outcome.Killed? <==>
                Kills(old(kernel), Report(fs, old(kernel.conns[id]).incoming, t, wishes.reason), wishes)
      ensures Answered(old(kernel), fs, old(kernel.conns[id]).incoming, wishes, t)
      ensures outcome.Done? ==> Served(old(kernel), kernel, fs, childfd, id, t, wishes.reason)
    {
      ghost var k0 := kernel;
      var buf, verb, uri, filename := MallocBuffers();
      var n;
      n, t := Receive(childfd, buf, wishes.read, id);
      ghost var k1 := kernel;
      ReadKeeps(k0, fs, childfd, id, n, wishes);
      outcome, t := Answer(childfd, n, buf, verb, uri, filename, wishes, id, k0.conns[id].incoming, t);
      if !outcome.Done? { return; }
      ghost var k2 := kernel;
      Release(4);
      Close(childfd);
      ServedWhole(k0, k1, k2, fs, childfd, id, t, wishes.reason);
    }

    method MallocBuffers() returns (buf: array<byte>, verb: array<byte>, uri: array<byte>, filename: array<byte>)
      modifies this
      ensures kernel == Os.Malloc(old(kernel), 4)
      ensures fresh(buf) && fresh(verb) && fresh(uri) && fresh(filename)
      ensures buf.Length == verb.Length == uri.Length == filename.Length == 1024
      ensures buf != verb && buf != uri && buf != filename && verb != uri && verb != filename && uri != filename
    {
      buf := Malloc(1024);
      verb := Malloc(1024);
      uri := Malloc(1024);
      filename := Malloc(1024);
    }

    /** The first read, and the terminator in the buffer's last place. */
    method Receive(childfd: int32, buf: array<byte>, wish: int, ghost id: nat) returns (n: int, ghost t: Transcript)
      requires Is(kernel, childfd, Conn(id)) && id < |kernel.conns| && kernel.conns[id].pos == 0
      requires buf.Length == 1024
      modifies this, buf
      ensures n == ReadResult(old(kernel), fs, childfd, 1024, wish)
      ensures t == UNTOUCHED.(read := n, garbage := t.garbage)
      ensures kernel == Os.Read(old(kernel), fs, childfd, n)
      ensures GotRequest(old(kernel).conns[id].incoming, t) <==> n > 0
      ensures n > 0 ==> buf[..] == RequestBuffer(old(kernel).conns[id].incoming, t)
    {
      ghost var garbage := buf[..];
      n := Read(childfd, buf, wish);
      t := UNTOUCHED.(read := n, garbage := garbage);
      if n > 0 {
        buf[1023] := 0;
      }
    }

    /** When something was read: find the file name and transfer the file. */
    method Answer(childfd: int32, n: int, buf: array<byte>, verb: array<byte>, uri: array<byte>, filename: array<byte>,
                  wishes: Wishes, ghost id: nat, ghost incoming: seq<byte>, ghost t0: Transcript)
      returns (outcome: Outcome, ghost t: Transcript)
      requires Is(kernel, childfd, Conn(id)) && id < |kernel.conns| && !IsConn(kernel, STDERR)
      requires n == t0.read && (GotRequest(incoming, t0) <==> n > 0)
      requires n > 0 ==> buf[..] == RequestBuffer(incoming, t0)
      requires buf.Length == verb.Length == uri.Length == filename.Length == BUFFER_SIZE
      requires buf != verb && buf != uri && buf != filename && verb != uri && verb != filename && uri != filename
      modifies this, buf, verb, uri, filename
      ensures t == t0.(found := t.found, statOk := t.statOk, got := t.got)
      ensures outcome.NullCopied? <==> Faults(incoming, t)
      ensures outcome.Killed? <==> Kills(old(kernel), Report(fs, incoming, t, wishes.reason), wishes)
      ensures Answered(old(kernel), fs, incoming, wishes, t)
      ensures outcome.Done? ==>
                && kernel.table == old(kernel.table) && kernel.blocks == old(kernel.blocks)
                && kernel.pipe == PipeAfter(old(kernel), Report(fs, incoming, t, wishes.reason))
                && FilesServed(old(kernel), kernel)
                && Sent(old(kernel), kernel, id, Response(fs, incoming, t))
    {
      outcome, t := Done, t0;
      if n > 0 {
        var ok, length := ParseRequest(buf, verb, uri, filename);
        if !ok { return NullCopied, t0; }
        var killed;
        killed, t := Transfer(childfd, filename[..length], wishes, id, t0);
        if killed { outcome := Killed; }
      } else {
        assert kernel.conns[id].sent + [] == kernel.conns[id].sent;
        assert kernel.pipe + [] == kernel.pipe;
      }
    }

    /** The middle of `handle_resp`: open the file, answer, close the file. */
    method Transfer(childfd: int32, name: seq<byte>, wishes: Wishes, ghost id: nat, ghost t0: Transcript)
      returns (killed: bool, ghost t: Transcript)
      requires Is(kernel, childfd, Conn(id)) && id < |kernel.conns| && !IsConn(kernel, STDERR)
      modifies this
      ensures t == t0.(found := t.found, statOk := t.statOk, got := t.got)
      ensures Tried(old(kernel), fs, name, wishes, t)
      ensures killed == Kills(old(kernel), if name in fs then Complaints(|fs[name]|, t, wishes.reason) else [], wishes)
      ensures !killed ==> Transferred(old(kernel), kernel, fs, name, id, t, wishes.reason)
    {
      ghost var k0 := kernel;
      var fd := Open(name, wishes.fd);
      if fd < 0 {
        Write(childfd, NOT_FOUND);
        assert k0.pipe + [] == k0.pipe;
        return false, t0.(found := false);
      }
      if !wishes.statOk {
        t := t0.(found := true, statOk := false);
        assert k0.conns[id].sent + [] == k0.conns[id].sent;
        killed := Perror("stat()", wishes);
        assert |Complaint("stat()", wishes.reason)| > 0;
      } else {
        var got;
        killed, got := SendFile(childfd, fd, wishes, id, k0, name);
        t := t0.(found := true, statOk := true, got := got);
      }
      if killed { return; }
      Close(fd);
      assert kernel.table == k0.table;
    }

    /** With the file open: the header, and the file when it can be read whole. */
    method SendFile(childfd: int32, fd: int32, wishes: Wishes, ghost id: nat, ghost k0: Kernel, ghost name: seq<byte>)
      returns (killed: bool, got: int)
      requires Is(k0, childfd, Conn(id)) && id < |k0.conns| && !IsConn(k0, STDERR)
      requires Unused(k0, fd) && name in fs && kernel == Os.Open(k0, name, fd)
      modifies this
      ensures got == Limit(wishes.got, |fs[name]|)
      ensures var text := if got != |fs[name]| then Complaint("read()", wishes.reason) else [];
              && killed == Kills(k0, text, wishes)
              && kernel.pipe == PipeAfter(k0, text)
      ensures kernel.table == k0.table[fd := File(|k0.files|)]
      ensures kernel.blocks == k0.blocks + (if killed then 1 else 0)
      ensures |kernel.files| == |k0.files| + 1 && k0.files <= kernel.files
      ensures Sent(k0, kernel, id, if got != |fs[name]| then OK_HEADER else OK_HEADER + fs[name])
    {
      var size := Size(kernel, fs, fd);
      Write(childfd, OK_HEADER);
      var b := Malloc(size);
      got := Read(fd, b, wishes.got);
      if got != size {
        killed := Perror("read()", wishes);
        assert |Complaint("read()", wishes.reason)| > 0;
        if killed { return; }
      } else {
        killed := false;
        assert b[..] == fs[name];
        Write(childfd, b[..]);
        assert (k0.conns[id].sent + OK_HEADER) + fs[name] == k0.conns[id].sent + (OK_HEADER + fs[name]);
        assert k0.pipe + [] == k0.pipe;
      }
      Release(1);
    }
  }

  /** The program copies from a null pointer: a request was read and has fewer than two tokens. */
  predicate Faults(incoming: seq<byte>, t: Transcript) {
    GotRequest(incoming, t) && RequestFile(RequestBuffer(incoming, t)).None?
  }

  /** The results in `t` are those the calls on `name` give. */
  ghost predicate Tried(k0: Kernel, fs: FileSystem, name: seq<byte>, wishes: Wishes, t: Transcript) {
    && t.found == (Unused(k0, wishes.fd) && name in fs)
    && (t.found ==> t.statOk == wishes.statOk)
    && (t.found && t.statOk ==> t.got == Limit(wishes.got, |fs[name]|))
  }

  ghost predicate Answered(k0: Kernel, fs: FileSystem, incoming: seq<byte>, wishes: Wishes, t: Transcript) {
    GotRequest(incoming, t) && !Faults(incoming, t) ==>
      Tried(k0, fs, RequestFile(RequestBuffer(incoming, t)).value, wishes, t)
  }

  /** Reporting `text` ends the process: descriptor 2 is the listening socket and the write raises SIGPIPE. */
  predicate Kills(k: Kernel, text: seq<byte>, wishes: Wishes) {
    text != [] && Is(k, STDERR, Listener) && wishes.raises
  }

  /** `k` is `k0` after an attempt to send the file `name` on connection `id`. */
  ghost predicate Transferred(k0: Kernel, k: Kernel, fs: FileSystem, name: seq<byte>, id: nat, t: Transcript,
                              reason: seq<byte>)
    requires t.found ==> name in fs
  {
    && k.table == k0.table && k.blocks == k0.blocks
    && k.pipe == PipeAfter(k0, if name in fs then Complaints(|fs[name]|, t, reason) else [])
    && FilesServed(k0, k)
    && Sent(k0, k, id, if !t.found then NOT_FOUND else if !t.statOk then []
                       else if t.got != |fs[name]| then OK_HEADER else OK_HEADER + fs[name])
  }

  /** `more` was written to connection `id` and nothing else about any connection changed. */
  ghost predicate Sent(k0: Kernel, k: Kernel, id: nat, more: seq<byte>) {
    && id < |k0.conns|
    && k.conns == k0.conns[id := k0.conns[id].(sent := k0.conns[id].sent + more)]
  }

  /** At most one file was opened, and it is closed again. */
  ghost predicate FilesServed(k0: Kernel, k: Kernel) {
    || k.files == k0.files
    || (|k.files| == |k0.files| + 1 && k0.files <= k.files && !k.files[|k0.files|].open)
  }

  /** `k` is `k0` after the request on connection `id`, seen as `childfd`, was served. */
  ghost predicate Served(k0: Kernel, k: Kernel, fs: FileSystem, childfd: int32, id: nat, t: Transcript,
                         reason: seq<byte>) {
    && id < |k0.conns|
    && var c := k0.conns[id];
    && k.table == k0.table - {childfd}
    && k.pipe == PipeAfter(k0, Report(fs, c.incoming, t, reason))
    && k.blocks == k0.blocks
    && FilesServed(k0, k)
    && k.conns == k0.conns[id := c.(pos := if t.read > 0 then t.read else 0,
                                    sent := c.sent + Response(fs, c.incoming, t),
                                    open := false)]
  }

  /** The first read leaves alone what the calls after it go by. */
  lemma ReadKeeps(k0: Kernel, fs: FileSystem, childfd: int32, id: nat, n: int, wishes: Wishes)
    requires Is(k0, childfd, Conn(id)) && id < |k0.conns| && n <= |Available(k0, fs, childfd)|
    ensures var k1 := Read(Malloc(k0, 4), fs, childfd, n);
            && k1 == Malloc(Read(k0, fs, childfd, n), 4)
            && k1.table == k0.table && |k1.conns| == |k0.conns|
            && (forall name, t :: Tried(k1, fs, name, wishes, t) == Tried(k0, fs, name, wishes, t))
            && (forall text :: Kills(k1, text, wishes) == Kills(k0, text, wishes))
  {
  }

  /** Reading, answering, releasing and closing together serve the request. */
  lemma ServedWhole(k0: Kernel, k1: Kernel, k2: Kernel, fs: FileSystem, childfd: int32, id: nat, t: Transcript,
                    reason: seq<byte>)
    requires Is(k0, childfd, Conn(id)) && id < |k0.conns| && k0.conns[id].pos == 0
    requires t.read <= |Available(k0, fs, childfd)| && t.read <= BUFFER_SIZE
    requires k1 == Os.Malloc(Read(k0, fs, childfd, t.read), 4)
    requires Sent(k1, k2, id, Response(fs, k0.conns[id].incoming, t))
    requires FilesServed(k1, k2) && k2.table == k1.table && k2.blocks == k1.blocks
    requires k2.pipe == PipeAfter(k1, Report(fs, k0.conns[id].incoming, t, reason))
    ensures Served(k0, Close(Os.Release(k2, 4), childfd), fs, childfd, id, t, reason)
  {
  }
}
