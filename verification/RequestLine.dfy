/** How `handle_resp` turns the bytes it read into the name of a file. */
module RequestLine {
  import opened Bytes
  import opened Tokenizer

  const BUFFER_SIZE: nat := 1024

  /** The 1024-byte buffer after the read and `buf[1023] = 0`: what was received, then whatever the
      allocation held before, with a terminator in the last place. */
  function Buffer(received: seq<byte>, tail: seq<byte>): (buf: seq<byte>)
    requires |received| + |tail| == BUFFER_SIZE
    ensures |buf| == BUFFER_SIZE && buf[BUFFER_SIZE - 1] == NUL
  {
    (received + tail)[BUFFER_SIZE - 1 := NUL]
  }

  function FileName(uri: seq<byte>): seq<byte> {
    if uri == [SLASH] then Ascii("./index.html") else [DOT] + uri
  }

  /** The file a request buffer asks for; `None` where the program copies from a null pointer because
      the text has fewer than two tokens. */
  function RequestFile(buf: seq<byte>): Option<seq<byte>> {
    FileOfText(Text(buf))
  }

  function FileOfText(text: seq<byte>): Option<seq<byte>> {
    var runs := Runs(text, 0);
    if |runs| < 2 then None else Some(FileName(text[runs[1].0..runs[1].1]))
  }

  /** The file in terms of where the first two tokens lie. */
  lemma FileAtMarks(text: seq<byte>, a: nat, b: nat, c: nat, d: nat)
    requires Marks(text) == (a, b, c, d)
    ensures a <= b <= c <= d <= |text|
    ensures FileOfText(text) == if c == |text| then None else Some(FileName(text[c..d]))
  {
    FirstTwoRuns(text);
  }

  /** What the buffer holds: the bytes received, the old ones behind them, and 0 in the last place. */
  lemma BufferBytes(received: seq<byte>, tail: seq<byte>, k: nat)
    requires |received| + |tail| == 1024 && k < 1024
    ensures Buffer(received, tail)[k] ==
              if k == 1023 then 0 else if k < |received| then received[k] else tail[k - |received|]
  {
  }

  /** The name asked for, byte by byte: "./index.html" for "/", and otherwise "." followed by the second of
      the space-separated runs of the text. */
  lemma NameBytes(buf: seq<byte>)
    ensures var (text, runs) := (Text(buf), Runs(Text(buf), 0));
            && (|runs| < 2 <==> RequestFile(buf).None?)
            && (|runs| >= 2 ==>
                  var (uri, name) := (text[runs[1].0..runs[1].1], RequestFile(buf).value);
                  && (uri == [47] ==> name == [46, 47, 105, 110, 100, 101, 120, 46, 104, 116, 109, 108])
                  && (uri != [47] ==> |name| == |uri| + 1 && name[0] == 46 && name[1..] == uri))
  {
    IndexBytes();
  }

  lemma IndexBytes()
    ensures Ascii("./index.html") == [46, 47, 105, 110, 100, 101, 120, 46, 104, 116, 109, 108]
  {
    AsciiCodes("./index.html");
  }

  /** Bytes that no space and no NUL interrupts. */
  predicate IsToken(w: seq<byte>) {
    w != [] && SPACE !in w && NUL !in w
  }

  /** A space behind the second token settles which file is asked for. */
  lemma SpaceSettles(verb: seq<byte>, uri: seq<byte>, received: seq<byte>)
    requires IsToken(verb) && IsToken(uri) && |received| <= BUFFER_SIZE
    requires var q := |verb| + 1 + |uri|;
             q < |received| && received[..q] == verb + [SPACE] + uri && received[q] == SPACE
    ensures Settled(received)
  {
    var (p, q, v) := (|verb|, |verb| + 1 + |uri|, Received(received));
    assert v[..q] == received[..q];
    TokensLie(verb, uri, v);
    MarksUnique(v, 0, p, p + 1, q);
  }

  /** A buffer that begins with two tokens, one space apart, asks for the file of the second. */
  lemma TokenName(verb: seq<byte>, uri: seq<byte>, buf: seq<byte>)
    requires IsToken(verb) && IsToken(uri)
    requires var q := |verb| + 1 + |uri|;
             && q <= |buf| && buf[..q] == verb + [SPACE] + uri && (q < |buf| ==> buf[q] == SPACE || buf[q] == NUL)
    ensures RequestFile(buf) == Some(FileName(uri))
  {
    var (p, q) := (|verb|, |verb| + 1 + |uri|);
    var text := Text(buf);
    TokensLie(verb, uri, buf);
    assert q <= |text|;
    MarksUnique(text, 0, p, p + 1, q);
    FileAtMarks(text, 0, p, p + 1, q);
    SamePiece(text, buf, p + 1, q);
  }

  lemma TokensLie(verb: seq<byte>, uri: seq<byte>, buf: seq<byte>)
    requires IsToken(verb) && IsToken(uri)
    requires var q := |verb| + 1 + |uri|; q <= |buf| && buf[..q] == verb + [SPACE] + uri
    ensures var (p, q) := (|verb|, |verb| + 1 + |uri|);
            && (forall k :: 0 <= k < p || p < k < q ==> buf[k] != SPACE && buf[k] != NUL)
            && buf[p] == SPACE && buf[p + 1..q] == uri
  {
    var (p, q) := (|verb|, |verb| + 1 + |uri|);
    var head := buf[..q];
    forall k | 0 <= k < p || p < k < q ensures buf[k] != SPACE && buf[k] != NUL {
      assert buf[k] == head[k];
      if k < p { assert head[k] == verb[k]; } else { assert head[k] == uri[k - p - 1]; }
    }
    assert buf[p] == head[p];
    assert head[p + 1..q] == uri;
  }

  lemma SamePiece(text: seq<byte>, buf: seq<byte>, from: nat, to: nat)
    requires text <= buf && from <= to <= |text|
    ensures text[from..to] == buf[from..to]
  {
  }

  /** The method, one separator and the URI fit the buffer with its terminator, so every copy into a
      1024-byte buffer stays inside it, the shifted one into `filename` included. */
  lemma TokensFit(buf: seq<byte>)
    requires |buf| == BUFFER_SIZE && buf[BUFFER_SIZE - 1] == NUL
    ensures var runs := Runs(Text(buf), 0);
            |runs| >= 2 ==>
              && runs[0].0 < runs[0].1 && runs[1].0 < runs[1].1
              && (runs[0].1 - runs[0].0) + 1 + (runs[1].1 - runs[1].0) <= BUFFER_SIZE - 1
    ensures RequestFile(buf).Some? ==>
              |RequestFile(buf).value| + 1 <= BUFFER_SIZE && NUL !in RequestFile(buf).value
  {
    var text := Text(buf);
    FirstTwoRuns(text);
    assert NUL !in Ascii("./index.html");
  }

  /** The text of a buffer ends at its first NUL. */
  lemma TextEnd(buf: seq<byte>, z: nat)
    requires z <= |buf| && NUL !in buf[..z] && (z < |buf| ==> buf[z] == NUL)
    ensures Text(buf) == buf[..z]
  {
    assert forall i :: 0 <= i < z ==> buf[i] == buf[..z][i];
    assert ScanTo(buf, 0, IsNul) == z;
  }

  /** The parse as the program does it: two calls of `strtok_r` that cut `buf` in place, copies into
      `verb` and `uri`, and `filename` built from the URI. On success `length` is the length of the
      text in `filename`. */
  method ParseRequest(buf: array<byte>, verb: array<byte>, uri: array<byte>, filename: array<byte>)
    returns (ok: bool, length: nat)
    requires buf.Length == verb.Length == uri.Length == filename.Length == BUFFER_SIZE
    requires buf != verb && buf != uri && buf != filename && verb != uri && verb != filename && uri != filename
    requires buf[BUFFER_SIZE - 1] == NUL
    modifies buf, verb, uri, filename
    ensures ok == RequestFile(old(buf[..])).Some?
    ensures ok ==> length < BUFFER_SIZE && Some(filename[..length]) == RequestFile(old(buf[..]))
    ensures ok ==> Text(filename[..]) == filename[..length]
  {
    ghost var text := Text(buf[..]);
    ghost var (a, b, c, d) := Marks(text);
    FileAtMarks(text, a, b, c, d);
    assert buf[..][BUFFER_SIZE - 1] in buf[..];
    ok := Tokenize(buf, verb, uri, text, (a, b), (c, d));
    if !ok { return false, 0; }
    length := BuildFileName(uri, filename, text[c..d]);
  }

  /** Both tokens: the first is left in `verb`, the second in `uri`. */
  method Tokenize(buf: array<byte>, verb: array<byte>, uri: array<byte>,
                  ghost text: seq<byte>, ghost first: (nat, nat), ghost second: (nat, nat))
    returns (ok: bool)
    requires buf.Length == verb.Length == uri.Length == BUFFER_SIZE
    requires buf != verb && buf != uri && verb != uri
    requires |text| < BUFFER_SIZE && text == buf[..|text|] && buf[|text|] == NUL && NUL !in text
    requires Marks(text) == (first.0, first.1, second.0, second.1)
    requires first.0 <= first.1 <= second.0 <= second.1 <= |text|
    modifies buf, verb, uri
    ensures ok == (second.0 < |text|)
    ensures ok ==> Holds(verb, text[first.0..first.1]) && Holds(uri, text[second.0..second.1])
    ensures ok ==> |text[second.0..second.1]| + 2 <= BUFFER_SIZE && NUL !in text[second.0..second.1]
  {
    var saved;
    ok, saved := TakeFirst(buf, verb, text, first, second);
    if !ok { return false; }
    ghost var kept := verb[..];
    ghost var name;
    ok, saved, name := TakeToken(buf, saved, uri, |text|);
    assert verb[..] == kept;
  }

  /** The text in `a` is `word`. */
  ghost predicate Holds(a: array<byte>, word: seq<byte>)
    reads a
  {
    |word| < a.Length && a[..|word|] == word && a[|word|] == NUL
  }

  /** The first token goes to `verb`; what is left of the text from `saved` on is as it was. */
  method TakeFirst(buf: array<byte>, verb: array<byte>,
                   ghost text: seq<byte>, ghost first: (nat, nat), ghost second: (nat, nat))
    returns (ok: bool, saved: nat)
    requires buf.Length == verb.Length == BUFFER_SIZE && buf != verb
    requires |text| < BUFFER_SIZE && text == buf[..|text|] && buf[|text|] == NUL && NUL !in text
    requires Marks(text) == (first.0, first.1, second.0, second.1)
    requires first.0 <= first.1 <= second.0 <= second.1 <= |text|
    modifies buf, verb
    ensures ok == (first.0 < |text|)
    ensures ok ==> Holds(verb, text[first.0..first.1])
    ensures ok ==>
              && var rest := buf[..|text|];
              && saved <= |text| && buf[|text|] == NUL && NUL !in rest[saved..]
              && ScanTo(rest, saved, NonSpace) == second.0 && ScanTo(rest, second.0, IsSpace) == second.1
              && rest[second.0..second.1] == text[second.0..second.1]
              && (second.0 == |text| || 2 <= second.0)
  {
    ghost var word;
    assert text[0..] == text;
    ok, saved, word := TakeToken(buf, 0, verb, |text|);
    if !ok { return; }
    SecondToken(text, buf[..|text|], saved);
  }

  /** `ptr = strtok_r(.., " ", &n); strcpy(dst, ptr);` The text of `buf` ends at `end`. */
  method TakeToken(buf: array<byte>, from: nat, dst: array<byte>, ghost end: nat)
    returns (ok: bool, saved: nat, ghost word: seq<byte>)
    requires buf != dst && from <= end < buf.Length && end < dst.Length
    requires buf[end] == NUL && NUL !in buf[..end][from..]
    modifies buf, dst
    ensures var text := old(buf[..end]);
            var a := ScanTo(text, from, NonSpace);
            && ok == (a < end)
            && (ok ==>
                  var b := ScanTo(text, a, IsSpace);
                  && word == text[a..b]
                  && dst[..b - a] == word && dst[b - a] == NUL
                  && saved == (if b == end then b else b + 1)
                  && buf[..end] == (if b == end then text else text[b := NUL])
                  && buf[end] == NUL)
  {
    ghost var text := buf[..end];
    assert buf[from..end] == text[from..];
    var token;
    token, saved := Strtok(buf, from, end);
    ok := token >= 0;
    if !ok { return false, saved, []; }
    ghost var b := ScanTo(text, token, IsSpace);
    word := text[token..b];
    assert buf[token..b] == word;
    Copy(dst, buf, token, word);
  }

  /** `strcpy(dst, src + from)` of the text `word`. */
  method Copy(dst: array<byte>, src: array<byte>, from: nat, ghost word: seq<byte>)
    requires dst != src && |word| < dst.Length
    requires from + |word| < src.Length && src[from..from + |word|] == word
    requires src[from + |word|] == NUL && NUL !in word
    modifies dst
    ensures dst[..|word|] == word && dst[|word|] == NUL
  {
    Strcpy(dst, 0, src, from, |word|);
  }

  /** After the first call the second one, starting behind the NUL that was written, finds what the
      uncut text has there. */
  lemma SecondToken(text: seq<byte>, rest: seq<byte>, saved: nat)
    requires |rest| == |text| && NUL !in text
    requires var (a, b, c, d) := Marks(text);
             && a < |text|
             && saved == (if b == |text| then b else b + 1)
             && rest == (if b == |text| then text else text[b := NUL])
    ensures var (a, b, c, d) := Marks(text);
            && ScanTo(rest, saved, NonSpace) == c
            && ScanTo(rest, c, IsSpace) == d
            && rest[c..d] == text[c..d] && NUL !in rest[saved..]
            && (c == |text| || 2 <= c)
  {
    var (a, b, c, d) := Marks(text);
    if b < |text| {
      assert text[b] == SPACE;
      assert c > b;
    }
  }

  /** The mapping from URI to file name, done on the program's buffers. */
  method BuildFileName(uri: array<byte>, filename: array<byte>, ghost name: seq<byte>) returns (length: nat)
    requires uri != filename && uri.Length == filename.Length == BUFFER_SIZE
    requires |name| + 2 <= BUFFER_SIZE && NUL !in name
    requires uri[..|name|] == name && uri[|name|] == NUL
    modifies filename
    ensures length < BUFFER_SIZE && filename[..length] == FileName(name)
    ensures name == [47] ==> filename[..length] == [46, 47, 105, 110, 100, 101, 120, 46, 104, 116, 109, 108]
    ensures name != [47] ==> length == |name| + 1 && filename[0] == 46 && filename[1..length] == name
    ensures Text(filename[..]) == filename[..length]
  {
    var n := Strlen(uri, 0, |name|);
    if n == 1 && uri[0] == SLASH {
      assert name == [SLASH];
      var literal := Literal("./index.html");
      Copy(filename, literal, 0, Ascii("./index.html"));
      length := 12;
      assert filename[..length] == Ascii("./index.html");
      IndexBytes();
      TextEnd(filename[..], length);
    } else {
      assert name != [SLASH];
      filename[0] := DOT;
      ghost var first := filename[..1];
      assert uri[0..0 + |name|] == name;
      Strcpy(filename, 1, uri, 0, |name|);
      length := 1 + n;
      assert filename[..length] == [DOT] + name;
      TextEnd(filename[..], length);
    }
  }

  /** A string literal in memory, with its terminator. */
  method Literal(s: string) returns (a: array<byte>)
    requires NUL !in Ascii(s)
    ensures fresh(a) && a.Length == |s| + 1 && a[..] == Ascii(s) + [NUL]
  {
    var contents := Ascii(s) + [NUL];
    a := new byte[|contents|](i requires 0 <= i < |contents| => contents[i]);
  }

  // ---- Dependence on the uninitialised tail ----

  function Received(received: seq<byte>): seq<byte> {
    if |received| < BUFFER_SIZE then received else received[..BUFFER_SIZE - 1]
  }

  /** How many more bytes could still change which file is asked for. */
  function Missing(v: seq<byte>): nat {
    var runs := Runs(v, 0);
    if |runs| == 0 then 3 else if |runs| == 1 && v != [] && v[|v| - 1] != SPACE then 2 else 1
  }

  /** The received bytes alone fix the file: they hold a NUL, or a space after the URI, or the buffer
      has too little room left for the missing bytes. */
  predicate Settled(received: seq<byte>) {
    var v := Received(received);
    || NUL in v
    || (var (a, b, c, d) := Marks(v); d < |v|)
    || Missing(v) > BUFFER_SIZE - 1 - |v|
  }

  /** The file asked for is the one the received bytes alone ask for, whatever the allocation held
      before, exactly when the received bytes settle it. */
  lemma TailIrrelevantIffSettled(received: seq<byte>)
    requires |received| <= BUFFER_SIZE
    ensures Settled(received) <==>
              forall tail: seq<byte> :: |received| + |tail| == BUFFER_SIZE ==>
                RequestFile(Buffer(received, tail)) == RequestFile(Received(received))
  {
    forall tail: seq<byte> | |received| + |tail| == BUFFER_SIZE && Settled(received)
      ensures RequestFile(Buffer(received, tail)) == RequestFile(Received(received))
    {
      SettledFile(received, tail);
    }
    if !Settled(received) {
      var more := Continuation(received);
      var tail := more + Zeros(BUFFER_SIZE - |received| - |more|);
      UnsettledFile(received, tail);
    }
  }

  lemma SettledFile(received: seq<byte>, tail: seq<byte>)
    requires |received| + |tail| == BUFFER_SIZE
    requires Settled(received)
    ensures RequestFile(Buffer(received, tail)) == RequestFile(Received(received))
  {
    var v := Received(received);
    var buf := Buffer(received, tail);
    assert buf[..|v|] == v;
    var z := |Text(v)|;
    if NUL in v {
      assert buf[..z] == Text(v);
      TextEnd(buf, z);
    } else {
      TextEnd(v, |v|);
      assert v[..|v|] == v;
      TextExtends(v, buf);
      SettledText(v, Text(buf));
    }
  }

  lemma SettledText(v: seq<byte>, text: seq<byte>)
    requires v <= text && |text| < BUFFER_SIZE
    requires Marks(v).3 < |v| || |text| - |v| < Missing(v)
    ensures FileOfText(text) == FileOfText(v)
  {
    var (a, b, c, d) := Marks(v);
    if d < |v| {
      MarksUnique(text, a, b, c, d);
      FileAtMarks(v, a, b, c, d);
      FileAtMarks(text, a, b, c, d);
      assert text[c..d] == v[c..d];
    } else if |text| == |v| {
      assert text == v;
    } else {
      TooLittleRoom(v, text);
    }
  }

  /** Without a NUL in the received bytes the text goes on behind them. */
  lemma TextExtends(v: seq<byte>, buf: seq<byte>)
    requires |v| < |buf| && buf[..|v|] == v && NUL !in v && buf[|buf| - 1] == NUL
    ensures v <= Text(buf) && |Text(buf)| < |buf|
  {
    assert buf[|buf| - 1] in buf;
    assert forall k :: 0 <= k < |v| ==> buf[k] == buf[..|v|][k];
  }

  lemma TooLittleRoom(v: seq<byte>, text: seq<byte>)
    requires v <= text && |v| < |text| && |text| - |v| < Missing(v)
    ensures |Runs(v, 0)| < 2 && |Runs(text, 0)| < 2
  {
    FirstTwoRuns(v);
    FirstTwoRuns(text);
    var (a, b, c, d) := Marks(v);
    var (a', b', c', d') := Marks(text);
    if a < |v| {
      assert a' == a;
      assert b == |v|;
    }
  }

  /** Bytes that change the file when too few were received. */
  function Continuation(received: seq<byte>): (more: seq<byte>)
    requires !Settled(received)
    ensures |received| + |more| < BUFFER_SIZE && NUL !in more
  {
    var v := Received(received);
    if Missing(v) == 3 then [97, SPACE, 98] else if Missing(v) == 2 then [SPACE, 98] else [98]
  }

  lemma UnsettledFile(received: seq<byte>, tail: seq<byte>)
    requires !Settled(received) && |received| + |tail| == BUFFER_SIZE
    requires var more := Continuation(received);
             tail == more + Zeros(BUFFER_SIZE - |received| - |more|)
    ensures RequestFile(Buffer(received, tail)) != RequestFile(Received(received))
  {
    var more := Continuation(received);
    var text := received + more;
    var buf := Buffer(received, tail);
    assert buf[..|text|] == text;
    TextEnd(buf, |text|);
    TextEnd(received, |received|);
    assert received[..|received|] == received;
    assert received == Received(received);
    ContinuationChanges(received, text);
  }

  lemma ContinuationChanges(v: seq<byte>, text: seq<byte>)
    requires !Settled(v) && text == v + Continuation(v)
    ensures FileOfText(text) != FileOfText(v)
  {
    FirstTwoRuns(v);
    var (a, b, c, d) := Marks(v);
    FileAtMarks(v, a, b, c, d);
    if |Runs(v, 0)| == 0 {
      ContinueBlank(v, text);
    } else if |Runs(v, 0)| == 1 {
      ContinueMethod(v, text, a, b);
    } else {
      ContinueUri(v, text, a, b, c);
    }
  }

  lemma ContinueBlank(v: seq<byte>, text: seq<byte>)
    requires Marks(v).0 == |v| && text == v + [97, SPACE, 98]
    ensures FileOfText(text).Some?
  {
    var n := |v|;
    MarksUnique(text, n, n + 1, n + 2, n + 3);
    FileAtMarks(text, n, n + 1, n + 2, n + 3);
  }

  lemma ContinueMethod(v: seq<byte>, text: seq<byte>, a: nat, b: nat)
    requires v != [] && Marks(v) == (a, b, |v|, |v|) && a < |v|
    requires text == if v[|v| - 1] != SPACE then v + [SPACE, 98] else v + [98]
    ensures FileOfText(text).Some?
  {
    var n := |v|;
    if v[n - 1] != SPACE {
      assert b == n;
      MarksUnique(text, a, n, n + 1, n + 2);
      FileAtMarks(text, a, n, n + 1, n + 2);
    } else {
      assert b < n;
      MarksUnique(text, a, b, n, n + 1);
      FileAtMarks(text, a, b, n, n + 1);
    }
  }

  lemma ContinueUri(v: seq<byte>, text: seq<byte>, a: nat, b: nat, c: nat)
    requires Marks(v) == (a, b, c, |v|) && c < |v|
    requires text == v + [98]
    ensures FileOfText(text) != FileOfText(v)
  {
    var n := |v|;
    FileAtMarks(v, a, b, c, n);
    assert b < n;
    MarksUnique(text, a, b, c, n + 1);
    FileAtMarks(text, a, b, c, n + 1);
    assert text[c..n + 1] == v[c..n] + [98];
    assert |FileName(v[c..n])| != |FileName(text[c..n + 1])|;
  }
}
