/** The WebAssembly twin of the request parser: `sscanf(buf, "%s %s %s\n", ..)` and the file name built
    with `strcpy` and `strcat`, compared with the native one. */
module WasmRequest {
  import opened Bytes
  import opened Tokenizer
  import opened RequestLine
  import opened Os
  import opened Handler

  const BUFSIZE: nat := 128

  /** `isspace` in the C locale. */
  predicate IsWhite(b: byte) { b == SPACE || 9 <= b <= 13 }
  predicate NotWhite(b: byte) { !IsWhite(b) }
  predicate EndsWord(b: byte) { IsWhite(b) || b == NUL }

  /** What one `%s` matches from position `i`: the interval of the word, empty at the end of the text. */
  function Word(s: seq<byte>, i: nat): (w: (nat, nat))
    requires i <= |s|
    ensures i <= w.0 <= w.1 <= |s|
  {
    var a := ScanTo(s, i, NotWhite);
    (a, ScanTo(s, a, EndsWord))
  }

  /** The three words of the format, one after the other. */
  function Words(s: seq<byte>): ((nat, nat), (nat, nat), (nat, nat)) {
    var v := Word(s, 0);
    var u := Word(s, v.1);
    (v, u, Word(s, u.1))
  }

  function WasmFileName(uri: seq<byte>): seq<byte>
    requires uri != []
  {
    [DOT] + uri + (if uri[|uri| - 1] == SLASH then Ascii("index.html") else [])
  }

  /** The file name the twin derives from its buffer, when two words are there. */
  function ScannedFile(buf: seq<byte>): Option<seq<byte>> {
    var (v, u, _) := Words(buf);
    if v.0 == v.1 || u.0 == u.1 then None else Some(WasmFileName(buf[u.0..u.1]))
  }

  /** Where the scan of the format ends: behind the white space that follows the third word. */
  function ScanEnd(s: seq<byte>): (e: nat)
    ensures Words(s).2.1 <= e <= |s|
  {
    EndBehind(s, Words(s).1.1)
  }

  /** The end of the scan when the third word is looked for from position `i`. */
  function EndBehind(s: seq<byte>, i: nat): (e: nat)
    requires i <= |s|
    ensures Word(s, i).1 <= e <= |s|
  {
    var x := Word(s, i);
    if x.0 < x.1 then ScanTo(s, x.1, NotWhite) else x.1
  }

  /** The text in the buffer for the URI: the second word, or what was there before. */
  function UriText(buf: seq<byte>, stale: seq<byte>): seq<byte> {
    var (v, u, _) := Words(buf);
    if v.0 < v.1 && u.0 < u.1 then buf[u.0..u.1] else Text(stale)
  }

  /** No scan or copy leaves its buffer: the scan ends inside, and the words and the file name fit. */
  predicate StaysInside(buf: seq<byte>, stale: seq<byte>) {
    var (v, u, x) := Words(buf);
    && ScanEnd(buf) < |buf|
    && v.1 - v.0 < BUFSIZE && u.1 - u.0 < BUFSIZE && x.1 - x.0 < BUFSIZE
    && UriText(buf, stale) != []
    && |WasmFileName(UriText(buf, stale))| < BUFSIZE
  }

  method SkipWhite(buf: array<byte>, from: nat) returns (next: nat)
    requires from <= buf.Length && ScanTo(buf[..], from, NotWhite) < buf.Length
    ensures next == ScanTo(buf[..], from, NotWhite)
  {
    next := from;
    while IsWhite(buf[next])
      invariant from <= next <= ScanTo(buf[..], from, NotWhite)
      decreases buf.Length - next
    {
      next := next + 1;
    }
  }

  /** The name built from a scanned buffer, byte by byte: ".", the second word, and "index.html" behind a word
      that ends in "/". */
  lemma ScannedBytes(buf: seq<byte>)
    ensures var (v, u, _) := Words(buf);
            && (ScannedFile(buf).Some? <==> v.0 < v.1 && u.0 < u.1)
            && (ScannedFile(buf).Some? ==>
                  var (uri, name) := (buf[u.0..u.1], ScannedFile(buf).value);
                  var n := |uri| + 1;
                  && |name| == (if uri[|uri| - 1] == 47 then n + 10 else n)
                  && name[0] == 46 && name[1..n] == uri
                  && (uri[|uri| - 1] == 47 ==> name[n..] == [105, 110, 100, 101, 120, 46, 104, 116, 109, 108]))
  {
    AsciiCodes("index.html");
  }

  /** One `%s`: skip white space, copy the word to `dst`, terminate it. Without a word nothing is stored and
      the scan stops. */
  method ScanWord(buf: array<byte>, from: nat, dst: array<byte>) returns (next: nat, found: bool)
    requires buf != dst && from <= buf.Length
    requires var (a, b) := Word(buf[..], from); b < buf.Length && b - a < dst.Length
    modifies dst
    ensures var (a, b) := Word(buf[..], from);
            && next == b && (found <==> a < b)
            && (found ==> dst[..b - a] == buf[a..b] && dst[b - a] == NUL)
            && (!found ==> dst[..] == old(dst[..]))
  {
    ghost var (a, b) := Word(buf[..], from);
    var i := SkipWhite(buf, from);
    if EndsWord(buf[i]) {
      return i, false;
    }
    var n := 0;
    while !EndsWord(buf[i])
      invariant n <= b - a && i == a + n
      invariant dst[..n] == buf[a..i]
      decreases b - i
    {
      dst[n] := buf[i];
      n := n + 1;
      i := i + 1;
    }
    dst[n] := NUL;
    next, found := i, true;
  }

  /** `strcat(dst, src)` for texts of the given lengths. */
  method Strcat(dst: array<byte>, src: array<byte>, ghost first: seq<byte>, ghost second: seq<byte>)
    requires dst != src && |first| + |second| < dst.Length && |second| < src.Length
    requires dst[..|first|] == first && dst[|first|] == NUL && NUL !in first
    requires src[..|second|] == second && src[|second|] == NUL && NUL !in second
    modifies dst
    ensures dst[..|first| + |second|] == first + second && dst[|first| + |second|] == NUL
  {
    assert dst[0..0 + |first|] == first;
    assert src[0..0 + |second|] == second;
    var n := Strlen(dst, 0, |first|);
    Strcpy(dst, n, src, 0, |second|);
  }

  /** The second and third word from position `i` fit, and the scan ends inside. */
  predicate RestFits(s: seq<byte>, i: nat) {
    && i <= |s| && EndBehind(s, Word(s, i).1) < |s|
    && var (u, x) := (Word(s, i), Word(s, Word(s, i).1)); u.1 - u.0 < BUFSIZE && x.1 - x.0 < BUFSIZE
  }

  /** What a scan for one word from position `i` makes of a buffer. */
  predicate Scanned(s: seq<byte>, i: nat, before: seq<byte>, after: seq<byte>)
    requires i <= |s|
  {
    var (a, b) := Word(s, i);
    if a < b then b - a < |after| && after[..b - a] == s[a..b] && after[b - a] == NUL else after == before
  }

  /** `sscanf` with its three words, stopping at the first that is not there, and the white space behind
      them. */
  method Sscanf(buf: array<byte>, verb: array<byte>, uri: array<byte>, version: array<byte>)
    requires verb.Length == uri.Length == version.Length == BUFSIZE
    requires buf != verb && buf != uri && buf != version && verb != uri && uri != version
    requires var v := Word(buf[..], 0); v.1 < buf.Length && v.1 - v.0 < BUFSIZE && RestFits(buf[..], v.1)
    modifies verb, uri, version
    ensures var v := Word(buf[..], 0);
            if v.0 < v.1 then Scanned(buf[..], v.1, old(uri[..]), uri[..]) else uri[..] == old(uri[..])
  {
    var next, found := ScanWord(buf, 0, verb);
    if found {
      ScanUri(buf, next, uri, version);
    }
  }

  /** The second word, and what follows it. */
  method ScanUri(buf: array<byte>, from: nat, uri: array<byte>, version: array<byte>)
    requires uri.Length == version.Length == BUFSIZE
    requires buf != uri && buf != version && uri != version && from <= buf.Length
    requires RestFits(buf[..], from)
    modifies uri, version
    ensures Scanned(buf[..], from, old(uri[..]), uri[..])
  {
    var next, found := ScanWord(buf, from, uri);
    if found {
      next := ScanLast(buf, next, version);
    }
  }

  method ScanLast(buf: array<byte>, from: nat, version: array<byte>) returns (next: nat)
    requires buf != version && from <= buf.Length && EndBehind(buf[..], from) < buf.Length
    requires var (a, b) := Word(buf[..], from); b - a < version.Length
    modifies version
    ensures next == EndBehind(buf[..], from)
  {
    var found;
    next, found := ScanWord(buf, from, version);
    if found {
      next := SkipWhite(buf, next);
    }
  }

  /** The parse as the twin does it, on its buffers. Without two words the URI is what its buffer held before. */
  method ScanRequest(buf: array<byte>, verb: array<byte>, uri: array<byte>, version: array<byte>, filename: array<byte>)
    returns (length: nat)
    requires verb.Length == uri.Length == version.Length == filename.Length == BUFSIZE
    requires buf != verb && buf != uri && buf != version && buf != filename
    requires verb != uri && uri != version && uri != filename && filename != verb && filename != version
    requires StaysInside(buf[..], uri[..])
    modifies verb, uri, version, filename
    ensures length < BUFSIZE && filename[length] == NUL
    ensures filename[..length] == WasmFileName(UriText(old(buf[..]), old(uri[..])))
    ensures ScannedFile(old(buf[..])).Some? ==> ScannedFile(old(buf[..])) == Some(filename[..length])
  {
    ghost var name := UriText(buf[..], uri[..]);
    Sscanf(buf, verb, uri, version);
    UriTextIsText(buf[..], old(uri[..]));
    length := JoinName(uri, filename, name);
  }

  lemma UriTextIsText(buf: seq<byte>, stale: seq<byte>)
    ensures NUL !in UriText(buf, stale)
  {
    var (v, u, _) := Words(buf);
    assert forall k :: u.0 <= k < u.1 ==> buf[k] != NUL;
  }

  method JoinName(uri: array<byte>, filename: array<byte>, ghost name: seq<byte>) returns (length: nat)
    requires uri != filename && uri.Length == filename.Length == BUFSIZE
    requires name != [] && NUL !in name && |WasmFileName(name)| < BUFSIZE
    requires uri[..|name|] == name && uri[|name|] == NUL
    modifies filename
    ensures length < BUFSIZE && filename[length] == NUL && filename[..length] == WasmFileName(name)
  {
    var dot := Literal(".");
    Copy(filename, dot, 0, [DOT]);
    Strcat(filename, uri, [DOT], name);
    assert uri[0..0 + |name|] == name;
    var n := Strlen(uri, 0, |name|);
    length := 1 + n;
    if uri[n - 1] == SLASH {
      var index := Literal("index.html");
      assert index[..10] == Ascii("index.html");
      Strcat(filename, index, [DOT] + name, Ascii("index.html"));
      length := length + 10;
    } else {
      assert [DOT] + name + [] == [DOT] + name;
    }
  }

  // ---- Agreement ----

  /** A non-empty word of a request line. */
  predicate IsWord(w: seq<byte>) {
    w != [] && forall b :: b in w ==> !EndsWord(b)
  }

  /** `verb SP uri SP` and what follows: a version, as section 5.1 of RFC 1945 has it, or anything. */
  function RequestBytes(verb: seq<byte>, uri: seq<byte>, rest: seq<byte>): seq<byte> {
    verb + [SPACE] + uri + [SPACE] + rest
  }

  lemma NativeName(verb: seq<byte>, uri: seq<byte>, buf: seq<byte>)
    requires IsWord(verb) && IsWord(uri)
    requires var q := |verb| + 1 + |uri|;
             && q < |buf| && buf[..q] == verb + [SPACE] + uri && (buf[q] == SPACE || buf[q] == NUL)
    ensures RequestFile(buf) == Some(FileName(uri))
  {
    TokenName(verb, uri, buf);
  }

  lemma HeadLayout(verb: seq<byte>, uri: seq<byte>, buf: seq<byte>)
    requires IsWord(verb) && IsWord(uri)
    requires var q := |verb| + 1 + |uri|;
             q < |buf| && buf[..q] == verb + [SPACE] + uri
    ensures var (p, q) := (|verb|, |verb| + 1 + |uri|);
            && (forall k :: 0 <= k < p || p < k < q ==> !EndsWord(buf[k]))
            && buf[p] == SPACE && buf[p + 1..q] == uri
  {
    var (p, q) := (|verb|, |verb| + 1 + |uri|);
    var head := buf[..q];
    forall k | 0 <= k < p || p < k < q ensures !EndsWord(buf[k]) {
      assert buf[k] == head[k];
      if k < p { assert head[k] == verb[k]; } else { assert head[k] == uri[k - p - 1]; }
    }
    assert buf[p] == head[p];
    assert head[p + 1..q] == uri;
  }

  lemma TwinName(verb: seq<byte>, uri: seq<byte>, buf: seq<byte>)
    requires IsWord(verb) && IsWord(uri)
    requires var q := |verb| + 1 + |uri|; q < |buf| && buf[..q] == verb + [SPACE] + uri && IsWhite(buf[q])
    ensures ScannedFile(buf) == Some(WasmFileName(uri))
  {
    var (p, q) := (|verb|, |verb| + 1 + |uri|);
    HeadLayout(verb, uri, buf);
    WordAt(buf, 0, 0, p);
    WordAt(buf, p, p + 1, q);
  }

  lemma WordAt(s: seq<byte>, i: nat, a: nat, b: nat)
    requires i <= a < b < |s|
    requires forall k :: i <= k < a ==> IsWhite(s[k])
    requires forall k :: a <= k < b ==> !EndsWord(s[k])
    requires EndsWord(s[b])
    ensures Word(s, i) == (a, b)
  {
    assert !EndsWord(s[a]);
    assert ScanTo(s, i, NotWhite) == a;
  }

  /** On every request of which each program has read as far as the space behind the URI, the native and the
      twin's parser find the same URI, and name the same file exactly when it is "/" or does not end in "/". */
  lemma MappingsAgree(verb: seq<byte>, uri: seq<byte>, rest: seq<byte>,
                      n: nat, tail: seq<byte>, m: nat, twinTail: seq<byte>)
    requires IsWord(verb) && IsWord(uri)
    requires var request := RequestBytes(verb, uri, rest);
             && |verb| + |uri| + 2 <= n <= |request| && n <= BUFFER_SIZE && n + |tail| == BUFFER_SIZE
             && |verb| + |uri| + 2 <= m <= |request| && m <= BUFSIZE && m + |twinTail| == BUFFER_SIZE
    ensures var request := RequestBytes(verb, uri, rest);
            var native := RequestFile(Buffer(request[..n], tail));
            var twin := ScannedFile(request[..m] + twinTail);
            && native == Some(FileName(uri))
            && twin == Some(WasmFileName(uri))
            && (native == twin <==> uri == [SLASH] || uri[|uri| - 1] != SLASH)
  {
    var request := RequestBytes(verb, uri, rest);
    var buf := Buffer(request[..n], tail);
    var twinBuf := request[..m] + twinTail;
    var q := |verb| + 1 + |uri|;
    assert request[..q] == verb + [SPACE] + uri;
    assert buf[..q] == request[..q] == twinBuf[..q];
    assert request[q] == SPACE;
    NativeName(verb, uri, buf);
    TwinName(verb, uri, twinBuf);
    NamesAgree(uri);
  }

  /** A word with neither white space (codes 9 to 13 and 32) nor a NUL. */
  predicate IsPlain(w: seq<byte>) {
    w != [] && forall b :: b in w ==> b != 0 && b != 32 && !(9 <= b <= 13)
  }

  /** Only a space ends the native program's URI, any white space the twin's: behind the first other white
      space the native one goes on, as with a carriage return at the end of a line without a version. */
  lemma LineEndSeparates(verb: seq<byte>, uri: seq<byte>, end: byte, more: seq<byte>, buf: seq<byte>)
    requires IsPlain(verb) && IsPlain(uri) && 9 <= end <= 13 && SPACE !in more && NUL !in more
    requires var head := verb + [SPACE] + uri + [end] + more;
             |head| < |buf| && buf[..|head|] == head && (buf[|head|] == SPACE || buf[|head|] == NUL)
    ensures RequestFile(buf) == Some([46] + uri + [end] + more)
    ensures ScannedFile(buf).Some? && [46] + uri <= ScannedFile(buf).value
    ensures ScannedFile(buf).value == [46] + uri <==> uri[|uri| - 1] != 47
    ensures RequestFile(buf) != ScannedFile(buf)
  {
    var q := |verb| + 1 + |uri|;
    var whole := uri + [end] + more;
    var head := verb + [SPACE] + uri + [end] + more;
    assert head == verb + [SPACE] + whole;
    TokenName(verb, whole, buf);
    assert [DOT] + whole == [46] + uri + [end] + more;
    assert buf[..q] == head[..q] == verb + [SPACE] + uri;
    assert buf[q] == head[q] == end;
    TwinName(verb, uri, buf);
    EndDiffers(uri, end, more);
  }

  lemma EndDiffers(uri: seq<byte>, end: byte, more: seq<byte>)
    requires uri != [] && 9 <= end <= 13
    ensures [46] + uri + [end] + more != WasmFileName(uri)
    ensures [46] + uri <= WasmFileName(uri)
    ensures WasmFileName(uri) == [46] + uri <==> uri[|uri| - 1] != 47
  {
    var n := |uri| + 1;
    assert ([46] + uri + [end] + more)[n] == end;
    assert ([46] + uri) + [] == [46] + uri;
    AsciiCodes("index.html");
    if |WasmFileName(uri)| > n { assert WasmFileName(uri)[n] == Ascii("index.html")[0] == 105; }
  }

  lemma NamesAgree(uri: seq<byte>)
    requires uri != []
    ensures FileName(uri) == WasmFileName(uri) <==> uri == [SLASH] || uri[|uri| - 1] != SLASH
  {
    if uri == [SLASH] {
      assert WasmFileName(uri) == [DOT] + [SLASH] + Ascii("index.html");
      assert FileName(uri) == WasmFileName(uri);
    } else if uri[|uri| - 1] == SLASH {
      assert |FileName(uri)| != |WasmFileName(uri)|;
    } else {
      assert [DOT] + uri + [] == [DOT] + uri;
    }
  }

  // ---- When the parse stays inside its buffers ----

  /** The condition on the bytes received: behind two words, with or without a third, the scan ends among
      them, and the file name fits. */
  predicate ScansInside(received: seq<byte>) {
    var (_, u, _) := Words(received);
    && ScanEnd(received) < |received|
    && u.0 < u.1
    && var uri := received[u.0..u.1];
    |uri| + 1 + (if uri[|uri| - 1] == 47 then 10 else 0) <= 127
  }

  lemma {:induction false} ScanExtends(s: seq<byte>, t: seq<byte>, i: nat, stop: byte -> bool)
    requires i <= |s|
    ensures ScanTo(s, i, stop) < |s| ==> ScanTo(s + t, i, stop) == ScanTo(s, i, stop)
    ensures ScanTo(s, i, stop) == |s| ==> ScanTo(s + t, i, stop) == ScanTo(s + t, |s|, stop)
    decreases |s| - i
  {
    if i < |s| && !stop(s[i]) { ScanExtends(s, t, i + 1, stop); }
  }

  /** A word that ends inside stays the same, whatever follows; one that does not runs on to the end of
      anything made of letters. */
  lemma WordExtends(s: seq<byte>, t: seq<byte>, i: nat)
    requires i <= |s|
    ensures Word(s, i).1 < |s| ==> Word(s + t, i) == Word(s, i)
    ensures Word(s, i).1 == |s| && t != [] && (forall b :: b in t ==> !EndsWord(b)) ==> Word(s + t, i).1 == |s + t|
  {
    var a := ScanTo(s, i, NotWhite);
    ScanExtends(s, t, i, NotWhite);
    ScanExtends(s, t, a, EndsWord);
    if Word(s, i).1 == |s| && t != [] && (forall b :: b in t ==> !EndsWord(b)) {
      assert (s + t)[|s|] == t[0] && !EndsWord(t[0]);
      ToTheEnd(s, t, |s|);
      assert ScanTo(s + t, |s|, NotWhite) == |s|;
    }
  }

  lemma {:induction false} ToTheEnd(s: seq<byte>, t: seq<byte>, i: nat)
    requires |s| <= i <= |s + t| && forall b :: b in t ==> !EndsWord(b)
    ensures ScanTo(s + t, i, EndsWord) == |s + t|
    decreases |s + t| - i
  {
    if i < |s + t| {
      assert (s + t)[i] == t[i - |s|] && t[i - |s|] in t;
      ToTheEnd(s, t, i + 1);
    }
  }

  lemma EndIsEnd(s: seq<byte>)
    ensures Word(s, |s|) == (|s|, |s|)
  {
  }

  lemma WordsExtend(s: seq<byte>, t: seq<byte>)
    ensures Words(s).2.1 < |s| ==> Words(s + t) == Words(s)
    ensures Words(s).2.1 == |s| && t != [] && (forall b :: b in t ==> !EndsWord(b)) ==> Words(s + t).2.1 == |s + t|
  {
    var (v, u, x) := Words(s);
    WordExtends(s, t, 0);
    WordExtends(s, t, v.1);
    WordExtends(s, t, u.1);
    EndIsEnd(s + t);
  }

  lemma EndExtends(s: seq<byte>, t: seq<byte>)
    requires Words(s).2.1 < |s|
    ensures ScanEnd(s) < |s| ==> ScanEnd(s + t) == ScanEnd(s)
    ensures ScanEnd(s) == |s| && (forall b :: b in t ==> IsWhite(b)) ==> ScanEnd(s + t) == |s + t|
  {
    WordsExtend(s, t);
    ScanExtends(s, t, Words(s).2.1, NotWhite);
    if forall b :: b in t ==> IsWhite(b) { WhiteToTheEnd(s, t, |s|); }
  }

  lemma {:induction false} WhiteToTheEnd(s: seq<byte>, t: seq<byte>, i: nat)
    requires |s| <= i <= |s + t| && forall b :: b in t ==> IsWhite(b)
    ensures ScanTo(s + t, i, NotWhite) == |s + t|
    decreases |s + t| - i
  {
    if i < |s + t| {
      assert (s + t)[i] == t[i - |s|] && t[i - |s|] in t;
      WhiteToTheEnd(s, t, i + 1);
    }
  }

  /** `n` letters. */
  function Letters(n: nat): (r: seq<byte>)
    ensures |r| == n && forall b :: b in r ==> !EndsWord(b)
  {
    seq(n, _ => 97)
  }

  function Spaces(n: nat): (r: seq<byte>)
    ensures |r| == n && forall b :: b in r ==> IsWhite(b)
  {
    seq(n, _ => SPACE)
  }

  /** The parse stays inside its buffers, whatever they held before, exactly under the condition on the
      received bytes. */
  lemma StaysInsideIff(received: seq<byte>)
    requires |received| <= 128
    ensures (forall tail: seq<byte>, stale: seq<byte> ::
               |tail| == 1024 - |received| && |stale| == 128 ==> StaysInside(received + tail, stale))
            <==> ScansInside(received)
  {
    var n := BUFFER_SIZE - |received|;
    if ScansInside(received) {
      forall tail: seq<byte>, stale: seq<byte> | |tail| == n && |stale| == BUFSIZE
        ensures StaysInside(received + tail, stale)
      {
        InsideExtends(received, tail, stale);
      }
    } else {
      OutsideSomehow(received, n);
      assert |Letters(n)| == |Spaces(n)| == n && |Letters(BUFSIZE)| == BUFSIZE;
    }
  }

  lemma InsideExtends(received: seq<byte>, tail: seq<byte>, stale: seq<byte>)
    requires |received| <= BUFSIZE && ScansInside(received)
    ensures StaysInside(received + tail, stale)
  {
    WordsExtend(received, tail);
    EndExtends(received, tail);
    var (v, u, x) := Words(received);
    assert (received + tail)[u.0..u.1] == received[u.0..u.1];
    NoSecondWithoutFirst(received);
  }

  /** Without a first word there is no second one. */
  lemma NoSecondWithoutFirst(s: seq<byte>)
    ensures var (v, u, _) := Words(s); u.0 < u.1 ==> v.0 < v.1
  {
  }

  lemma OutsideSomehow(received: seq<byte>, n: nat)
    requires !ScansInside(received) && n > 0
    ensures || !StaysInside(received + Letters(n), Letters(BUFSIZE))
            || !StaysInside(received + Spaces(n), Letters(BUFSIZE))
  {
    if ScanEnd(received) == |received| {
      EndOutside(received, n);
    } else {
      NameOutside(received, Letters(n));
    }
  }

  lemma EndOutside(received: seq<byte>, n: nat)
    requires ScanEnd(received) == |received| && n > 0
    ensures ScanEnd(received + Letters(n)) == |received + Letters(n)|
            || ScanEnd(received + Spaces(n)) == |received + Spaces(n)|
  {
    WordsExtend(received, Letters(n));
    if Words(received).2.1 < |received| { EndExtends(received, Spaces(n)); }
  }

  lemma NameOutside(received: seq<byte>, tail: seq<byte>)
    requires ScanEnd(received) < |received| && !ScansInside(received)
    ensures !StaysInside(received + tail, Letters(BUFSIZE))
  {
    WordsExtend(received, tail);
    var u := Words(received).1;
    assert (received + tail)[u.0..u.1] == received[u.0..u.1];
    assert Text(Letters(BUFSIZE)) == Letters(BUFSIZE);
  }

  /** A request for a name of 118 characters in a directory: with "." and "index.html" it does not fit, and
      the parse leaves its buffer whatever else is there. */
  lemma LongNameDoesNotFit(tail: seq<byte>, stale: seq<byte>)
    ensures var uri := [SLASH] + Letters(116) + [SLASH];
            var received := RequestBytes([71], uri, [72, SPACE, 49]);
            |received| <= BUFSIZE && !StaysInside(received + tail, stale)
  {
    var verb: seq<byte>, uri := [71], [SLASH] + Letters(116) + [SLASH];
    var received := RequestBytes(verb, uri, [72, SPACE, 49]);
    var buf := received + tail;
    assert received[..120] == verb + [SPACE] + uri && buf[..120] == received[..120] && buf[120] == SPACE;
    HeadLayout(verb, uri, buf);
    WordAt(buf, 0, 0, 1);
    WordAt(buf, 1, 2, 120);
    assert uri[|uri| - 1] == SLASH;
  }

  // ---- Answers ----

  const TWIN_NOT_FOUND: seq<byte> := Ascii("HTTP/1.1 404 Not Found") + [NUL]
  const TWIN_OK_HEADER: seq<byte> := Ascii("HTTP/1.1 200 OK\r\n\r\n")

  /** `sys_filesize`: -1 for a file that is missing or empty. */
  function FileSize(fs: FileSystem, name: seq<byte>): int {
    if name !in fs || |fs[name]| == 0 then -1 else |fs[name]|
  }

  /** What the twin writes for a file name, its calls succeeding: this header is sent without its NUL. */
  function TwinResponse(fs: FileSystem, name: seq<byte>): seq<byte> {
    if FileSize(fs, name) < 0 then TWIN_NOT_FOUND else TWIN_OK_HEADER + fs[name]
  }

  /** What a client of the twin reads, byte by byte: "HTTP/1.1 404 Not Found" with a NUL in 23 bytes for a file
      that is missing or empty, and otherwise "HTTP/1.1 200 OK" and a blank line in 19 bytes and the file. */
  lemma TwinBytes(fs: FileSystem, name: seq<byte>)
    ensures var r := TwinResponse(fs, name);
            && (name !in fs || fs[name] == [] ==>
                  r == [72, 84, 84, 80, 47, 49, 46, 49, 32, 52, 48, 52, 32,
                        78, 111, 116, 32, 70, 111, 117, 110, 100, 0])
            && (name in fs && fs[name] != [] ==>
                  && |r| >= 19
                  && r[..19] == [72, 84, 84, 80, 47, 49, 46, 49, 32, 50, 48, 48, 32, 79, 75, 13, 10, 13, 10]
                  && r[19..] == fs[name])
  {
    TwinLiterals();
  }

  lemma TwinLiterals()
    ensures TWIN_NOT_FOUND == [72, 84, 84, 80, 47, 49, 46, 49, 32, 52, 48, 52, 32,
                               78, 111, 116, 32, 70, 111, 117, 110, 100, 0]
    ensures TWIN_OK_HEADER == [72, 84, 84, 80, 47, 49, 46, 49, 32, 50, 48, 48, 32, 79, 75, 13, 10, 13, 10]
  {
    AsciiCodes("HTTP/1.1 404 Not Found");
    AsciiCodes("HTTP/1.1 200 OK\r\n\r\n");
  }

  /** When all calls succeed the two answers to the same file agree on the status exactly when the file is
      missing or not empty; they then carry the same file, the native one with a NUL behind the header. */
  lemma AnswersCompared(fs: FileSystem, incoming: seq<byte>, t: Transcript, name: seq<byte>)
    requires GotRequest(incoming, t) && RequestFile(RequestBuffer(incoming, t)) == Some(name)
    requires t.found == (name in fs) && t.statOk && (t.found ==> t.got == |fs[name]|)
    ensures var native := Response(fs, incoming, t);
            var twin := TwinResponse(fs, name);
            var h := |TWIN_OK_HEADER|;
            && ((TWIN_OK_HEADER <= native <==> TWIN_OK_HEADER <= twin) <==> (name in fs ==> fs[name] != []))
            && (name in fs && fs[name] != [] ==> native == twin[..h] + [NUL] + twin[h..])
            && (name !in fs ==> native == NOT_FOUND && twin == TWIN_NOT_FOUND)
            && (name in fs && fs[name] == [] ==> native == OK_HEADER && twin == TWIN_NOT_FOUND)
  {
    assert NOT_FOUND[7] != TWIN_OK_HEADER[7] && TWIN_NOT_FOUND[9] != TWIN_OK_HEADER[9];
    if name in fs {
      assert OK_HEADER == TWIN_OK_HEADER + [NUL];
      assert TWIN_OK_HEADER <= OK_HEADER + fs[name];
      if fs[name] == [] { assert OK_HEADER + fs[name] == OK_HEADER; }
    }
  }
}
