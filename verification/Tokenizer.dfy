/** `strtok_r(s, " ", &n)` on a buffer, and the pure tokens it finds. */
module Tokenizer {
  import opened Bytes

  predicate IsSpace(b: byte) { b == SPACE }
  predicate NonSpace(b: byte) { b != SPACE }
  predicate IsNul(b: byte) { b == NUL }

  /** The first position from `i` on where `stop` holds, or the end of `s`. */
  function ScanTo(s: seq<byte>, i: nat, stop: byte -> bool): (j: nat)
    requires i <= |s|
    ensures i <= j <= |s|
    ensures forall k :: i <= k < j ==> !stop(s[k])
    ensures j < |s| ==> stop(s[j])
    decreases |s| - i
  {
    if i == |s| || stop(s[i]) then i else ScanTo(s, i + 1, stop)
  }

  /** The contents of a buffer read as C text: everything before the first NUL. */
  function Text(buf: seq<byte>): (s: seq<byte>)
    ensures s <= buf
    ensures NUL !in s
    ensures |s| < |buf| ==> buf[|s|] == NUL
    ensures NUL in buf <==> |s| < |buf|
  {
    buf[..ScanTo(buf, 0, IsNul)]
  }

  /** The space-separated runs of `s` from `i` on, as half-open intervals. */
  function Runs(s: seq<byte>, i: nat): (r: seq<(nat, nat)>)
    requires i <= |s|
    ensures forall k :: 0 <= k < |r| ==> i <= r[k].0 < r[k].1 <= |s|
    decreases |s| - i
  {
    var a := ScanTo(s, i, NonSpace);
    if a == |s| then [] else
    var b := ScanTo(s, a, IsSpace);
    [(a, b)] + Runs(s, b)
  }

  /** A maximal non-empty stretch of `s` without a space. */
  predicate IsRun(s: seq<byte>, a: nat, b: nat) {
    && a < b <= |s|
    && SPACE !in s[a..b]
    && (a == 0 || s[a - 1] == SPACE)
    && (b == |s| || s[b] == SPACE)
  }

  lemma RunEnd(s: seq<byte>, a: nat, b: nat)
    requires IsRun(s, a, b)
    ensures s[a] != SPACE && b == ScanTo(s, a, IsSpace)
  {
    forall k | a <= k < b ensures s[k] != SPACE {
      assert s[k] == s[a..b][k - a];
    }
  }

  /** `Runs` lists only maximal space-free runs, in order, each once. */
  lemma {:induction false} RunsAreRuns(s: seq<byte>, i: nat)
    requires i <= |s|
    requires i == 0 || i == |s| || s[i] == SPACE
    ensures forall k :: 0 <= k < |Runs(s, i)| ==> IsRun(s, Runs(s, i)[k].0, Runs(s, i)[k].1)
    ensures forall k, l :: 0 <= k < l < |Runs(s, i)| ==> Runs(s, i)[k].1 <= Runs(s, i)[l].0
    decreases |s| - i
  {
    var a := ScanTo(s, i, NonSpace);
    if a < |s| {
      var b := ScanTo(s, a, IsSpace);
      RunsAreRuns(s, b);
      assert IsRun(s, a, b);
    }
  }

  /** `Runs` misses no maximal space-free run. */
  lemma {:induction false} RunsAreAll(s: seq<byte>, i: nat, x: nat, y: nat)
    requires i <= x && IsRun(s, x, y)
    ensures (x, y) in Runs(s, i)
    decreases |s| - i
  {
    RunEnd(s, x, y);
    var a := ScanTo(s, i, NonSpace);
    var b := ScanTo(s, a, IsSpace);
    assert Runs(s, i) == [(a, b)] + Runs(s, b);
    if b <= x {
      RunsAreAll(s, b, x, y);
    } else {
      assert x == a;
    }
  }

  /** The tokens are exactly the maximal space-free runs. */
  lemma RunsAreMaximal(s: seq<byte>, x: nat, y: nat)
    ensures (x, y) in Runs(s, 0) <==> IsRun(s, x, y)
  {
    RunsAreRuns(s, 0);
    if IsRun(s, x, y) { RunsAreAll(s, 0, x, y); }
  }

  /** The four positions where the first two runs begin and end. */
  function Marks(s: seq<byte>): (nat, nat, nat, nat) {
    var a := ScanTo(s, 0, NonSpace);
    var b := ScanTo(s, a, IsSpace);
    var c := ScanTo(s, b, NonSpace);
    var d := ScanTo(s, c, IsSpace);
    (a, b, c, d)
  }

  lemma FirstTwoRuns(s: seq<byte>)
    ensures var (a, b, c, d) := Marks(s);
            && (|Runs(s, 0)| == 0 <==> a == |s|)
            && (|Runs(s, 0)| == 1 <==> a < |s| && c == |s|)
            && (|Runs(s, 0)| >= 1 ==> Runs(s, 0)[0] == (a, b))
            && (|Runs(s, 0)| >= 2 ==> Runs(s, 0)[1] == (c, d))
  {
    var (a, b, c, d) := Marks(s);
    if a < |s| {
      assert Runs(s, 0) == [(a, b)] + Runs(s, b);
      if c < |s| {
        assert Runs(s, b) == [(c, d)] + Runs(s, d);
      }
    }
  }

  /** The only positions with the scanning property are the scanned ones. */
  lemma MarksUnique(s: seq<byte>, a: nat, b: nat, c: nat, d: nat)
    requires a <= b <= c <= d <= |s|
    requires forall k :: 0 <= k < a ==> s[k] == SPACE
    requires forall k :: a <= k < b ==> s[k] != SPACE
    requires forall k :: b <= k < c ==> s[k] == SPACE
    requires forall k :: c <= k < d ==> s[k] != SPACE
    requires a < |s| ==> s[a] != SPACE
    requires b < |s| ==> s[b] == SPACE
    requires c < |s| ==> s[c] != SPACE
    requires d < |s| ==> s[d] == SPACE
    ensures Marks(s) == (a, b, c, d)
  {
    var (w, x, y, z) := Marks(s);
    assert w == a;
    assert x == b;
    assert y == c;
  }

  /** One call of `strtok_r`: `from` is where it starts, `end` the position of the terminator.
      Returns the token's position (-1 for a null pointer) and the saved position. */
  method Strtok(buf: array<byte>, from: nat, ghost end: nat) returns (token: int, saved: nat)
    requires from <= end < buf.Length
    requires buf[end] == NUL && NUL !in buf[from..end]
    modifies buf
    ensures from <= saved <= end
    ensures forall k :: 0 <= k < buf.Length && !(from <= k < end) ==> buf[k] == old(buf[k])
    ensures var text := old(buf[..end]);
            var a := ScanTo(text, from, NonSpace);
            if a == end then
              token == -1 && buf[..] == old(buf[..]) && saved == end
            else
              var b := ScanTo(text, a, IsSpace);
              && token == a
              && saved == (if b == end then end else b + 1)
              && buf[..] == old(buf[..])[b := NUL]
  {
    ghost var before := buf[..];
    ghost var text := buf[..end];
    assert forall k :: from <= k < end ==> text[k] == buf[from..end][k - from];
    var i := from;
    while buf[i] == SPACE
      invariant from <= i <= end < buf.Length && buf[end] == NUL
      invariant forall k :: from <= k < i ==> text[k] == SPACE
      invariant buf[..] == before
      decreases end - i
    {
      i := i + 1;
    }
    assert i == ScanTo(text, from, NonSpace);
    if buf[i] == NUL {
      return -1, i;
    }
    token := i;
    while buf[i] != SPACE && buf[i] != NUL
      invariant token <= i <= end && buf[end] == NUL
      invariant forall k :: token <= k < i ==> text[k] != SPACE
      invariant buf[..] == before
      decreases end - i
    {
      i := i + 1;
    }
    assert i == ScanTo(text, token, IsSpace);
    if buf[i] == NUL {
      assert before[i := NUL] == before;
      saved := i;
    } else {
      buf[i] := NUL;
      saved := i + 1;
    }
  }

  /** `strlen(s + from)`, where the text at `from` has length `len`. */
  method Strlen(s: array<byte>, from: nat, ghost len: nat) returns (n: nat)
    requires from + len < s.Length && s[from + len] == NUL && NUL !in s[from..from + len]
    ensures n == len
  {
    assert forall k :: from <= k < from + len ==> s[k] == s[from..from + len][k - from] != NUL;
    n := 0;
    while s[from + n] != NUL
      invariant n <= len
      decreases len - n
    {
      n := n + 1;
    }
  }

  /** `strcpy(dst + at, src + from)`, where the text at `from` has length `len`. */
  method Strcpy(dst: array<byte>, at: nat, src: array<byte>, from: nat, ghost len: nat)
    requires dst != src
    requires from + len < src.Length && src[from + len] == NUL && NUL !in src[from..from + len]
    requires at + len < dst.Length
    modifies dst
    ensures dst[..] == old(dst[..at]) + src[from..from + len] + [NUL] + old(dst[at + len + 1..])
  {
    ghost var before := dst[..];
    ghost var copied := src[from..from + len];
    var i := 0;
    while src[from + i] != NUL
      invariant 0 <= i <= len
      invariant src[from + i] == NUL ==> i == len
      invariant dst[..] == before[..at] + copied[..i] + before[at + i..]
      decreases len - i
    {
      assert copied[i] == src[from + i];
      dst[at + i] := src[from + i];
      i := i + 1;
      assert src[from + i] == NUL ==> i == len by {
        if i < len { assert copied[i] == src[from + i]; }
      }
    }
    assert copied[..len] == copied;
    dst[at + i] := NUL;
  }
}
