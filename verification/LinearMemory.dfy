/** A growable linear memory in two physical layouts, and the map from addresses to bytes it stands for. */
module LinearMemory {
  import opened Bytes

  const PAGE_SIZE: nat := 65536

  /** Unsigned 32-bit addition and the size of a number of pages in bytes, both wrapping. */
  function Add32(a: uint32, b: uint32): uint32 {
    (a + b) % TWO_TO_THE_32
  }

  function ByteSize(pages: uint32): uint32 {
    pages * PAGE_SIZE % TWO_TO_THE_32
  }

  // ---- What the memory stands for ----

  /** The page counts and the bytes by address. */
  datatype Model = Model(pages: uint32, maxPages: uint32, bytes: seq<byte>)

  function Allocated(initialPages: uint32, maxPages: uint32): Model {
    Model(initialPages, maxPages, Zeros(ByteSize(initialPages)))
  }

  /** The branch a grow takes: refuse with 0, refuse with 2^32-1, or succeed. */
  datatype Outcome = WrapsToZero | Refused | Grown

  function GrowOutcome(pages: uint32, maxPages: uint32, delta: uint32, canAllocate: bool): Outcome {
    var newPages := Add32(pages, delta);
    if newPages == 0 then WrapsToZero
    else if newPages < pages || newPages > maxPages then Refused
    else if !canAllocate then Refused
    else Grown
  }

  function GrowResult(pages: uint32, maxPages: uint32, delta: uint32, canAllocate: bool): uint32 {
    match GrowOutcome(pages, maxPages, delta, canAllocate)
    case WrapsToZero => 0
    case Refused => TWO_TO_THE_32 - 1
    case Grown => pages
  }

  /** The byte sizes of `pages` and of `delta` more add up to that of the sum without wrapping. */
  predicate GrowFits(pages: uint32, delta: uint32) {
    pages % 65536 + delta % 65536 <= 65535
  }

  function AfterGrow(m: Model, delta: uint32, canAllocate: bool): Model {
    if GrowOutcome(m.pages, m.maxPages, delta, canAllocate).Grown? then
      m.(pages := Add32(m.pages, delta), bytes := m.bytes + Zeros(ByteSize(delta)))
    else m
  }

  /** The four bytes at `addr`, lowest first. */
  function Load32(bytes: seq<byte>, addr: nat): uint32
    requires addr + 4 <= |bytes|
  {
    Decode(bytes[addr..addr + 4])
  }

  function Store32(bytes: seq<byte>, addr: nat, value: uint32): (r: seq<byte>)
    requires addr + 4 <= |bytes|
    ensures |r| == |bytes|
  {
    bytes[..addr] + Encode(value) + bytes[addr + 4..]
  }

  /** The address that a host access at position `addr` of a memory of `size` bytes reaches. */
  function HostAt(bigEndian: bool, size: nat, addr: nat): (at: nat)
    requires addr + 4 <= size
    ensures at + 4 <= size
  {
    if bigEndian then size - 4 - addr else addr
  }

  /** What `read_u32` finds and `write_u32` leaves. */
  function HostRead(bigEndian: bool, bytes: seq<byte>, addr: nat): uint32
    requires addr + 4 <= |bytes|
  {
    Load32(bytes, HostAt(bigEndian, |bytes|, addr))
  }

  function HostWrite(bigEndian: bool, bytes: seq<byte>, addr: nat, value: uint32): (r: seq<byte>)
    requires addr + 4 <= |bytes|
    ensures |r| == |bytes|
  {
    Store32(bytes, HostAt(bigEndian, |bytes|, addr), value)
  }

  function Reverse(s: seq<byte>): (r: seq<byte>)
    ensures |r| == |s| && forall i :: 0 <= i < |s| ==> r[i] == s[|s| - 1 - i]
  {
    seq(|s|, i requires 0 <= i < |s| => s[|s| - 1 - i])
  }

  // ---- The program ----

  /** `wasm_rt_memory_t` on a host of either byte order. On a big-endian host the byte of address `a` is kept
      at position `size - 1 - a`. */
  class Memory {
    const bigEndian: bool
    var data: array<byte>
    var pages: uint32
    var maxPages: uint32
    var size: uint32

    ghost predicate Valid()
      reads this
    {
      data.Length == size == ByteSize(pages)
    }

    ghost function Logical(): (bytes: seq<byte>)
      reads this, data
      ensures |bytes| == data.Length
    {
      if bigEndian then Reverse(data[..]) else data[..]
    }

    ghost function Abstract(): Model
      reads this, data
    {
      Model(pages, maxPages, Logical())
    }

    /** `wasm_rt_allocate_memory` without the reservation of address space. */
    constructor (bigEndian: bool, initialPages: uint32, maxPages: uint32)
      ensures Valid() && fresh(data) && this.bigEndian == bigEndian
      ensures Abstract() == Allocated(initialPages, maxPages)
      ensures pages == initialPages && this.maxPages == maxPages
      ensures data.Length == initialPages % 65536 * 65536
      ensures Logical() == Zeros(data.Length)
    {
      this.bigEndian := bigEndian;
      var byteLength := ByteSize(initialPages);
      data := new byte[byteLength](_ => 0);
      size := byteLength;
      pages := initialPages;
      this.maxPages := maxPages;
      ByteSizeWraps(initialPages);
      new;
      assert data[..] == Zeros(data.Length);
      ReverseZeros(data.Length);
    }

    /** `wasm_rt_grow_memory` with its `realloc`, and `memset`, or `memmove` and `memset`. A grow that
        succeeds must stay inside what it allocated. */
    method Grow(delta: uint32, canAllocate: bool) returns (result: uint32)
      requires Valid()
      requires GrowOutcome(pages, maxPages, delta, canAllocate).Grown? ==> GrowFits(pages, delta)
      modifies this
      ensures Valid()
      ensures result == GrowResult(old(pages), old(maxPages), delta, canAllocate)
      ensures Abstract() == AfterGrow(old(Abstract()), delta, canAllocate)
      ensures maxPages == old(maxPages)
      ensures 0 < old(pages) + delta <= maxPages && canAllocate ==>
                && result == old(pages) && pages == old(pages) + delta
                && old(Logical()) <= Logical()
                && |Logical()| == |old(Logical())| + delta % 65536 * 65536
                && forall k :: |old(Logical())| <= k < |Logical()| ==> Logical()[k] == 0
      ensures !(0 < old(pages) + delta <= maxPages && canAllocate) ==>
                && result == (if old(pages) + delta in {0, 0x1_0000_0000} then 0 else 0xffff_ffff)
                && pages == old(pages) && Logical() == old(Logical())
      ensures GrowOutcome(old(pages), old(maxPages), delta, canAllocate).Grown? ==> fresh(data)
      ensures !GrowOutcome(old(pages), old(maxPages), delta, canAllocate).Grown? ==> data == old(data)
    {
      var oldPages := pages;
      var newPages := Add32(pages, delta);
      if newPages == 0 {
        return 0;
      }
      if newPages < oldPages || newPages > maxPages {
        return TWO_TO_THE_32 - 1;
      }
      if !canAllocate {
        return TWO_TO_THE_32 - 1;
      }
      GrowStaysInside(oldPages, maxPages, delta);
      ByteSizeWraps(delta);
      Extend(delta, newPages);
      result := oldPages;
    }

    /** The part of a grow that reallocates, moves and clears. */
    method Extend(delta: uint32, newPages: uint32)
      requires Valid() && newPages == pages + delta
      requires ByteSize(newPages) == ByteSize(pages) + ByteSize(delta)
      modifies this
      ensures Valid() && fresh(data) && pages == newPages && maxPages == old(maxPages)
      ensures Logical() == old(Logical()) + Zeros(ByteSize(delta))
    {
      var oldSize := ByteSize(pages);
      var newSize := ByteSize(newPages);
      var deltaSize := ByteSize(delta);
      var newData := Realloc(data, newSize);
      LayOut(newData, oldSize, deltaSize, data[..]);
      if bigEndian { ReverseAppend(Zeros(deltaSize), data[..]); ReverseZeros(deltaSize); }
      pages := newPages;
      size := newSize;
      data := newData;
    }

    /** Make room for `deltaSize` zero bytes: behind the old ones, or in front of them. */
    method LayOut(newData: array<byte>, oldSize: nat, deltaSize: nat, ghost before: seq<byte>)
      requires newData.Length == oldSize + deltaSize && newData[..oldSize] == before
      modifies newData
      ensures newData[..] == if bigEndian then Zeros(deltaSize) + before else before + Zeros(deltaSize)
    {
      if !bigEndian {
        Memset(newData, oldSize, deltaSize);
      } else {
        assert newData[0..0 + oldSize] == before;
        Memmove(newData, newData.Length - oldSize, 0, oldSize);
        Memset(newData, 0, deltaSize);
      }
    }

    /** Memory of another size whose first bytes are those of `a`; the rest holds anything. */
    static method Realloc(a: array<byte>, n: nat) returns (b: array<byte>)
      requires a.Length <= n
      ensures fresh(b) && b.Length == n && b[..a.Length] == a[..]
    {
      b := new byte[n];
      for i := 0 to a.Length
        invariant b[..i] == a[..i]
      {
        b[i] := a[i];
      }
    }

    /** `memset(a + at, 0, n)` */
    static method Memset(a: array<byte>, at: nat, n: nat)
      requires at + n <= a.Length
      modifies a
      ensures a[..] == old(a[..at]) + Zeros(n) + old(a[at + n..])
    {
      for i := 0 to n
        invariant forall k :: 0 <= k < at || at + i <= k < a.Length ==> a[k] == old(a[k])
        invariant forall k :: at <= k < at + i ==> a[k] == 0
      {
        a[at + i] := 0;
      }
    }

    /** `memmove(a + to, a + from, n)`: from the end backwards when moving up, so that no byte is overwritten
        before it was copied. */
    static method Memmove(a: array<byte>, to: nat, from: nat, n: nat)
      requires to + n <= a.Length && from + n <= a.Length
      modifies a
      ensures a[..] == old(a[..to]) + old(a[from..from + n]) + old(a[to + n..])
    {
      if to > from {
        MoveUp(a, to, from, n);
      } else {
        MoveDown(a, to, from, n);
      }
      assert a[..] == a[..to] + a[to..to + n] + a[to + n..];
    }

    static method MoveUp(a: array<byte>, to: nat, from: nat, n: nat)
      requires from < to && to + n <= a.Length
      modifies a
      ensures a[..to] == old(a[..to]) && a[to..to + n] == old(a[from..from + n]) && a[to + n..] == old(a[to + n..])
    {
      ghost var before := a[..];
      ghost var source := a[from..from + n];
      var i := n;
      while i > 0
        invariant 0 <= i <= n
        invariant a[..to + i] == before[..to + i]
        invariant a[to + i..to + n] == source[i..]
        invariant a[to + n..] == before[to + n..]
      {
        i := i - 1;
        assert a[from + i] == a[..to + i + 1][from + i];
        a[to + i] := a[from + i];
      }
      assert a[..to] == a[..to + 0];
    }

    static method MoveDown(a: array<byte>, to: nat, from: nat, n: nat)
      requires to <= from && from + n <= a.Length
      modifies a
      ensures a[..to] == old(a[..to]) && a[to..to + n] == old(a[from..from + n]) && a[to + n..] == old(a[to + n..])
    {
      ghost var before := a[..];
      ghost var source := a[from..from + n];
      for i := 0 to n
        invariant a[..to] == before[..to]
        invariant a[to..to + i] == source[..i]
        invariant a[to + i..] == before[to + i..]
      {
        assert a[from + i] == a[to + i..][from - to];
        a[to + i] := a[from + i];
      }
    }

    /** A word at position `at` of the data, in the host's byte order. */
    method HostStore(at: nat, value: uint32)
      requires at + 4 <= data.Length
      modifies data
      ensures Logical() == HostWrite(bigEndian, old(Logical()), at, value)
    {
      ghost var before := data[..];
      var word := if bigEndian then Reverse(Encode(value)) else Encode(value);
      PutWord(data, at, word);
      if bigEndian {
        ReverseSplice(before, at, word);
        assert Reverse(word) == Encode(value);
      }
    }

    static method PutWord(a: array<byte>, at: nat, word: seq<byte>)
      requires at + 4 <= a.Length && |word| == 4
      modifies a
      ensures a[..] == old(a[..at]) + word + old(a[at + 4..])
    {
      a[at], a[at + 1], a[at + 2], a[at + 3] := word[0], word[1], word[2], word[3];
    }

    /** The store the generated module makes: four bytes, in the host's order, at the position the layout
        gives the address. A store outside the memory traps. */
    method Store(addr: nat, value: uint32) returns (trap: bool)
      requires Valid()
      modifies data
      ensures trap == (addr + 4 > |old(Logical())|)
      ensures Logical() == if trap then old(Logical()) else Store32(old(Logical()), addr, value)
      ensures !trap ==> HoldsWord(Logical(), addr, value)
      ensures !trap ==>
                && Logical()[..addr] == old(Logical())[..addr]
                && Logical()[addr + 4..] == old(Logical())[addr + 4..]
    {
      if addr + 4 > size {
        return true;
      }
      var at := if bigEndian then size - addr - 4 else addr;
      HostStore(at, value);
      StoredWord(old(Logical()), addr, value);
      trap := false;
    }

    method Load(addr: nat) returns (trap: bool, value: uint32)
      requires Valid()
      ensures trap == (addr + 4 > |Logical()|)
      ensures !trap ==> value == Load32(Logical(), addr) && HoldsWord(Logical(), addr, value)
    {
      if addr + 4 > size {
        return true, 0;
      }
      var at := if bigEndian then size - addr - 4 else addr;
      var word := data[at..at + 4];
      if bigEndian { ReverseSlice(data[..], at); }
      value := Decode(if bigEndian then Reverse(word) else word);
      trap := false;
    }

    /** `write_u32`: a host store at position `addr` of the data, whatever the layout. Callers pass an
        address inside the memory. */
    method WriteU32(addr: uint32, value: uint32)
      requires Valid() && addr + 4 <= size
      modifies data
      ensures Logical() == HostWrite(bigEndian, old(Logical()), addr, value)
      ensures HoldsWord(if bigEndian then Reverse(data[addr..addr + 4]) else data[addr..addr + 4], 0, value)
    {
      HostStore(addr, value);
      StoredWord(old(Logical()), HostAt(bigEndian, data.Length, addr), value);
      if bigEndian { ReverseSlice(data[..], addr); }
    }

    /** `read_u32` */
    method ReadU32(addr: uint32) returns (value: uint32)
      requires Valid() && addr + 4 <= size
      ensures value == HostRead(bigEndian, Logical(), addr)
      ensures HoldsWord(if bigEndian then Reverse(data[addr..addr + 4]) else data[addr..addr + 4], 0, value)
    {
      var word := data[addr..addr + 4];
      if bigEndian { ReverseSlice(data[..], addr); }
      value := Decode(if bigEndian then Reverse(word) else word);
    }
  }

  lemma StoredWord(bytes: seq<byte>, addr: nat, value: uint32)
    requires addr + 4 <= |bytes|
    ensures var after := Store32(bytes, addr, value);
            && HoldsWord(after, addr, value)
            && after[..addr] == bytes[..addr] && after[addr + 4..] == bytes[addr + 4..]
  {
    var after := Store32(bytes, addr, value);
    WordValue(value);
    assert after[addr] == Encode(value)[0] && after[addr + 1] == Encode(value)[1];
    assert after[addr + 2] == Encode(value)[2] && after[addr + 3] == Encode(value)[3];
  }

  lemma ReverseSplice(s: seq<byte>, at: nat, word: seq<byte>)
    requires at + 4 <= |s| && |word| == 4
    ensures var there := |s| - 4 - at;
            Reverse(s[..at] + word + s[at + 4..]) == Reverse(s)[..there] + Reverse(word) + Reverse(s)[there + 4..]
  {
  }

  /** Four bytes reversed are four bytes of the reversed memory, at the mirrored address. */
  lemma ReverseSlice(s: seq<byte>, at: nat)
    requires at + 4 <= |s|
    ensures Reverse(s)[|s| - 4 - at..|s| - at] == Reverse(s[at..at + 4])
  {
  }

  lemma ReverseZeros(n: nat)
    ensures Reverse(Zeros(n)) == Zeros(n)
  {
  }

  lemma ReverseAppend(s: seq<byte>, t: seq<byte>)
    ensures Reverse(s + t) == Reverse(t) + Reverse(s)
  {
  }

  // ---- Arithmetic of a grow ----

  /** The result in terms of the true sum: the old page count when the sum is not 0, within the maximum, and
      can be allocated; 0 when the wrapped sum is 0; and 2^32-1 otherwise. */
  lemma GrowResultExact(pages: uint32, maxPages: uint32, delta: uint32, canAllocate: bool)
    ensures var r := GrowResult(pages, maxPages, delta, canAllocate);
            var outcome := GrowOutcome(pages, maxPages, delta, canAllocate);
            && (outcome.Grown? <==> 0 < pages + delta <= maxPages && canAllocate)
            && (outcome.WrapsToZero? <==> pages + delta == 0 || pages + delta == 0x1_0000_0000)
            && (0 < pages + delta <= maxPages ==> r == if canAllocate then pages else 0xffff_ffff)
            && (pages + delta == 0 || pages + delta == 0x1_0000_0000 ==> r == 0)
            && (maxPages < pages + delta && pages + delta != 0x1_0000_0000 ==> r == 0xffff_ffff)
            && (r == 0 <==> pages + delta == 0x1_0000_0000
                            || (pages == 0 && (delta == 0 || (delta <= maxPages && canAllocate))))
  {
  }

  /** `wasm_rt_grow_memory` as documented: the previous page count, or 2^32-1 beyond the maximum. */
  function DocumentedResult(pages: uint32, maxPages: uint32, delta: uint32): uint32 {
    if pages + delta > maxPages then TWO_TO_THE_32 - 1 else pages
  }

  /** The code does what is documented unless the new page count is exactly 2^32: then it returns 0. */
  lemma DocumentedIffNotWrappingToZero(pages: uint32, maxPages: uint32, delta: uint32)
    ensures GrowResult(pages, maxPages, delta, true) == DocumentedResult(pages, maxPages, delta)
            <==> pages + delta != TWO_TO_THE_32
  {
  }

  /** One page less than the wrap is enough to see the difference. */
  lemma WrapReturnsZero()
    ensures GrowResult(1, 2, TWO_TO_THE_32 - 1, true) == 0
    ensures DocumentedResult(1, 2, TWO_TO_THE_32 - 1) == TWO_TO_THE_32 - 1
  {
  }

  /** The recorded size is the true size up to 65535 pages and no further. */
  lemma SizeExact(pages: uint32)
    ensures ByteSize(pages) == pages * PAGE_SIZE <==> pages <= 65535
  {
    ByteSizeWraps(pages);
  }

  /** A grow that succeeds stays inside the reallocated data exactly when the byte sizes add up without
      wrapping; then it fills it to the end. */
  lemma GrowStaysInside(pages: uint32, maxPages: uint32, delta: uint32)
    requires GrowOutcome(pages, maxPages, delta, true).Grown?
    ensures Add32(pages, delta) == pages + delta
    ensures ByteSize(pages) + ByteSize(delta) <= ByteSize(pages + delta) <==> GrowFits(pages, delta)
    ensures GrowFits(pages, delta) ==> ByteSize(pages) + ByteSize(delta) == ByteSize(pages + delta)
  {
    ByteSizeWraps(pages);
    ByteSizeWraps(delta);
    ByteSizeWraps(pages + delta);
    RemainderOfSum(pages, delta);
  }

  lemma RemainderOfSum(a: nat, b: nat)
    ensures var r := a % 65536 + b % 65536; (a + b) % 65536 == if r <= 65535 then r else r - 65536
  {
    var (q, r) := (a / 65536 + b / 65536, a % 65536 + b % 65536);
    assert a + b == 65536 * q + r;
  }

  /** From 65535 pages to 65536: the grow succeeds, and its sizes do not add up. */
  lemma LastPageDoesNotFit()
    ensures GrowOutcome(65535, 65536, 1, true).Grown?
    ensures ByteSize(65535) + ByteSize(1) > ByteSize(65536) == 0
  {
    ByteSizeWraps(65535);
    ByteSizeWraps(1);
    ByteSizeWraps(65536);
  }

  lemma ByteSizeWraps(pages: uint32)
    ensures ByteSize(pages) == pages % 65536 * PAGE_SIZE
  {
    var (q, r) := (pages / 65536, pages % 65536);
    assert pages * PAGE_SIZE == q * TWO_TO_THE_32 + r * PAGE_SIZE;
  }

  // ---- Reading what was written ----

  /** A load after a store, byte by byte: the stored word where the two overlap, the old bytes elsewhere. */
  lemma ReadOverWrite(bytes: seq<byte>, w: nat, value: uint32, r: nat)
    requires w + 4 <= |bytes| && r + 4 <= |bytes|
    ensures var got := Encode(Load32(Store32(bytes, w, value), r));
            forall k :: 0 <= k < 4 ==> got[k] == if w <= r + k < w + 4 then Encode(value)[r + k - w] else bytes[r + k]
    ensures r == w ==> Load32(Store32(bytes, w, value), r) == value
    ensures r + 4 <= w || w + 4 <= r ==> Load32(Store32(bytes, w, value), r) == Load32(bytes, r)
  {
    var after := Store32(bytes, w, value);
    EncodeDecode(after[r..r + 4]);
    DecodeEncode(value);
    if r == w {
      assert after[r..r + 4] == Encode(value);
    }
    if r + 4 <= w || w + 4 <= r {
      assert after[r..r + 4] == bytes[r..r + 4];
    }
  }

  /** A grow, moving the data or not, changes no load of the module; and a store and a grow can be exchanged. */
  lemma LoadsSurviveGrow(m: Model, delta: uint32, canAllocate: bool, w: nat, value: uint32, r: nat)
    requires w + 4 <= |m.bytes| && r + 4 <= |m.bytes|
    ensures var grown := AfterGrow(m, delta, canAllocate).bytes;
            && |m.bytes| <= |grown|
            && Load32(grown, r) == Load32(m.bytes, r)
            && AfterGrow(m.(bytes := Store32(m.bytes, w, value)), delta, canAllocate).bytes == Store32(grown, w, value)
  {
    var grown := AfterGrow(m, delta, canAllocate).bytes;
    assert grown[r..r + 4] == m.bytes[r..r + 4];
    if GrowOutcome(m.pages, m.maxPages, delta, canAllocate).Grown? {
      var zeros := Zeros(ByteSize(delta));
      assert Store32(m.bytes, w, value) + zeros == Store32(m.bytes + zeros, w, value);
    }
  }

  // ---- Host accesses ----

  /** Only the byte of address `addr` is set: the module's load sees it, a host read on a big-endian host
      does not see it there. */
  lemma HostMisses(size: nat, addr: nat)
    requires addr + 4 <= size && 2 * addr + 4 != size
    ensures var bytes := Zeros(size)[addr := 1];
            Load32(bytes, addr) == 1 && HostRead(true, bytes, addr) != 1
  {
    var bytes := Zeros(size)[addr := 1];
    var at := HostAt(true, size, addr);
    assert bytes[addr..addr + 4] == [1, 0, 0, 0];
    assert bytes[at..at + 4][0] == 0;
    EncodeDecode(bytes[at..at + 4]);
    DecodeEncode(1);
    assert Encode(1) == [1, 0, 0, 0];
  }

  /** For a given size and position, a host read agrees with the module's load of that address for all
      contents exactly on a little-endian host or in the middle of the memory. */
  lemma HostReadAgreesIff(bigEndian: bool, size: nat, addr: nat)
    requires addr + 4 <= size
    ensures (forall bytes: seq<byte> :: |bytes| == size ==> HostRead(bigEndian, bytes, addr) == Load32(bytes, addr))
            <==> !bigEndian || 2 * addr + 4 == size
  {
    if bigEndian && 2 * addr + 4 != size {
      HostMisses(size, addr);
      var bytes := Zeros(size)[addr := 1];
      assert |bytes| == size && HostRead(bigEndian, bytes, addr) != Load32(bytes, addr);
    }
  }

  /** A host read finds what a host write stored, while the size stays the same. */
  lemma HostReadOverWrite(bigEndian: bool, bytes: seq<byte>, addr: nat, value: uint32)
    requires addr + 4 <= |bytes|
    ensures HostRead(bigEndian, HostWrite(bigEndian, bytes, addr, value), addr) == value
  {
    var at := HostAt(bigEndian, |bytes|, addr);
    ReadOverWrite(bytes, at, value, at);
  }

  /** The first page of a big-endian memory as the host sees it: what the module stored at address 0 is
      not at position 0. */
  lemma HostMissesFirstWord()
    ensures var bytes := Zeros(65536)[0 := 1]; Load32(bytes, 0) == 1 && HostRead(true, bytes, 0) == 0
  {
    HostMisses(65536, 0);
    var bytes := Zeros(65536)[0 := 1];
    assert bytes[65532..65536] == [0, 0, 0, 0];
  }

  /** What `read_u32` finds after `write_u32` and a grow. */
  function HostReadAfterGrow(bigEndian: bool, m: Model, addr: nat, value: uint32, delta: uint32, canAllocate: bool)
    : uint32
    requires addr + 4 <= |m.bytes|
  {
    var written := m.(bytes := HostWrite(bigEndian, m.bytes, addr, value));
    HostRead(bigEndian, AfterGrow(written, delta, canAllocate).bytes, addr)
  }

  /** `read_u32` after a grow returns what `write_u32` stored before it, for all contents and values, exactly
      on a little-endian host, when the grow is refused, or when it adds no bytes. */
  lemma HostReadSurvivesGrowIff(bigEndian: bool, pages: uint32, maxPages: uint32, delta: uint32, canAllocate: bool,
                                addr: nat)
    requires addr + 4 <= ByteSize(pages)
    requires GrowOutcome(pages, maxPages, delta, canAllocate).Grown? ==> GrowFits(pages, delta)
    ensures (forall bytes: seq<byte>, value: uint32 :: |bytes| == ByteSize(pages) ==>
               HostReadAfterGrow(bigEndian, Model(pages, maxPages, bytes), addr, value, delta, canAllocate) == value)
            <==> || !bigEndian
                 || !GrowOutcome(pages, maxPages, delta, canAllocate).Grown?
                 || ByteSize(delta) == 0
  {
    var size := ByteSize(pages);
    var grown := GrowOutcome(pages, maxPages, delta, canAllocate).Grown?;
    if bigEndian && grown && ByteSize(delta) != 0 {
      HostLoses(pages, maxPages, delta, canAllocate, addr);
      assert |Zeros(size)| == size;
    } else {
      forall bytes: seq<byte>, value: uint32 | |bytes| == size
        ensures HostReadAfterGrow(bigEndian, Model(pages, maxPages, bytes), addr, value, delta, canAllocate) == value
      {
        HostReadOverWrite(bigEndian, bytes, addr, value);
        var written := HostWrite(bigEndian, bytes, addr, value);
        if grown {
          assert (written + Zeros(ByteSize(delta)))[addr..addr + 4] == written[addr..addr + 4];
          if ByteSize(delta) == 0 { assert written + Zeros(ByteSize(delta)) == written; }
        }
      }
    }
  }

  /** On a big-endian host, a word written to zeroed memory is read as 0 after a grow. */
  lemma HostLoses(pages: uint32, maxPages: uint32, delta: uint32, canAllocate: bool, addr: nat)
    requires addr + 4 <= ByteSize(pages) && ByteSize(delta) != 0
    requires GrowOutcome(pages, maxPages, delta, canAllocate).Grown?
    ensures var m := Model(pages, maxPages, Zeros(ByteSize(pages)));
            HostReadAfterGrow(true, m, addr, 1, delta, canAllocate) == 0
  {
    ByteSizeWraps(delta);
    var size := ByteSize(pages);
    var at := HostAt(true, size, addr);
    var written := Store32(Zeros(size), at, 1);
    var bytes := written + Zeros(ByteSize(delta));
    var there := HostAt(true, |bytes|, addr);
    assert at + 4 <= there;
    forall k | there <= k < there + 4 ensures bytes[k] == 0 {
      if k < size { assert written[k] == Zeros(size)[k]; }
    }
    assert bytes[there..there + 4] == [0, 0, 0, 0];
  }

  /** One page growing to two: `read_u32` finds the 1 that `write_u32` stored, and 0 after the grow. */
  lemma HostLosesFirstWord()
    ensures var m := Model(1, 2, Zeros(65536));
            && HostRead(true, HostWrite(true, m.bytes, 0, 1), 0) == 1
            && HostReadAfterGrow(true, m, 0, 1, 1, true) == 0
  {
    HostReadOverWrite(true, Zeros(65536), 0, 1);
    HostLoses(1, 2, 1, true, 0);
  }

  // ---- Whole runs ----

  datatype Op =
    | StoreOp(addr: nat, value: uint32)
    | GrowOp(delta: uint32, canAllocate: bool)

  predicate InRange(m: Model, addr: nat) {
    addr + 4 <= |m.bytes|
  }

  function Apply(m: Model, op: Op): Model {
    match op
    case StoreOp(addr, value) => if InRange(m, addr) then m.(bytes := Store32(m.bytes, addr, value)) else m
    case GrowOp(delta, canAllocate) => AfterGrow(m, delta, canAllocate)
  }

  function ApplyAll(m: Model, ops: seq<Op>): Model {
    if ops == [] then m else Apply(ApplyAll(m, ops[..|ops| - 1]), ops[|ops| - 1])
  }

  /** The pages that the grows of a run were granted, by the true sums. */
  function Granted(pages: nat, maxPages: nat, ops: seq<Op>): nat {
    if ops == [] then 0 else
    var (granted, last) := (Granted(pages, maxPages, ops[..|ops| - 1]), ops[|ops| - 1]);
    if last.GrowOp? && last.canAllocate && 0 < pages + granted + last.delta <= maxPages then granted + last.delta
    else granted
  }

  /** The page count is the initial one and what was granted since. */
  lemma {:induction false} PagesGranted(m: Model, ops: seq<Op>)
    ensures ApplyAll(m, ops).pages == m.pages + Granted(m.pages, m.maxPages, ops)
    ensures ApplyAll(m, ops).maxPages == m.maxPages
    decreases |ops|
  {
    if ops != [] {
      PagesGranted(m, ops[..|ops| - 1]);
    }
  }

  /** The byte the last store that reached address `a` put there. */
  function LastStored(m: Model, ops: seq<Op>, a: nat): Option<byte> {
    if ops == [] then None else
    var (init, last) := (ops[..|ops| - 1], ops[|ops| - 1]);
    if last.StoreOp? && InRange(ApplyAll(m, init), last.addr) && last.addr <= a < last.addr + 4
    then Some(Encode(last.value)[a - last.addr])
    else LastStored(m, init, a)
  }

  /** Every grow of the run stays inside what it allocated. */
  predicate RunFits(m: Model, ops: seq<Op>) {
    ops == [] ||
    var (init, last) := (ops[..|ops| - 1], ops[|ops| - 1]);
    RunFits(m, init) && OpFits(ApplyAll(m, init), last)
  }

  predicate OpFits(m: Model, op: Op) {
    op.GrowOp? && GrowOutcome(m.pages, m.maxPages, op.delta, op.canAllocate).Grown? ==> GrowFits(m.pages, op.delta)
  }

  /** After any run that fits the memory has the recorded size, which is `pages * 65536` up to 65535 pages and
      no further, and every address holds what was last stored there, or zero. */
  lemma {:induction false} MemoryIsLastStored(initialPages: uint32, maxPages: uint32, ops: seq<Op>)
    requires RunFits(Allocated(initialPages, maxPages), ops)
    ensures var m0 := Allocated(initialPages, maxPages);
            var m := ApplyAll(m0, ops);
            && m.maxPages == maxPages && (m.pages == initialPages || m.pages <= maxPages)
            && m.pages == initialPages + Granted(initialPages, maxPages, ops)
            && |m.bytes| == ByteSize(m.pages)
            && (|m.bytes| == m.pages * PAGE_SIZE <==> m.pages <= 65535)
            && forall a :: 0 <= a < |m.bytes| ==>
                 m.bytes[a] == match LastStored(m0, ops, a) case Some(b) => b case None => 0
    decreases |ops|
  {
    var m0 := Allocated(initialPages, maxPages);
    SizeExact(ApplyAll(m0, ops).pages);
    PagesGranted(m0, ops);
    if ops != [] {
      var (init, last) := (ops[..|ops| - 1], ops[|ops| - 1]);
      MemoryIsLastStored(initialPages, maxPages, init);
      var m := ApplyAll(m0, init);
      if last.GrowOp? && GrowOutcome(m.pages, m.maxPages, last.delta, last.canAllocate).Grown? {
        GrowStaysInside(m.pages, m.maxPages, last.delta);
        forall a | |m.bytes| <= a ensures LastStored(m0, init, a) == None {
          NothingStoredBeyond(m0, init, a);
        }
      }
    }
  }

  /** Up to 65535 pages every run fits. */
  lemma {:induction false} SmallRunsFit(initialPages: uint32, maxPages: uint32, ops: seq<Op>)
    requires initialPages <= 65535 && maxPages <= 65535
    ensures RunFits(Allocated(initialPages, maxPages), ops)
    ensures var m := ApplyAll(Allocated(initialPages, maxPages), ops); m.pages <= 65535 && m.maxPages == maxPages
    decreases |ops|
  {
    if ops != [] {
      SmallRunsFit(initialPages, maxPages, ops[..|ops| - 1]);
    }
  }

  lemma {:induction false} PrefixFits(m: Model, ops: seq<Op>, k: nat)
    requires RunFits(m, ops) && k <= |ops|
    ensures RunFits(m, ops[..k])
    decreases |ops|
  {
    if k < |ops| {
      assert ops[..|ops| - 1][..k] == ops[..k];
      PrefixFits(m, ops[..|ops| - 1], k);
    } else {
      assert ops[..k] == ops;
    }
  }

  /** No store has reached an address that does not exist yet. */
  lemma {:induction false} NothingStoredBeyond(m: Model, ops: seq<Op>, a: nat)
    requires |ApplyAll(m, ops).bytes| <= a
    ensures LastStored(m, ops, a) == None
    decreases |ops|
  {
    if ops != [] {
      NothingStoredBeyond(m, ops[..|ops| - 1], a);
    }
  }

  /** A memory just allocated holds zeros, as many as its pages have bytes: a first load traps exactly
      beyond them. */
  method FirstLoad(bigEndian: bool, initialPages: uint32, maxPages: uint32, addr: nat)
    returns (trap: bool, value: uint32)
    requires initialPages <= 65535
    ensures trap <==> addr + 4 > initialPages * 65536
    ensures !trap ==> value == 0
  {
    var memory := new Memory(bigEndian, initialPages, maxPages);
    ghost var bytes := memory.Logical();
    assert |bytes| == initialPages * 65536;
    trap, value := memory.Load(addr);
    if !trap { ZeroWord(|bytes|, addr, value); }
  }

  lemma ZeroWord(n: nat, at: nat, value: uint32)
    requires at + 4 <= n && HoldsWord(Zeros(n), at, value)
    ensures value == 0
  {
  }

  /** Two grows in a row: the second finds the pages of the first. */
  method GrowTwice(bigEndian: bool, maxPages: uint32, delta: uint32) returns (first: uint32, second: uint32, size: nat)
    requires 1 + delta <= maxPages <= 65535
    ensures first == 1
    ensures second == if 1 + 2 * delta <= maxPages then 1 + delta else 0xffff_ffff
    ensures size == 65536 * (1 + (if 1 + 2 * delta <= maxPages then 2 * delta else delta))
  {
    var memory := new Memory(bigEndian, 1, maxPages);
    first := memory.Grow(delta, true);
    second := memory.Grow(delta, true);
    size := memory.data.Length;
  }

  /** The same stores and grows on both layouts give the same logical memory, result by result. */
  method RunBoth(little: Memory, big: Memory, ops: seq<Op>) returns (agree: bool)
    requires little != big && little.data != big.data && !little.bigEndian && big.bigEndian
    requires little.Valid() && big.Valid() && little.Abstract() == big.Abstract()
    requires RunFits(little.Abstract(), ops)
    modifies little, big, little.data, big.data
    ensures agree && little.Valid() && big.Valid()
    ensures little.Abstract() == big.Abstract() == ApplyAll(old(little.Abstract()), ops)
  {
    agree := true;
    ghost var start := little.Abstract();
    for i := 0 to |ops|
      invariant agree && little.Valid() && big.Valid()
      invariant little.data == old(little.data) || fresh(little.data)
      invariant big.data == old(big.data) || fresh(big.data)
      invariant little.data != big.data
      invariant little.Abstract() == big.Abstract() == ApplyAll(start, ops[..i])
    {
      assert ops[..i + 1][..i] == ops[..i];
      PrefixFits(start, ops, i + 1);
      agree := ApplyBoth(little, big, ops[i]);
    }
    assert ops[..|ops|] == ops;
  }

  method ApplyBoth(little: Memory, big: Memory, op: Op) returns (agree: bool)
    requires little != big && little.data != big.data && !little.bigEndian && big.bigEndian
    requires little.Valid() && big.Valid() && little.Abstract() == big.Abstract()
    requires OpFits(little.Abstract(), op)
    modifies little, big, little.data, big.data
    ensures agree && little.Valid() && big.Valid()
    ensures little.data == old(little.data) || fresh(little.data)
    ensures big.data == old(big.data) || fresh(big.data)
    ensures little.data != big.data
    ensures little.Abstract() == big.Abstract() == Apply(old(little.Abstract()), op)
  {
    match op
    case StoreOp(addr, value) =>
      var a := little.Store(addr, value);
      var b := big.Store(addr, value);
      agree := a == b;
    case GrowOp(delta, canAllocate) =>
      agree := GrowBoth(little, big, delta, canAllocate);
  }

  method GrowBoth(little: Memory, big: Memory, delta: uint32, canAllocate: bool) returns (agree: bool)
    requires little != big && little.data != big.data && little.Valid() && big.Valid()
    requires little.Abstract() == big.Abstract()
    requires OpFits(little.Abstract(), GrowOp(delta, canAllocate))
    modifies little, big
    ensures agree && little.Valid() && big.Valid() && little.data != big.data
    ensures little.data == old(little.data) || fresh(little.data)
    ensures big.data == old(big.data) || fresh(big.data)
    ensures little.Abstract() == big.Abstract() == AfterGrow(old(little.Abstract()), delta, canAllocate)
  {
    ghost var m := big.Abstract();
    var a := little.Grow(delta, canAllocate);
    assert big.Abstract() == m;
    var b := big.Grow(delta, canAllocate);
    agree := a == b;
  }
}
