/** The registry of function types: equal signatures get one index. */
module FuncTypes {
  import opened Bytes

  datatype ValType = I32 | I64 | F32 | F64

  /** A signature as a value. */
  datatype Signature = Signature(params: seq<ValType>, results: seq<ValType>)

  // ---- What a registration does to the table of signatures ----

  /** The position of the first entry equal to `sig`, or the length. */
  function IndexOf(table: seq<Signature>, sig: Signature): (i: nat)
    ensures i <= |table|
    ensures i < |table| ==> table[i] == sig
    ensures forall k :: 0 <= k < i ==> table[k] != sig
  {
    if table == [] || table[0] == sig then 0 else 1 + IndexOf(table[1..], sig)
  }

  function Register(table: seq<Signature>, sig: Signature): (seq<Signature>, nat) {
    var i := IndexOf(table, sig);
    if i < |table| then (table, i + 1) else (table + [sig], |table| + 1)
  }

  /** The table and the indices after a sequence of registrations. */
  function RegisterAll(table: seq<Signature>, sigs: seq<Signature>): (seq<Signature>, seq<nat>)
    decreases |sigs|
  {
    if sigs == [] then (table, []) else
    var (table', i) := Register(table, sigs[0]);
    var (end, rest) := RegisterAll(table', sigs[1..]);
    (end, [i] + rest)
  }

  /** A call as the program makes it: two counts and one list, parameters first. */
  datatype Call = Call(paramCount: nat, resultCount: nat, args: seq<ValType>)

  predicate WellFormed(call: Call) {
    |call.args| == call.paramCount + call.resultCount
  }

  function SignatureOf(call: Call): Signature
    requires WellFormed(call)
  {
    Signature(call.args[..call.paramCount], call.args[call.paramCount..])
  }

  // ---- The program ----

  /** A `FuncType` record: two allocated lists. */
  datatype FuncType = FuncType(params: array<ValType>, results: array<ValType>)

  function Denoted(f: FuncType): Signature
    reads f.params, f.results
  {
    Signature(f.params[..], f.results[..])
  }

  /** `func_types_are_equal`: counts first, then element by element. */
  method FuncTypesAreEqual(a: FuncType, b: FuncType) returns (equal: bool)
    ensures equal <==> Denoted(a) == Denoted(b)
  {
    if a.params.Length != b.params.Length || a.results.Length != b.results.Length {
      assert |a.params[..]| != |b.params[..]| || |a.results[..]| != |b.results[..]|;
      return false;
    }
    for i := 0 to a.params.Length
      invariant a.params[..i] == b.params[..i]
    {
      if a.params[i] != b.params[i] {
        assert a.params[..][i] != b.params[..][i];
        return false;
      }
    }
    for i := 0 to a.results.Length
      invariant a.results[..i] == b.results[..i]
    {
      if a.results[i] != b.results[i] {
        assert a.results[..][i] != b.results[..][i];
        return false;
      }
    }
    assert a.params[..] == a.params[..a.params.Length] && b.params[..] == b.params[..b.params.Length];
    assert a.results[..] == a.results[..a.results.Length] && b.results[..] == b.results[..b.results.Length];
    return true;
  }

  /** The globals `g_func_types` and `g_func_type_count`. */
  class Registry {
    var types: array<FuncType>
    var count: uint32
    ghost var table: seq<Signature>  // the signatures the entries denote

    ghost predicate Valid()
      reads this, types
      reads set i | 0 <= i < types.Length :: types[i].params, set i | 0 <= i < types.Length :: types[i].results
    {
      && types.Length == count == |table|
      && forall i :: 0 <= i < types.Length ==> Denoted(types[i]) == table[i]
    }

    constructor ()
      ensures Valid() && table == []
    {
      types := new FuncType[0];
      count := 0;
      table := [];
    }

    /** `wasm_rt_register_func_type`. The array is reallocated for every new entry; the index returned is
        one more than its position. */
    method RegisterFuncType(paramCount: uint32, resultCount: uint32, args: seq<ValType>) returns (index: uint32)
      requires Valid()
      requires |args| == paramCount + resultCount
      requires count < TWO_TO_THE_32 - 1
      modifies this
      ensures Valid()
      ensures (table, index as nat) == Register(old(table), SignatureOf(Call(paramCount, resultCount, args)))
    {
      var params := CopyArgs(args, 0, paramCount);
      var results := CopyArgs(args, paramCount, resultCount);
      var funcType := FuncType(params, results);
      ghost var sig := SignatureOf(Call(paramCount, resultCount, args));
      assert Denoted(funcType) == sig;
      var i := 0;
      while i < count
        invariant 0 <= i <= count && Valid() && types == old(types) && table == old(table) && count == old(count)
        invariant Denoted(funcType) == sig
        invariant forall k :: 0 <= k < i ==> table[k] != sig
      {
        var equal := FuncTypesAreEqual(types[i], funcType);
        if equal {
          return i + 1;
        }
        i := i + 1;
      }
      var idx := count;
      count := count + 1;
      types := Reallocate(types, idx, funcType);
      table := table + [sig];
      index := idx + 1;
    }

    /** `realloc` to one more entry, which is then written. */
    static method Reallocate(entries: array<FuncType>, size: nat, last: FuncType) returns (a: array<FuncType>)
      requires entries.Length == size
      ensures fresh(a) && a[..] == entries[..] + [last]
    {
      a := new FuncType[size + 1](i => last);
      for i := 0 to size
        invariant forall k :: 0 <= k < i ==> a[k] == entries[k]
        invariant a[size] == last
      {
        a[i] := entries[i];
      }
    }

    /** `n` values of the argument list from `from` on, in memory of their own. */
    static method CopyArgs(args: seq<ValType>, from: nat, n: nat) returns (a: array<ValType>)
      requires from + n <= |args|
      ensures fresh(a) && a[..] == args[from..from + n]
    {
      a := new ValType[n];
      for i := 0 to n
        invariant a[..i] == args[from..from + i]
      {
        a[i] := args[from + i];
      }
    }
  }

  // ---- Whole runs of registrations ----

  predicate Distinct(table: seq<Signature>) {
    forall j, k :: 0 <= j < k < |table| ==> table[j] != table[k]
  }

  /** Registrations only extend a table of different signatures, and every index denotes its signature in
      the final table, however many entries were added since. */
  lemma {:induction false} IndicesDenote(table: seq<Signature>, sigs: seq<Signature>)
    requires Distinct(table)
    ensures var (end, indices) := RegisterAll(table, sigs);
            && table <= end && Distinct(end) && |indices| == |sigs|
            && forall k :: 0 <= k < |sigs| ==> 1 <= indices[k] <= |end| && end[indices[k] - 1] == sigs[k]
    decreases |sigs|
  {
    if sigs != [] {
      var (table', i) := Register(table, sigs[0]);
      RegisterDenotes(table, sigs[0]);
      IndicesDenote(table', sigs[1..]);
      var (end, rest) := RegisterAll(table', sigs[1..]);
      forall k | 0 <= k < |sigs| ensures 1 <= ([i] + rest)[k] <= |end| && end[([i] + rest)[k] - 1] == sigs[k] {
        if k > 0 { assert ([i] + rest)[k] == rest[k - 1] && sigs[k] == sigs[1..][k - 1]; }
      }
    }
  }

  lemma RegisterDenotes(table: seq<Signature>, sig: Signature)
    requires Distinct(table)
    ensures var (table', i) := Register(table, sig);
            table <= table' && Distinct(table') && 1 <= i <= |table'| && table'[i - 1] == sig
  {
  }

  lemma Rejoined(args: seq<ValType>, n: nat)
    requires n <= |args|
    ensures args == args[..n] + args[n..]
  {
  }

  /** Two calls return the same index exactly when their signatures are equal: parameter lists and result
      lists, so the same list of types split elsewhere is another type. */
  lemma SameIndexIffSameSignature(calls: seq<Call>, j: nat, k: nat)
    requires j < |calls| && k < |calls| && forall n :: 0 <= n < |calls| ==> WellFormed(calls[n])
    ensures var sigs := Signatures(calls);
            var indices := RegisterAll([], sigs).1;
            && |indices| == |calls|
            && (indices[j] == indices[k] <==>
                  calls[j].paramCount == calls[k].paramCount && calls[j].args == calls[k].args)
  {
    var sigs := Signatures(calls);
    IndicesDenote([], sigs);
    var (end, indices) := RegisterAll([], sigs);
    var (a, b) := (calls[j], calls[k]);
    assert sigs[j] == sigs[k] <==> a.paramCount == b.paramCount && a.args == b.args by {
      if sigs[j] == sigs[k] {
        Rejoined(a.args, a.paramCount);
        Rejoined(b.args, b.paramCount);
        assert |sigs[j].params| == a.paramCount;
      }
    }
  }

  function Signatures(calls: seq<Call>): (sigs: seq<Signature>)
    requires forall n :: 0 <= n < |calls| ==> WellFormed(calls[n])
    ensures |sigs| == |calls| && forall n :: 0 <= n < |calls| ==> sigs[n] == SignatureOf(calls[n])
  {
    seq(|calls|, n requires 0 <= n < |calls| => SignatureOf(calls[n]))
  }

  /** The different elements of a list in the order of their first occurrence. */
  function FirstOccurrences(sigs: seq<Signature>): seq<Signature> {
    if sigs == [] then [] else
    var (init, last) := (sigs[..|sigs| - 1], sigs[|sigs| - 1]);
    if last in init then FirstOccurrences(init) else FirstOccurrences(init) + [last]
  }

  lemma {:induction false} RegisterAllAppend(table: seq<Signature>, sigs: seq<Signature>, sig: Signature)
    ensures var (end, indices) := RegisterAll(table, sigs);
            var (end', i) := Register(end, sig);
            RegisterAll(table, sigs + [sig]) == (end', indices + [i])
    decreases |sigs|
  {
    if sigs == [] {
      assert ([] + [sig])[1..] == [];
      assert [Register(table, sig).1] + [] == [] + [Register(table, sig).1];
    } else {
      var (table', i) := Register(table, sigs[0]);
      assert (sigs + [sig])[1..] == sigs[1..] + [sig];
      RegisterAllAppend(table', sigs[1..], sig);
      var (end, rest) := RegisterAll(table', sigs[1..]);
      assert [i] + (rest + [Register(end, sig).1]) == ([i] + rest) + [Register(end, sig).1];
    }
  }

  lemma {:induction false} FirstOccurrencesHold(sigs: seq<Signature>, sig: Signature)
    ensures sig in FirstOccurrences(sigs) <==> sig in sigs
  {
    if sigs != [] {
      var (init, last) := (sigs[..|sigs| - 1], sigs[|sigs| - 1]);
      FirstOccurrencesHold(init, sig);
      assert sigs == init + [last];
    }
  }

  /** From an empty registry the table holds the different signatures in the order of their first
      registration, so the indices are 1, 2, .. without gaps. */
  lemma {:induction false} TableInFirstOccurrenceOrder(sigs: seq<Signature>)
    ensures RegisterAll([], sigs).0 == FirstOccurrences(sigs)
  {
    if sigs != [] {
      var (init, last) := (sigs[..|sigs| - 1], sigs[|sigs| - 1]);
      TableInFirstOccurrenceOrder(init);
      assert sigs == init + [last];
      RegisterAllAppend([], init, last);
      FirstOccurrencesHold(init, last);
    }
  }

  /** Each index is in use: every entry of the table is some call's. */
  lemma EveryIndexIsReturned(sigs: seq<Signature>, index: nat)
    requires 1 <= index <= |RegisterAll([], sigs).0|
    ensures index in RegisterAll([], sigs).1
  {
    IndicesDenote([], sigs);
    TableInFirstOccurrenceOrder(sigs);
    var (end, indices) := RegisterAll([], sigs);
    FirstOccurrencesHold(sigs, end[index - 1]);
    var k :| 0 <= k < |sigs| && sigs[k] == end[index - 1];
    assert indices[k] == index;
  }
}
