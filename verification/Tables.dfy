/** The function table and the check of an indirect call. */
module Tables {
  import opened Bytes
  import opened FuncTypes

  /** A slot: a type index and a function, 0 being the null pointer. */
  datatype Elem = Elem(funcType: nat, func: nat)

  const EMPTY := Elem(0, 0)

  class Table {
    var data: array<Elem>
    var size: uint32
    var maxSize: uint32
    ghost var slots: seq<Option<Signature>>  // the signature of the function in each slot

    /** Every slot is empty or holds a function of the registered type it is labelled with. */
    ghost predicate Valid(registry: seq<Signature>)
      reads this, data
    {
      && data.Length == size == |slots|
      && forall x :: 0 <= x < data.Length ==> Labelled(data[x], slots[x], registry)
    }

    /** `wasm_rt_allocate_table` */
    constructor (elements: uint32, maxElements: uint32, ghost registry: seq<Signature>)
      ensures size == elements && maxSize == maxElements && fresh(data)
      ensures data[..] == seq(elements as nat, _ => EMPTY)
      ensures Valid(registry) && slots == seq(elements as nat, _ => None)
    {
      size := elements;
      maxSize := maxElements;
      data := new Elem[elements](_ => EMPTY);
      slots := seq(elements as nat, _ => None);
    }

    /** One assignment of the module's `init_table`: a function and the type it was registered with. */
    method Put(x: nat, funcType: nat, func: nat, ghost registry: seq<Signature>)
      requires Valid(registry) && x < size && func != 0 && 1 <= funcType <= |registry|
      modifies data, this`slots
      ensures Valid(registry)
      ensures data[..] == old(data[..])[x := Elem(funcType, func)]
      ensures slots == old(slots)[x := Some(registry[funcType - 1])]
    {
      data[x] := Elem(funcType, func);
      slots := slots[x := Some(registry[funcType - 1])];
    }

    /** The guard of an indirect call of slot `x` at a registered type: it passes exactly when the slot holds
        a function of that signature. */
    method MayCall(x: nat, funcType: nat, ghost registry: seq<Signature>) returns (ok: bool)
      requires Valid(registry) && Distinct(registry) && 1 <= funcType <= |registry|
      ensures ok <==> x < |slots| && slots[x] == Some(registry[funcType - 1])
      ensures ok <==> Callable(data[..], x, funcType)
    {
      ok := x < size && data[x].func != 0 && data[x].funcType == funcType;
    }
  }

  predicate Labelled(e: Elem, slot: Option<Signature>, registry: seq<Signature>) {
    match slot
    case None => e == EMPTY
    case Some(sig) => e.func != 0 && 1 <= e.funcType <= |registry| && registry[e.funcType - 1] == sig
  }

  predicate Callable(data: seq<Elem>, x: nat, funcType: nat) {
    x < |data| && data[x].func != 0 && data[x].funcType == funcType
  }

  /** An initialisation of a slot with a function of the signature registered by call `sig`. */
  datatype Entry = Entry(slot: nat, sig: nat, func: nat)

  predicate EntriesOk(entries: seq<Entry>, size: nat, sigs: nat) {
    forall k :: 0 <= k < |entries| ==> entries[k].slot < size && entries[k].sig < sigs && entries[k].func != 0
  }

  function Fill(data: seq<Elem>, entries: seq<Entry>, indices: seq<nat>): (r: seq<Elem>)
    requires EntriesOk(entries, |data|, |indices|)
    ensures |r| == |data|
    decreases |entries|
  {
    if entries == [] then data else
    var e := entries[|entries| - 1];
    Fill(data, entries[..|entries| - 1], indices)[e.slot := Elem(indices[e.sig], e.func)]
  }

  /** The signature of the function last put into slot `x`. */
  function SlotSignature(entries: seq<Entry>, sigs: seq<Signature>, x: nat): Option<Signature>
    requires forall k :: 0 <= k < |entries| ==> entries[k].sig < |sigs|
    decreases |entries|
  {
    if entries == [] then None else
    var e := entries[|entries| - 1];
    if e.slot == x then Some(sigs[e.sig]) else SlotSignature(entries[..|entries| - 1], sigs, x)
  }

  /** Type safety of indirect calls: in a freshly allocated table filled with registered functions, the guard
      passes at the type of a registered signature exactly when the slot holds a function of that signature;
      it never passes for a slot that was not filled, since no registration returns the index 0 of zeroed
      memory. */
  lemma {:induction false} IndirectCallsAreTypeSafe(size: nat, entries: seq<Entry>, sigs: seq<Signature>,
                                                  x: nat, call: nat)
    requires EntriesOk(entries, size, |sigs|)
    requires call < |sigs|
    ensures var indices := RegisterAll([], sigs).1;
            && |indices| == |sigs|
            && var data := Fill(seq(size, _ => EMPTY), entries, indices);
            && indices[call] != 0
            && (Callable(data, x, indices[call]) <==> SlotSignature(entries, sigs, x) == Some(sigs[call]))
            && (SlotSignature(entries, sigs, x) == None && x < size ==> data[x] == EMPTY)
    decreases |entries|
  {
    IndicesDenote([], sigs);
    if entries != [] {
      var e := entries[|entries| - 1];
      IndirectCallsAreTypeSafe(size, entries[..|entries| - 1], sigs, x, call);
    }
  }
}
