/** The world state the contract reads and writes: an ordered key-value
    ledger reached through get, put and delete primitives. Whether a primitive
    call fails is decided by the ledger, outside this model, so each call takes
    that outcome as a parameter: `None` for success, `Some(msg)` for a failure
    with the ledger's message. */
module Ledger {
  import opened Basics

  /** A write the contract issued to the ledger, whether or not it took effect. */
  datatype Write = Put(key: string, value: Bytes) | Del(key: string)

  /** The ledger's get: the stored value, `None` when the key is absent
      (an empty stored value is still present), or the ledger's failure. */
  function GetState(kv: map<string, Bytes>, key: string, fault: Option<string>): (r: Result<Option<Bytes>, string>)
    ensures fault.Some? ==> r == Err(fault.value)
    ensures fault.None? ==> r.Ok? && (r.value.Some? <==> key in kv)
    ensures fault.None? && key in kv ==> r.value.value == kv[key]
  {
    if fault.Some? then Err(fault.value)
    else if key in kv then Ok(Some(kv[key]))
    else Ok(None)
  }

  /** Whether the ledger's open range query (empty start and end keys) visits
      `key`. That query starts at U+0001, so every key that begins with U+0000
      (the prefix of composite keys) is never visited. The ledger refuses to
      store the empty key at all; it is excluded here as well, for states of
      the model where a put without a fault has stored it. */
  predicate InOpenRange(key: string) {
    key != [] && key[0] != '\0'
  }

  /** The keys of `kv` that the open range query visits. */
  function OpenRangeKeys(kv: map<string, Bytes>): (r: set<string>)
    ensures forall k :: k in r <==> k in kv && InOpenRange(k)
  {
    set k | k in kv && InOpenRange(k)
  }

  class WorldState {
    /** The committed state: one value per key. */
    var kv: map<string, Bytes>
    /** Every put and delete issued, in order. */
    ghost var writes: seq<Write>

    constructor (init: map<string, Bytes>)
      ensures kv == init && writes == []
    {
      kv := init;
      writes := [];
    }

    /** The ledger's put; a failed put leaves the state as it was. */
    method PutState(key: string, value: Bytes, fault: Option<string>) returns (err: Option<string>)
      modifies this
      ensures err == fault
      ensures kv == if fault.None? then old(kv)[key := value] else old(kv)
      ensures writes == old(writes) + [Put(key, value)]
    {
      err := fault;
      if fault.None? {
        kv := kv[key := value];
      }
      writes := writes + [Put(key, value)];
    }

    /** The ledger's delete; a failed delete leaves the state as it was. */
    method DelState(key: string, fault: Option<string>) returns (err: Option<string>)
      modifies this
      ensures err == fault
      ensures kv == if fault.None? then old(kv) - {key} else old(kv)
      ensures writes == old(writes) + [Del(key)]
    {
      err := fault;
      if fault.None? {
        kv := kv - {key};
      }
      writes := writes + [Del(key)];
    }
  }
}
