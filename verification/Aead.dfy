/** AES-256-GCM as an ideal object, one per directional session key.  Sealing records the
    sealed tuple; opening succeeds exactly on a recorded tuple.  The ciphertext is any byte
    string of the right length, so nothing proved here depends on how AES-GCM computes it. */
module Aead {
  import opened ByteStrings

  const TAG_SIZE: nat := 16

  datatype SealEntry = SealEntry(nonce: Bytes, aad: Bytes, plain: Bytes, sealed: Bytes)

  type Log = seq<SealEntry>

  predicate Matches(e: SealEntry, nonce: Bytes, aad: Bytes, sealed: Bytes) {
    e.nonce == nonce && e.aad == aad && e.sealed == sealed && |sealed| == |e.plain| + TAG_SIZE
  }

  function OpenIn(log: Log, nonce: Bytes, aad: Bytes, sealed: Bytes): (r: Option<Bytes>)
    ensures r.Some? ==> exists i :: 0 <= i < |log| && Matches(log[i], nonce, aad, sealed) && log[i].plain == r.value
    ensures r.None? ==> forall i :: 0 <= i < |log| ==> !Matches(log[i], nonce, aad, sealed)
  {
    if log == [] then None
    else
      var last := log[|log| - 1];
      if Matches(last, nonce, aad, sealed) then Some(last.plain)
      else OpenIn(log[..|log| - 1], nonce, aad, sealed)
  }

  class IdealAead {
    var log: Log

    constructor ()
      ensures log == []
    {
      log := [];
    }

    method Seal(nonce: Bytes, aad: Bytes, plain: Bytes) returns (sealed: Bytes)
      modifies this
      ensures |sealed| == |plain| + TAG_SIZE
      ensures log == old(log) + [SealEntry(nonce, aad, plain, sealed)]
    {
      sealed := [];
      while |sealed| < |plain| + TAG_SIZE
        invariant |sealed| <= |plain| + TAG_SIZE
        invariant log == old(log)
      {
        var b: byte := *;
        sealed := sealed + [b];
      }
      log := log + [SealEntry(nonce, aad, plain, sealed)];
    }

    method Open(nonce: Bytes, aad: Bytes, sealed: Bytes) returns (r: Option<Bytes>)
      ensures r == OpenIn(log, nonce, aad, sealed)
    {
      r := OpenIn(log, nonce, aad, sealed);
    }
  }
}
