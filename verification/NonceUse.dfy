/** The nonces the host's writer seals under.  A failed write seals a record but leaves the
    sequence number where it was, so the next write would seal under the same nonce. */
module NonceUse {
  import opened ByteStrings
  import opened Aead
  import opened RecordLayer

  // `outcomes[k]` says whether the k-th record sealed was also written completely.
  function Successes(outcomes: seq<bool>): (n: nat)
    ensures n <= |outcomes|
  {
    if outcomes == [] then 0
    else Successes(outcomes[..|outcomes| - 1]) + if outcomes[|outcomes| - 1] then 1 else 0
  }

  function SealNonces(prefix: Bytes, outcomes: seq<bool>): seq<Bytes> {
    if outcomes == [] then []
    else
      var before := outcomes[..|outcomes| - 1];
      SealNonces(prefix, before) + [Nonce(prefix, Successes(before))]
  }

  ghost predicate SealedAfterFailure(outcomes: seq<bool>) {
    exists k :: 0 <= k < |outcomes| - 1 && !outcomes[k]
  }

  // Whether a write has failed, and whether anything was sealed after that.
  datatype TxStatus = Clean | WriteFailed | Reused

  ghost function StatusOf(outcomes: seq<bool>): TxStatus {
    if SealedAfterFailure(outcomes) then Reused
    else if outcomes != [] && !outcomes[|outcomes| - 1] then WriteFailed else Clean
  }

  lemma StatusAfter(outcomes: seq<bool>, ok: bool)
    ensures StatusOf(outcomes + [ok])
            == if StatusOf(outcomes) != Clean then Reused else if ok then Clean else WriteFailed
  {
    var after := outcomes + [ok];
    forall k | 0 <= k < |outcomes| ensures after[k] == outcomes[k] {
    }
    if StatusOf(outcomes) == WriteFailed {
      assert !after[|outcomes| - 1];
    } else if StatusOf(outcomes) == Reused {
      var k :| 0 <= k < |outcomes| - 1 && !outcomes[k];
      assert !after[k];
    }
  }

  ghost predicate Distinct(s: seq<Bytes>) {
    forall i, j :: 0 <= i < j < |s| ==> s[i] != s[j]
  }

  function Nonces(log: Log): (s: seq<Bytes>)
    ensures |s| == |log|
  {
    if log == [] then [] else Nonces(log[..|log| - 1]) + [log[|log| - 1].nonce]
  }

  lemma {:induction false} NonceAt(log: Log, k: nat)
    requires k < |log|
    ensures Nonces(log)[k] == log[k].nonce
  {
    if k < |log| - 1 {
      NonceAt(log[..|log| - 1], k);
    }
  }

  // What one more sealed record does to both histories.
  lemma SealedOnce(prefix: Bytes, log: Log, outcomes: seq<bool>, e: SealEntry, ok: bool)
    requires Nonces(log) == SealNonces(prefix, outcomes) && e.nonce == Nonce(prefix, Successes(outcomes))
    ensures Nonces(log + [e]) == SealNonces(prefix, outcomes + [ok])
    ensures Successes(outcomes + [ok]) == Successes(outcomes) + if ok then 1 else 0
  {
    assert (log + [e])[..|log|] == log;
    assert (outcomes + [ok])[..|outcomes|] == outcomes;
  }

  lemma {:induction false} SealNonceAt(prefix: Bytes, outcomes: seq<bool>, k: nat)
    requires k < |outcomes|
    ensures |SealNonces(prefix, outcomes)| == |outcomes|
    ensures SealNonces(prefix, outcomes)[k] == Nonce(prefix, Successes(outcomes[..k]))
  {
    var before := outcomes[..|outcomes| - 1];
    if k < |before| {
      SealNonceAt(prefix, before, k);
      assert before[..k] == outcomes[..k];
    } else if before != [] {
      SealNonceAt(prefix, before, 0);
    }
  }

  lemma {:induction false} SuccessesAreAll(outcomes: seq<bool>)
    requires forall k :: 0 <= k < |outcomes| ==> outcomes[k]
    ensures Successes(outcomes) == |outcomes|
  {
    if outcomes != [] {
      SuccessesAreAll(outcomes[..|outcomes| - 1]);
    }
  }

  // No nonce repeats exactly when nothing is sealed after a record whose write failed.
  lemma NoncesDistinctIff(prefix: Bytes, outcomes: seq<bool>)
    requires Successes(outcomes) <= UINT64_MAX
    ensures Distinct(SealNonces(prefix, outcomes)) <==> !SealedAfterFailure(outcomes)
  {
    var nonces := SealNonces(prefix, outcomes);
    if SealedAfterFailure(outcomes) {
      var k :| 0 <= k < |outcomes| - 1 && !outcomes[k];
      SealNonceAt(prefix, outcomes, k);
      SealNonceAt(prefix, outcomes, k + 1);
      assert outcomes[..k + 1][..k] == outcomes[..k];
      assert nonces[k] == nonces[k + 1];
    } else {
      forall i, j | 0 <= i < j < |nonces| ensures nonces[i] != nonces[j] {
        SealNonceLength(prefix, outcomes);
        SealNonceAt(prefix, outcomes, i);
        SealNonceAt(prefix, outcomes, j);
        SuccessesAreAll(outcomes[..|outcomes| - 1]);
        SuccessesAreAll(outcomes[..i]);
        SuccessesAreAll(outcomes[..j]);
        if nonces[i] == nonces[j] {
          NonceInjective(prefix, i, j);
        }
      }
    }
  }

  lemma {:induction false} SealNonceLength(prefix: Bytes, outcomes: seq<bool>)
    ensures |SealNonces(prefix, outcomes)| == |outcomes|
  {
    if outcomes != [] {
      SealNonceAt(prefix, outcomes, 0);
    }
  }
}
