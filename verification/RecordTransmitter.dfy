/** Transmitting half of the device: one bounded pending buffer in front of a non-blocking
    socket, record staging, and the drop counters. */
module RecordTransmitter {
  import opened ByteStrings
  import opened Aead
  import opened RecordLayer
  import opened Sockets

  const PENDING_SIZE: nat := HEADER_SIZE + MAX_RECORD + TAG_SIZE

  class Transmitter {
    var secureMode: bool
    var txAead: IdealAead
    var txNoncePrefix: Bytes
    var txSequence: nat

    const txPending: array<byte>
    var txPendingLength: nat
    var txPendingOffset: nat
    var txDroppedBytes: nat
    var txDroppedWrites: nat

    ghost var sent: Bytes           // bytes of this session the socket has taken after the handshake
    ghost var accepted: Bytes       // application bytes staged in this session
    ghost var discarded: bool       // pending bytes were thrown away because the connection is gone
    ghost var trueDroppedBytes: nat // what the two counters would hold without saturation
    ghost var trueDroppedWrites: nat
    ghost var sealFailures: nat     // records refused because the cipher failed or numbers ran out

    ghost function Pending(): Bytes
      requires txPendingOffset <= txPendingLength <= txPending.Length
      reads this, txPending
    {
      txPending[txPendingOffset..txPendingLength]
    }

    // Everything this session must put on the wire for what has been accepted.
    ghost function Due(): Bytes
      reads this, txAead
    {
      if secureMode then Wire(txAead.log) else accepted
    }

    ghost predicate Counters()
      reads this
    {
      && txDroppedBytes == Min(trueDroppedBytes, UINT64_MAX)
      && txDroppedWrites == Min(trueDroppedWrites, UINT32_MAX)
    }

    ghost predicate Valid()
      reads this, txPending, txAead
    {
      && txPending.Length == PENDING_SIZE
      && txPendingOffset <= txPendingLength <= PENDING_SIZE
      && Counters()
      && (secureMode ==>
            && WellNumbered(txAead.log, txNoncePrefix)
            && txSequence == |txAead.log|
            && accepted == Plain(txAead.log))
      && (discarded ==> Pending() == [] && sent <= Due())
      && (!discarded ==> sent + Pending() == Due())
    }

    constructor (aead: IdealAead)
      ensures Valid() && fresh(txPending) && !secureMode && sent == [] && accepted == [] && !discarded
      ensures txAead == aead && trueDroppedBytes == trueDroppedWrites == 0
    {
      secureMode, txAead, txNoncePrefix, txSequence := false, aead, [], 0;
      txPending := new byte[PENDING_SIZE];
      txPendingLength, txPendingOffset, txDroppedBytes, txDroppedWrites := 0, 0, 0, 0;
      sent, accepted, discarded := [], [], false;
      trueDroppedBytes, trueDroppedWrites, sealFailures := 0, 0, 0;
    }

    // A session begins or ends: nothing pending, sequence zero.  The drop counters survive.
    method Reset(secure: bool, aead: IdealAead, noncePrefix: Bytes)
      requires txPending.Length == PENDING_SIZE && Counters() && (secure ==> aead.log == [])
      modifies this
      ensures Valid() && secureMode == secure && txAead == aead && txNoncePrefix == noncePrefix
      ensures sent == [] && accepted == [] && !discarded && txSequence == txPendingLength == txPendingOffset == 0
      ensures trueDroppedBytes == old(trueDroppedBytes) && trueDroppedWrites == old(trueDroppedWrites)
      ensures sealFailures == old(sealFailures)
    {
      secureMode, txAead, txNoncePrefix, txSequence := secure, aead, noncePrefix, 0;
      ResetTxPending();
      sent, accepted, discarded := [], [], false;
    }

    method ResetTxPending()
      modifies this`txPendingLength, this`txPendingOffset
      ensures txPendingLength == txPendingOffset == 0
    {
      txPendingLength, txPendingOffset := 0, 0;
    }

    function PendingTxBytes(): (count: nat)
      reads this
    {
      if txPendingOffset >= txPendingLength then 0 else txPendingLength - txPendingOffset
    }

    method RecordTxDrop(bytes: nat)
      requires Valid()
      modifies this`txDroppedBytes, this`txDroppedWrites, this`trueDroppedBytes, this`trueDroppedWrites
      ensures Valid()
      ensures trueDroppedBytes == old(trueDroppedBytes) + bytes
      ensures trueDroppedWrites == old(trueDroppedWrites) + if bytes == 0 then 0 else 1
    {
      if bytes == 0 {
        return;
      }
      trueDroppedBytes, trueDroppedWrites := trueDroppedBytes + bytes, trueDroppedWrites + 1;
      if UINT64_MAX - txDroppedBytes < bytes {
        txDroppedBytes := UINT64_MAX;
      } else {
        txDroppedBytes := txDroppedBytes + bytes;
      }
      if txDroppedWrites != UINT32_MAX {
        txDroppedWrites := txDroppedWrites + 1;
      }
    }

    method ClearTxDropCounters()
      requires Valid()
      modifies this`txDroppedBytes, this`txDroppedWrites, this`trueDroppedBytes, this`trueDroppedWrites
      ensures Valid() && trueDroppedBytes == trueDroppedWrites == 0
    {
      txDroppedBytes, txDroppedWrites, trueDroppedBytes, trueDroppedWrites := 0, 0, 0, 0;
    }

    // Seals `data` as the next record.  Refusal consumes no sequence number and seals nothing.
    method StageSecureRecord(data: Bytes) returns (ok: bool)
      requires Valid() && !discarded
      modifies this`txSequence, this`txPendingLength, this`txPendingOffset, this`accepted, this`sealFailures,
               txPending, txAead
      ensures Valid() && !discarded
      ensures !ok ==>
                || !secureMode || |data| == 0 || |data| > MAX_RECORD || old(Pending()) != []
                || sealFailures > old(sealFailures)
      ensures ok ==> sealFailures == old(sealFailures)
      ensures ok ==>
                && secureMode && 1 <= |data| <= MAX_RECORD && old(Pending()) == []
                && txSequence == old(txSequence) + 1 <= UINT64_MAX
                && |txAead.log| == |old(txAead.log)| + 1 && txAead.log[..|old(txAead.log)|] == old(txAead.log)
                && txAead.log[old(txSequence)].plain == data
                && accepted == old(accepted) + data
      ensures !ok ==>
                && txAead.log == old(txAead.log) && txSequence == old(txSequence)
                && accepted == old(accepted) && Pending() == old(Pending())
    {
      var size := |data|;
      if !secureMode || size == 0 || size > MAX_RECORD || txSequence == UINT64_MAX || PendingTxBytes() != 0 {
        sealFailures := sealFailures + if txSequence == UINT64_MAX then 1 else 0;
        return false;
      }
      var header := WriteHeader(size);
      var nonce := Nonce(txNoncePrefix, txSequence);
      var cipherFails: bool := *;
      if cipherFails {
        sealFailures := sealFailures + 1;
        ResetTxPending();
        return false;
      }
      SealRecord(nonce, header, data);
      return true;
    }

    method SealRecord(nonce: Bytes, header: Bytes, data: Bytes)
      requires Valid() && !discarded && secureMode && PendingTxBytes() == 0
      requires 1 <= |data| <= MAX_RECORD && txSequence < UINT64_MAX
      requires nonce == Nonce(txNoncePrefix, txSequence)
      requires header == Header(|data|, txSequence) && txPending[..HEADER_SIZE] == header
      modifies this`txSequence, this`txPendingLength, this`txPendingOffset, this`accepted, txPending, txAead
      ensures Valid()
      ensures txSequence == old(txSequence) + 1 <= UINT64_MAX
      ensures |txAead.log| == |old(txAead.log)| + 1 && txAead.log[..|old(txAead.log)|] == old(txAead.log)
      ensures txAead.log[old(txSequence)].plain == data && accepted == old(accepted) + data
    {
      hide WellNumbered, Wire, Plain, Header, Nonce;
      ghost var log := txAead.log;
      assert sent + Pending() == sent;
      var sealed := txAead.Seal(nonce, header, data);
      ghost var entry := SealEntry(nonce, header, data, sealed);
      PlainAppend(log, entry);
      WellNumberedAppend(log, txNoncePrefix, entry);
      LoadPending(header, sealed);
      SentThenPending(sent, header, sealed);
      assert sent + Pending() == Wire(log + [entry]);
      txSequence := txSequence + 1;
      accepted := accepted + data;
    }

    method WriteHeader(size: nat) returns (header: Bytes)
      requires txPending.Length == PENDING_SIZE && size <= MAX_RECORD && txSequence <= UINT64_MAX
      modifies txPending
      ensures header == Header(size, txSequence) == txPending[..HEADER_SIZE]
    {
      txPending[0] := size / 256 % 256;
      txPending[1] := size % 256;
      WriteUint64BE(txPending, 2, txSequence);
      header := txPending[..HEADER_SIZE];
      assert header == txPending[..][..HEADER_SIZE];
      HeaderBytes(size, txSequence);
    }

    method LoadPending(header: Bytes, sealed: Bytes)
      requires txPending.Length == PENDING_SIZE && HEADER_SIZE + |sealed| <= PENDING_SIZE
      requires |header| == HEADER_SIZE && txPending[..HEADER_SIZE] == header
      modifies this`txPendingLength, this`txPendingOffset, txPending
      ensures txPendingOffset <= txPendingLength <= PENDING_SIZE && Pending() == header + sealed
    {
      forall i | 0 <= i < |sealed| {
        txPending[HEADER_SIZE + i] := sealed[i];
      }
      txPendingOffset, txPendingLength := 0, HEADER_SIZE + |sealed|;
    }

    // Raw mode: the chunk itself becomes pending.
    method StageRaw(data: Bytes)
      requires Valid() && !discarded && !secureMode && PendingTxBytes() == 0 && |data| <= MAX_RECORD
      modifies this`txPendingLength, this`txPendingOffset, this`accepted, txPending
      ensures Valid() && accepted == old(accepted) + data
    {
      forall i | 0 <= i < |data| {
        txPending[i] := data[i];
      }
      txPendingOffset, txPendingLength := 0, |data|;
      assert Pending() == data;
      accepted := accepted + data;
    }

    // The socket took the first `count` pending bytes.
    method Consume(count: nat)
      requires Valid() && !discarded && 0 < count <= |Pending()|
      modifies this`txPendingLength, this`txPendingOffset, this`sent
      ensures Valid() && sent == old(sent) + old(Pending())[..count] && Pending() == old(Pending())[count..]
    {
      ghost var pending := Pending();
      txPendingOffset := txPendingOffset + count;
      assert pending == pending[..count] + Pending();
      SentThenPending(sent, pending[..count], Pending());
      sent := sent + pending[..count];
      if txPendingOffset >= txPendingLength {
        ResetTxPending();
      }
    }

    // What each answer of the socket means for the pending bytes and the session.
    ghost predicate Handled(result: SendResult, close: bool, pending: Bytes, taken: Bytes) {
      match result
      case Sent(count) => count <= |pending| && taken == pending[..count] && (close <==> count == 0)
      case WouldBlock => taken == [] && !close
      case SendFailed => taken == [] && close
    }

    // At most one non-blocking send of what is pending.  `close` asks for the session to end.
    method DrainTxPending(client: Client, protocolReady: bool) returns (close: bool, ghost taken: Bytes)
      requires Valid()
      modifies this`txPendingLength, this`txPendingOffset, this`sent, this`discarded
      modifies client`up, client`wire, client`faults, client`sends
      ensures Valid()
      ensures client.up ==> old(client.up)
      ensures client.wire == old(client.wire) + taken && sent == old(sent) + taken && taken <= old(Pending())
      ensures !old(client.up) ==> taken == []
      ensures client.faults >= old(client.faults)
      ensures client.faults == old(client.faults) && old(client.up) && protocolReady ==>
                !close && client.up && Pending() == [] && discarded == old(discarded)
      ensures discarded && !old(discarded) ==> !client.up || !protocolReady
      ensures old(client.sends) <= client.sends && |client.sends| <= |old(client.sends)| + 1
      ensures client.sends != old(client.sends) ==> Handled(client.sends[|old(client.sends)|], close, old(Pending()), taken)
      ensures client.sends == old(client.sends) ==> taken == [] && (close ==> client.faults > old(client.faults))
      ensures Pending() == if discarded && !old(discarded) then [] else old(Pending())[|taken|..]
    {
      hide Wire, Plain, WellNumbered;
      taken := [];
      close := false;
      if PendingTxBytes() == 0 {
        ResetTxPending();
        return;
      }
      var present := client.Present();
      var connected := client.Connected();
      if !present || !connected || !protocolReady {
        discarded := true;
        ResetTxPending();
        return;
      }
      var fd := client.Descriptor();
      if fd < 0 {
        close := true;
        return;
      }
      ghost var pending := Pending();
      var result := client.Send(txPending[txPendingOffset..txPendingLength]);
      match result
      case Sent(count) =>
        if count == 0 {
          close := true;
          assert pending[..0] == [];
          return;
        }
        taken := pending[..count];
        Consume(count);
      case WouldBlock =>
      case SendFailed =>
        close := true;
    }
  }

  lemma SentThenPending(sent: Bytes, bytes: Bytes, rest: Bytes)
    ensures sent + bytes + rest == sent + (bytes + rest)
  {
  }

  lemma HeaderBytes(size: nat, sequence: nat)
    requires size <= MAX_RECORD
    ensures Header(size, sequence) == [size / 256 % 256, size % 256] + BE(8, sequence)
  {
    assert BE(2, size) == BE(1, size / 256) + [size % 256];
    assert BE(1, size / 256) == BE(0, size / 256 / 256) + [size / 256 % 256];
  }
}
