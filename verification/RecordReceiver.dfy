/** Receiving half of the device's record layer: reassembly of records from whatever the socket
    holds at each call, decryption, and the plaintext buffer that `read` empties. */
module RecordReceiver {
  import opened ByteStrings
  import opened Aead
  import opened RecordLayer
  import opened Sockets

  class Receiver {
    var rxAead: IdealAead
    var rxNoncePrefix: Bytes
    var rxSequence: nat

    const rxRecordHeader: array<byte>
    var rxRecordHeaderLength: nat
    var rxCipherLength: nat
    const rxCipher: array<byte>
    var rxCipherReceived: nat
    const rxTag: array<byte>
    var rxTagReceived: nat

    const rxPlain: array<byte>
    var rxPlainLength: nat
    var rxPlainOffset: nat

    ghost var delivered: Bytes   // plaintext handed to the application in this session

    ghost predicate Buffers() {
      && rxRecordHeader.Length == HEADER_SIZE && rxCipher.Length == MAX_RECORD
      && rxTag.Length == TAG_SIZE && rxPlain.Length == MAX_RECORD
      && rxCipher != rxPlain
    }

    ghost predicate Valid()
      reads this, rxRecordHeader, rxCipher, rxTag, rxPlain
    {
      && Buffers()
      && rxPlainOffset <= rxPlainLength <= MAX_RECORD
      && rxSequence <= UINT64_MAX
      && rxRecordHeaderLength <= HEADER_SIZE
      && (rxRecordHeaderLength < HEADER_SIZE ==> rxCipherReceived == 0 && rxTagReceived == 0)
      && (rxRecordHeaderLength == HEADER_SIZE ==>
            && HeaderOk(rxRecordHeader[..], rxSequence)
            && rxCipherLength == LengthOf(rxRecordHeader[..])
            && rxCipherReceived <= rxCipherLength
            && (rxCipherReceived < rxCipherLength ==> rxTagReceived == 0)
            && rxTagReceived < TAG_SIZE)
    }

    // The bytes of the record being assembled.
    ghost function Partial(): Bytes
      requires Buffers()
      requires rxRecordHeaderLength <= HEADER_SIZE && rxCipherReceived <= MAX_RECORD && rxTagReceived <= TAG_SIZE
      reads this, rxRecordHeader, rxCipher, rxTag, rxPlain
    {
      rxRecordHeader[..rxRecordHeaderLength] + rxCipher[..rxCipherReceived] + rxTag[..rxTagReceived]
    }

    ghost function Unread(): Bytes
      requires Valid()
      reads this, rxRecordHeader, rxCipher, rxTag, rxPlain
    {
      rxPlain[rxPlainOffset..rxPlainLength]
    }

    ghost function State(): RxState
      requires Valid()
      reads this, rxRecordHeader, rxCipher, rxTag, rxPlain
    {
      Receiving(Partial(), rxSequence, delivered + Unread())
    }

    constructor (aead: IdealAead)
      ensures Valid() && fresh(rxRecordHeader) && fresh(rxCipher) && fresh(rxTag) && fresh(rxPlain)
      ensures rxAead == aead && State() == Receiving([], 0, []) && delivered == []
    {
      rxRecordHeader := new byte[HEADER_SIZE];
      rxCipher := new byte[MAX_RECORD];
      rxTag := new byte[TAG_SIZE];
      rxPlain := new byte[MAX_RECORD];
      rxAead, rxNoncePrefix, rxSequence := aead, [], 0;
      rxRecordHeaderLength, rxCipherLength, rxCipherReceived, rxTagReceived := 0, 0, 0, 0;
      rxPlainLength, rxPlainOffset, delivered := 0, 0, [];
    }

    // A session begins or ends: nothing assembled, nothing unread, sequence zero.
    method Reset(aead: IdealAead, noncePrefix: Bytes)
      requires Buffers()
      modifies this
      ensures Valid() && rxSequence == 0 && delivered == []
      ensures rxRecordHeaderLength == rxCipherReceived == rxTagReceived == rxPlainLength == 0
      ensures rxAead == aead && rxNoncePrefix == noncePrefix
    {
      rxAead, rxNoncePrefix, rxSequence := aead, noncePrefix, 0;
      ResetRxRecordAssembly();
      rxPlainLength, rxPlainOffset, delivered := 0, 0, [];
    }

    // Which is the initial decoder state.
    lemma ResetState()
      requires Valid() && rxSequence == 0 && delivered == []
      requires rxRecordHeaderLength == rxCipherReceived == rxTagReceived == rxPlainLength == 0
      ensures State() == Receiving([], 0, [])
    {
    }

    method ResetRxRecordAssembly()
      modifies this`rxRecordHeaderLength, this`rxCipherLength, this`rxCipherReceived, this`rxTagReceived
      ensures rxRecordHeaderLength == rxCipherLength == rxCipherReceived == rxTagReceived == 0
    {
      rxRecordHeaderLength, rxCipherLength, rxCipherReceived, rxTagReceived := 0, 0, 0, 0;
    }

    method DecryptSecureRecord() returns (ok: bool)
      requires Buffers()
      requires rxRecordHeaderLength == HEADER_SIZE && rxCipherReceived <= MAX_RECORD && rxTagReceived <= TAG_SIZE
      requires rxSequence <= UINT64_MAX
      modifies this`rxPlainLength, this`rxPlainOffset, this`rxSequence, rxPlain
      ensures ok <==>
                && 1 <= rxCipherLength <= MAX_RECORD && rxCipherReceived == rxCipherLength && rxTagReceived == TAG_SIZE
                && SequenceOf(rxRecordHeader[..]) == old(rxSequence)
                && OpenRecord(rxAead.log, rxNoncePrefix, old(rxSequence), Partial()).Some?
      ensures ok ==>
                && rxPlainOffset == 0 && rxPlainLength == rxCipherLength
                && rxPlain[..rxPlainLength]
                   == OpenRecord(rxAead.log, rxNoncePrefix, old(rxSequence), Partial()).value
                && rxSequence == old(rxSequence) + 1
      ensures !ok ==>
                && rxPlainOffset == old(rxPlainOffset) && rxPlainLength == old(rxPlainLength)
                && rxSequence == old(rxSequence)
    {
      if rxCipherLength == 0 || rxCipherLength > MAX_RECORD || rxCipherReceived != rxCipherLength
         || rxTagReceived != TAG_SIZE {
        return false;
      }
      var sequence := ReadUint64BE(rxRecordHeader, 2);
      if sequence != rxSequence || rxSequence == UINT64_MAX {
        return false;
      }
      assert rxRecordHeader[..][2..10] == rxRecordHeader[2..10];
      ghost var record := Partial();
      assert rxRecordHeader[..rxRecordHeaderLength] == rxRecordHeader[..] && rxTag[..rxTagReceived] == rxTag[..];
      var nonce := Nonce(rxNoncePrefix, sequence);
      var sealed := rxCipher[..rxCipherLength] + rxTag[..];
      HeaderThenSealed(rxRecordHeader[..], rxCipher[..rxCipherLength], rxTag[..]);
      var result := rxAead.Open(nonce, rxRecordHeader[..], sealed);
      if result.None? {
        return false;
      }
      var plain := result.value;
      forall i | 0 <= i < |plain| {
        rxPlain[i] := plain[i];
      }
      assert rxPlain[..|plain|] == plain;
      rxPlainLength, rxPlainOffset := rxCipherLength, 0;
      rxSequence := rxSequence + 1;
      assert rxRecordHeader[..] == old(rxRecordHeader[..]) && rxTag[..] == old(rxTag[..]);
      assert rxCipher[..rxCipherReceived] == old(rxCipher[..rxCipherReceived]);
      assert Partial() == record;
      return true;
    }

    // One pass over what the socket holds: header, ciphertext, tag.  `ok` is false when the
    // session must be closed.  In C++ the body is a `while` whose every path returns.
    method HandleSecureRx(client: Client) returns (ok: bool, ghost consumed: Bytes)
      requires Valid()
      modifies this, rxRecordHeader, rxCipher, rxTag, rxPlain, client`inbound, client`faults
      ensures ok ==> Valid()
      ensures rxAead == old(rxAead) && rxNoncePrefix == old(rxNoncePrefix) && delivered == old(delivered)
      ensures old(client.inbound) == consumed + client.inbound
      ensures client.faults >= old(client.faults)
      ensures client.faults == old(client.faults) && old(client.inbound) != [] && old(Unread()) == [] ==> consumed != []
      ensures old(Unread()) != [] ==> ok && consumed == [] && Unread() == old(Unread())
      ensures FeedAll(rxAead.log, rxNoncePrefix, old(State()), consumed)
              == if ok then State() else Failed(old(State()).out)
    {
      hide OpenIn, LengthOf, SequenceOf, RecordSize, RecordLayer.FinishRecord;
      consumed := [];
      ok := true;
      if rxPlainOffset < rxPlainLength {
        return;
      }
      var available := client.Available();
      if available == 0 {
        return;
      }
      ghost var partial, next := Partial(), rxSequence;
      assert delivered + Unread() == delivered;
      var complete;
      ok, complete, consumed := Assemble(client);
      if !ok {
        FeedDecides(rxAead.log, rxNoncePrefix, partial, next, delivered, consumed);
      } else if !complete {
        PartialIncomplete();
        FeedStays(rxAead.log, rxNoncePrefix, partial, next, delivered, consumed);
        assert delivered + Unread() == delivered;
      } else {
        WholeRecord(partial, consumed);
        FeedDecides(rxAead.log, rxNoncePrefix, partial, next, delivered, consumed);
        ok := FinishRecordInPlace();
      }
    }

    method FinishRecordInPlace() returns (ok: bool)
      requires Buffers() && rxPlainOffset == rxPlainLength <= MAX_RECORD && rxSequence <= UINT64_MAX
      requires rxRecordHeaderLength == HEADER_SIZE && rxTagReceived == TAG_SIZE
      requires HeaderOk(rxRecordHeader[..], rxSequence)
      requires rxCipherReceived == rxCipherLength == LengthOf(rxRecordHeader[..])
      modifies this`rxRecordHeaderLength, this`rxCipherLength, this`rxCipherReceived, this`rxTagReceived,
               this`rxPlainLength, this`rxPlainOffset, this`rxSequence, rxPlain
      ensures ok ==> Valid()
      ensures RecordLayer.FinishRecord(rxAead.log, rxNoncePrefix, old(Partial()), old(rxSequence), delivered)
              == if ok then State() else Failed(delivered)
    {
      ok := DecryptSecureRecord();
      if ok {
        ResetRxRecordAssembly();
        assert Partial() == [] && rxPlain[..rxPlainLength] == Unread();
      }
    }

    lemma WholeRecord(partial: Bytes, bs: Bytes)
      requires Buffers() && rxRecordHeaderLength == HEADER_SIZE && rxCipherReceived == rxCipherLength <= MAX_RECORD
      requires rxTagReceived == TAG_SIZE && bs != [] && Partial() == partial + bs
      requires HeaderOk(rxRecordHeader[..], rxSequence) && rxCipherLength == LengthOf(rxRecordHeader[..])
      ensures HeaderOk(partial + bs, rxSequence) && |partial + bs| == RecordSize(partial + bs)
      ensures SequenceOf(rxRecordHeader[..]) == rxSequence
      ensures Incomplete(partial + bs[..|bs| - 1], rxSequence)
    {
      var record := partial + bs;
      assert rxRecordHeader[..rxRecordHeaderLength] == rxRecordHeader[..];
      HeaderOfPrefix(rxRecordHeader[..], record);
      assert partial + bs[..|bs| - 1] == record[..|record| - 1];
      HeaderOfPrefix(record[..|record| - 1], record);
    }

    // The three phases.  `complete` says that a whole record is held.
    method Assemble(client: Client) returns (ok: bool, complete: bool, ghost consumed: Bytes)
      requires Valid()
      modifies this`rxRecordHeaderLength, this`rxCipherLength, this`rxCipherReceived, this`rxTagReceived,
               rxRecordHeader, rxCipher, rxTag, client`inbound, client`faults
      ensures old(client.inbound) == consumed + client.inbound
      ensures client.faults >= old(client.faults)
      ensures client.faults == old(client.faults) && old(client.inbound) != [] ==> consumed != []
      ensures ok && !complete ==> Valid() && Partial() == old(Partial()) + consumed
      ensures ok && complete ==>
                && rxRecordHeaderLength == HEADER_SIZE && rxTagReceived == TAG_SIZE
                && HeaderOk(rxRecordHeader[..], rxSequence)
                && rxCipherReceived == rxCipherLength == LengthOf(rxRecordHeader[..])
                && consumed != [] && Partial() == old(Partial()) + consumed
      ensures !ok ==> BadHeader(old(Partial()), consumed)
    {
      consumed := [];
      assert Partial() + [] == Partial();
      if rxRecordHeaderLength < HEADER_SIZE {
        ok, consumed := ReceiveHeader(client);
        if !ok || rxRecordHeaderLength < HEADER_SIZE {
          return ok, false, consumed;
        }
      }
      ghost var more;
      ok, complete, more := AssembleBody(client);
      Regroup(old(Partial()), consumed, more);
      Regroup(consumed, more, client.inbound);
      consumed := consumed + more;
    }

    method AssembleBody(client: Client) returns (ok: bool, complete: bool, ghost consumed: Bytes)
      requires Valid() && rxRecordHeaderLength == HEADER_SIZE
      modifies this`rxCipherReceived, this`rxTagReceived, rxCipher, rxTag, client`inbound, client`faults
      ensures ok && old(client.inbound) == consumed + client.inbound
      ensures client.faults >= old(client.faults)
      ensures client.faults == old(client.faults) && old(client.inbound) != [] ==> consumed != []
      ensures rxCipherReceived <= MAX_RECORD && rxTagReceived <= TAG_SIZE
      ensures Partial() == old(Partial()) + consumed
      ensures !complete ==> Valid()
      ensures complete ==> rxCipherReceived == rxCipherLength && rxTagReceived == TAG_SIZE && consumed != []
    {
      ok, complete, consumed := true, false, [];
      assert Partial() + [] == Partial();
      var available := client.Available();
      if rxCipherReceived < rxCipherLength && available > 0 {
        consumed := ReceiveCipher(client);
        if rxCipherReceived < rxCipherLength {
          return;
        }
      }
      available := client.Available();
      if rxTagReceived < TAG_SIZE && available > 0 {
        ghost var more := ReceiveTag(client);
        Regroup(old(Partial()), consumed, more);
        Regroup(consumed, more, client.inbound);
        consumed := consumed + more;
        if rxTagReceived < TAG_SIZE {
          return;
        }
      }
      complete := rxRecordHeaderLength == HEADER_SIZE && rxCipherReceived == rxCipherLength && rxTagReceived == TAG_SIZE;
    }

    // Tag bytes before the end of the ciphertext.
    ghost predicate Misfiled()
      reads this
    {
      rxCipherReceived < rxCipherLength && rxTagReceived > 0
    }

    // Why arrivals must wait for the pass to end: the same two tests when `later` arrives between
    // them.  The second test looks only at its own count, so what arrives is filed as tag bytes
    // exactly when the first test found the socket empty.
    method AssembleBodyOnArrival(client: Client, later: Bytes)
      requires Valid() && rxRecordHeaderLength == HEADER_SIZE
      modifies this`rxCipherReceived, this`rxTagReceived, rxCipher, rxTag
      modifies client`inbound, client`arrived, client`faults
      ensures Misfiled() ==> old(rxCipherReceived < rxCipherLength && client.inbound == []) && later != []
      ensures client.faults == old(client.faults) && old(rxCipherReceived < rxCipherLength && client.inbound == []) ==>
                (later != [] <==> Misfiled())
    {
      var available := client.Available();
      if rxCipherReceived < rxCipherLength && available > 0 {
        ghost var _ := ReceiveCipher(client);
        if rxCipherReceived < rxCipherLength {
          return;
        }
      }
      client.Arrive(later);
      available := client.Available();
      if rxTagReceived < TAG_SIZE && available > 0 {
        ghost var _ := ReceiveTag(client);
      }
    }

    ghost predicate BadHeader(partial: Bytes, consumed: Bytes)
      reads this
    {
      consumed != [] && |partial + consumed| == HEADER_SIZE && !HeaderOk(partial + consumed, rxSequence)
    }

    // Reads as much of `buffer[received..total]` as one socket read gives.
    method ReadInto(client: Client, buffer: array<byte>, received: nat, total: nat)
      returns (count: nat, ghost got: Bytes)
      requires received <= total <= buffer.Length
      modifies buffer, client`inbound, client`faults
      ensures received + count <= total && |got| == count
      ensures old(client.inbound) == got + client.inbound
      ensures client.faults >= old(client.faults)
      ensures client.faults == old(client.faults) && old(client.inbound) != [] && received < total ==> count > 0
      ensures buffer[..received + count] == old(buffer[..received]) + got
    {
      ghost var stream := client.inbound;
      var available := client.Available();
      var request := Min(available, total - received);
      var n := client.Read(buffer, received, request);
      if n <= 0 {
        assert buffer[..received] == buffer[..][..received];
        return 0, [];
      }
      return n, stream[..n];
    }

    method ReceiveHeader(client: Client) returns (ok: bool, ghost got: Bytes)
      requires Valid() && rxRecordHeaderLength < HEADER_SIZE
      modifies this`rxRecordHeaderLength, this`rxCipherLength, rxRecordHeader, client`inbound, client`faults
      ensures old(client.inbound) == got + client.inbound
      ensures client.faults >= old(client.faults)
      ensures client.faults == old(client.faults) && old(client.inbound) != [] ==> got != []
      ensures ok ==> Valid() && Partial() == old(Partial()) + got
      ensures ok && rxRecordHeaderLength == HEADER_SIZE ==> rxTagReceived < TAG_SIZE && rxCipherReceived == 0
      ensures !ok ==> BadHeader(old(Partial()), got)
    {
      ghost var partial := Partial();
      var count;
      count, got := ReadInto(client, rxRecordHeader, rxRecordHeaderLength, HEADER_SIZE);
      rxRecordHeaderLength := rxRecordHeaderLength + count;
      assert rxRecordHeader[..rxRecordHeaderLength] == partial + got;
      if rxRecordHeaderLength < HEADER_SIZE {
        return true, got;
      }
      assert rxRecordHeader[..] == partial + got;
      rxCipherLength := rxRecordHeader[0] as int * 256 + rxRecordHeader[1];
      LengthFromBytes(rxRecordHeader[..]);
      var sequence := ReadUint64BE(rxRecordHeader, 2);
      assert rxRecordHeader[..][2..10] == rxRecordHeader[2..10];
      ok := !(rxCipherLength == 0 || rxCipherLength > MAX_RECORD || sequence != rxSequence);
    }

    method ReceiveCipher(client: Client) returns (ghost got: Bytes)
      requires Valid() && rxRecordHeaderLength == HEADER_SIZE && rxCipherReceived < rxCipherLength
      modifies this`rxCipherReceived, rxCipher, client`inbound, client`faults
      ensures Valid()
      ensures old(client.inbound) == got + client.inbound && Partial() == old(Partial()) + got
      ensures client.faults >= old(client.faults)
      ensures client.faults == old(client.faults) && old(client.inbound) != [] ==> got != []
    {
      ghost var header, held := rxRecordHeader[..rxRecordHeaderLength], rxCipher[..rxCipherReceived];
      var count;
      count, got := ReadInto(client, rxCipher, rxCipherReceived, rxCipherLength);
      rxCipherReceived := rxCipherReceived + count;
      assert rxRecordHeader[..rxRecordHeaderLength] == header;
      assert rxTag[..rxTagReceived] == [];
      assert rxCipher[..rxCipherReceived] == held + got;
    }

    method ReceiveTag(client: Client) returns (ghost got: Bytes)
      requires Valid() && rxRecordHeaderLength == HEADER_SIZE
      modifies this`rxTagReceived, rxTag, client`inbound, client`faults
      ensures old(rxTagReceived) <= rxTagReceived <= TAG_SIZE && |got| == rxTagReceived - old(rxTagReceived)
      ensures rxTagReceived < TAG_SIZE && rxCipherReceived == rxCipherLength ==> Valid()
      ensures old(client.inbound) == got + client.inbound && Partial() == old(Partial()) + got
      ensures client.faults >= old(client.faults)
      ensures client.faults == old(client.faults) && old(client.inbound) != [] && old(rxTagReceived) < TAG_SIZE ==> got != []
    {
      ghost var header, cipher := rxRecordHeader[..rxRecordHeaderLength], rxCipher[..rxCipherReceived];
      ghost var held := rxTag[..rxTagReceived];
      var count;
      count, got := ReadInto(client, rxTag, rxTagReceived, TAG_SIZE);
      rxTagReceived := rxTagReceived + count;
      assert rxRecordHeader[..rxRecordHeaderLength] == header;
      assert rxCipher[..rxCipherReceived] == cipher;
      assert rxTag[..rxTagReceived] == held + got;
    }

    // `read(buffer, size)` once plaintext is there: one copy out of the record buffer.
    method Take(buffer: array<byte>, size: nat) returns (count: nat)
      requires Valid() && size <= buffer.Length
      requires buffer != rxPlain && buffer != rxRecordHeader && buffer != rxCipher && buffer != rxTag
      modifies this`rxPlainOffset, this`rxPlainLength, this`delivered, buffer
      ensures Valid() && State() == old(State())
      ensures count == Min(size, |old(Unread())|)
      ensures buffer[..count] == old(Unread())[..count] && Unread() == old(Unread())[count..]
      ensures delivered == old(delivered) + buffer[..count]
      ensures buffer[count..] == old(buffer[count..])
    {
      ghost var unread := Unread();
      if rxPlainOffset >= rxPlainLength {
        return 0;
      }
      count := Min(rxPlainLength - rxPlainOffset, size);
      forall i | 0 <= i < count {
        buffer[i] := rxPlain[rxPlainOffset + i];
      }
      assert buffer[..count] == unread[..count];
      Advance(count);
      Regroup(old(delivered), unread[..count], unread[count..]);
    }

    // `read()` once plaintext is there, or -1.
    method TakeByte() returns (value: int)
      requires Valid()
      modifies this`rxPlainOffset, this`rxPlainLength, this`delivered
      ensures Valid() && State() == old(State())
      ensures old(Unread()) == [] ==> value == -1 && Unread() == [] && delivered == old(delivered)
      ensures old(Unread()) != [] ==>
                && value == old(Unread())[0] && Unread() == old(Unread())[1..]
                && delivered == old(delivered) + old(Unread())[..1]
    {
      ghost var unread := Unread();
      if rxPlainOffset >= rxPlainLength {
        return -1;
      }
      value := rxPlain[rxPlainOffset];
      Advance(1);
      Regroup(old(delivered), unread[..1], unread[1..]);
    }

    method Advance(count: nat)
      requires Valid() && count <= rxPlainLength - rxPlainOffset
      modifies this`rxPlainOffset, this`rxPlainLength, this`delivered
      ensures Valid() && Unread() == old(Unread())[count..]
      ensures Partial() == old(Partial())
      ensures delivered == old(delivered) + old(Unread())[..count]
    {
      hide HeaderOk, LengthOf, SequenceOf;
      delivered := delivered + Unread()[..count];
      rxPlainOffset := rxPlainOffset + count;
      if rxPlainOffset >= rxPlainLength {
        rxPlainOffset, rxPlainLength := 0, 0;
      }
    }

    method PeekByte() returns (value: int)
      requires Valid()
      ensures value == if Unread() == [] then -1 else Unread()[0]
    {
      value := if rxPlainOffset >= rxPlainLength then -1 else rxPlain[rxPlainOffset];
    }

    // Between calls the bytes held never make up a whole record.
    lemma PartialIncomplete()
      requires Valid()
      ensures Incomplete(Partial(), rxSequence)
    {
      if rxRecordHeaderLength == HEADER_SIZE {
        assert rxRecordHeader[..rxRecordHeaderLength] == rxRecordHeader[..];
        HeaderOfPrefix(rxRecordHeader[..], Partial());
      }
    }
  }

  lemma HeaderThenSealed(header: Bytes, cipher: Bytes, tag: Bytes)
    requires |header| == HEADER_SIZE
    ensures var record := header + cipher + tag;
            record[..HEADER_SIZE] == header && record[HEADER_SIZE..] == cipher + tag
  {
  }

  lemma LengthFromBytes(h: Bytes)
    requires |h| == HEADER_SIZE
    ensures LengthOf(h) == h[0] as int * 256 + h[1]
  {
    assert h[..2][..1] == [h[0]];
    assert FromBE([h[0]]) == FromBE([]) * 256 + h[0];
  }
}
