/** The host's secure connection: records written whole, records read whole. */
module HostSecureConn {
  import opened ByteStrings
  import opened Aead
  import opened RecordLayer
  import opened NonceUse
  import opened Sockets

  // ---- Reading, as a function of what the connection will deliver ---------------------------

  datatype HostRx = HostRx(next: nat, buffered: Bytes)
  datatype ReadResult = ReadResult(st: HostRx, data: Bytes, ok: bool, rest: Bytes)

  function Hand(st: HostRx, plain: Bytes, cap: nat, rest: Bytes): ReadResult {
    var n := Min(cap, |plain|);
    ReadResult(st.(buffered := plain[n..]), plain[..n], true, rest)
  }

  // One `Read(p)` with `cap == len(p)`; `stream` is all that will arrive before reads fail.
  function HostRead(log: Log, prefix: Bytes, st: HostRx, stream: Bytes, cap: nat): ReadResult {
    if cap == 0 then ReadResult(st, [], true, stream)
    else if st.buffered != [] then Hand(st, st.buffered, cap, stream)
    else if |stream| < HEADER_SIZE then ReadResult(st, [], false, [])
    else
      var header := stream[..HEADER_SIZE];
      var rest := stream[HEADER_SIZE..];
      if !(1 <= LengthOf(header) <= MAX_RECORD) || st.next == UINT64_MAX || SequenceOf(header) != st.next
      then ReadResult(st, [], false, rest)
      else if |rest| < LengthOf(header) + TAG_SIZE then ReadResult(st, [], false, [])
      else
        var sealed, rest' := rest[..LengthOf(header) + TAG_SIZE], rest[LengthOf(header) + TAG_SIZE..];
        match OpenIn(log, Nonce(prefix, st.next), header, sealed)
        case None => ReadResult(st, [], false, rest')
        case Some(plain) => Hand(st.(next := st.next + 1), plain, cap, rest')
  }

  // Whatever arrives and however often a read is repeated after an error, what has been handed
  // out and what is buffered are the plaintext of the first `next` records.
  lemma HostReadSynchronised(log: Log, prefix: Bytes, st: HostRx, delivered: Bytes, stream: Bytes, cap: nat)
    requires WellNumbered(log, prefix) && st.next <= |log| && delivered + st.buffered == Plain(log[..st.next])
    ensures var r := HostRead(log, prefix, st, stream, cap);
            r.st.next <= |log| && delivered + r.data + r.st.buffered == Plain(log[..r.st.next])
  {
    hide WellNumbered, Plain, OpenIn, LengthOf, SequenceOf, Nonce;
    var r := HostRead(log, prefix, st, stream, cap);
    assert delivered + [] == delivered;
    if cap > 0 && st.buffered != [] {
      assert st.buffered == r.data + r.st.buffered;
      Regroup(delivered, r.data, r.st.buffered);
    } else if r.st.next != st.next {
      NewRecordSynchronised(log, prefix, st, delivered, stream, cap);
    }
  }

  lemma NewRecordSynchronised(log: Log, prefix: Bytes, st: HostRx, delivered: Bytes, stream: Bytes, cap: nat)
    requires WellNumbered(log, prefix) && st.next <= |log| && delivered + st.buffered == Plain(log[..st.next])
    requires HostRead(log, prefix, st, stream, cap).st.next != st.next
    ensures var r := HostRead(log, prefix, st, stream, cap);
            r.st.next <= |log| && delivered + r.data + r.st.buffered == Plain(log[..r.st.next])
  {
    hide WellNumbered, Plain, OpenIn, LengthOf, SequenceOf, Nonce;
    var r := HostRead(log, prefix, st, stream, cap);
    var header, rest := stream[..HEADER_SIZE], stream[HEADER_SIZE..];
    var record := header + rest[..LengthOf(header) + TAG_SIZE];
    assert record[..HEADER_SIZE] == header && record[HEADER_SIZE..] == rest[..LengthOf(header) + TAG_SIZE];
    OpenSynchronised(log, prefix, st.next, record);
    var plain := log[st.next].plain;
    assert plain == r.data + r.st.buffered && delivered + [] == delivered;
    Regroup(delivered, r.data, r.st.buffered);
  }

  // No record is empty.
  lemma HostReadGives(log: Log, prefix: Bytes, st: HostRx, stream: Bytes, cap: nat)
    requires cap > 0
    ensures var r := HostRead(log, prefix, st, stream, cap);
            r.ok ==> r.data != []
  {
  }

  // A read hands out a prefix of what one-shot decoding still has to give, and keeps the rest;
  // it fails only when decoding has nothing more to give.
  lemma HostReadIsDecode(log: Log, prefix: Bytes, st: HostRx, stream: Bytes, cap: nat)
    ensures var r := HostRead(log, prefix, st, stream, cap);
            var before, after := Decode(log, prefix, st.next, stream), Decode(log, prefix, r.st.next, r.rest);
            && (r.ok ==> st.buffered + before.plain == r.data + (r.st.buffered + after.plain))
            && (!r.ok ==> st.buffered == [] && before.plain == [] && r.data == [])
  {
    var r := HostRead(log, prefix, st, stream, cap);
    var after := Decode(log, prefix, r.st.next, r.rest);
    if cap == 0 {
      assert [] + (st.buffered + after.plain) == st.buffered + after.plain;
    } else if st.buffered != [] {
      assert st.buffered == r.data + r.st.buffered;
      Regroup(r.data, r.st.buffered, after.plain);
    } else if |stream| >= HEADER_SIZE {
      HostReadRecord(log, prefix, st, stream, cap);
    }
  }

  lemma HostReadRecord(log: Log, prefix: Bytes, st: HostRx, stream: Bytes, cap: nat)
    requires cap > 0 && st.buffered == [] && |stream| >= HEADER_SIZE
    ensures var r := HostRead(log, prefix, st, stream, cap);
            var before, after := Decode(log, prefix, st.next, stream), Decode(log, prefix, r.st.next, r.rest);
            && (r.ok ==> st.buffered + before.plain == r.data + (r.st.buffered + after.plain))
            && (!r.ok ==> before.plain == [] && r.data == [])
  {
    hide OpenIn, FromBE, LengthOf, SequenceOf, Nonce;
    var r := HostRead(log, prefix, st, stream, cap);
    var header, rest := stream[..HEADER_SIZE], stream[HEADER_SIZE..];
    HeaderOfPrefix(header, stream);
    if HeaderOk(stream, st.next) && |stream| >= RecordSize(stream) {
      var n := LengthOf(header) + TAG_SIZE;
      var record := stream[..RecordSize(stream)];
      assert record[..HEADER_SIZE] == header && record[HEADER_SIZE..] == rest[..n];
      assert stream[RecordSize(stream)..] == rest[n..];
      if r.ok {
        var plain := OpenIn(log, Nonce(prefix, st.next), header, rest[..n]).value;
        var after := Decode(log, prefix, st.next + 1, rest[n..]);
        assert plain == r.data + r.st.buffered && [] + (plain + after.plain) == plain + after.plain;
        Regroup(r.data, r.st.buffered, after.plain);
      }
    }
  }

  // Reading with a buffer of any positive size until the first error.
  function ReadUntilError(log: Log, prefix: Bytes, st: HostRx, stream: Bytes, cap: nat): Bytes
    requires cap > 0
    decreases |stream| + |st.buffered|
  {
    var r := HostRead(log, prefix, st, stream, cap);
    if !r.ok then []
    else if |r.rest| + |r.st.buffered| >= |stream| + |st.buffered| then []
    else r.data + ReadUntilError(log, prefix, r.st, r.rest, cap)
  }

  lemma HostReadShrinks(log: Log, prefix: Bytes, st: HostRx, stream: Bytes, cap: nat)
    requires cap > 0 && HostRead(log, prefix, st, stream, cap).ok
    ensures var r := HostRead(log, prefix, st, stream, cap);
            |r.rest| + |r.st.buffered| < |stream| + |st.buffered|
  {
  }

  // ... yields exactly what one-shot decoding yields.
  lemma {:induction false} ReadsYieldDecode(log: Log, prefix: Bytes, st: HostRx, stream: Bytes, cap: nat)
    requires cap > 0
    ensures ReadUntilError(log, prefix, st, stream, cap) == st.buffered + Decode(log, prefix, st.next, stream).plain
    decreases |stream| + |st.buffered|
  {
    var r := HostRead(log, prefix, st, stream, cap);
    HostReadIsDecode(log, prefix, st, stream, cap);
    if r.ok {
      HostReadShrinks(log, prefix, st, stream, cap);
      ReadsYieldDecode(log, prefix, r.st, r.rest, cap);
    }
  }

  // ---- The connection object -------------------------------------------------------------------

  ghost predicate CutShort(cut: Bytes, e: SealEntry) {
    cut <= e.aad + e.sealed && cut != e.aad + e.sealed
  }

  class SecureConn {
    const conn: Conn
    const txAead: IdealAead
    const rxAead: IdealAead
    const txNoncePrefix: Bytes
    const rxNoncePrefix: Bytes
    var txSequence: nat
    var rxSequence: nat
    var rxPlain: Bytes

    ghost const base: Bytes      // on the wire before the first record
    ghost var accepted: Bytes    // counted in the results of Write
    ghost var delivered: Bytes   // handed out by Read
    ghost var outcomes: seq<bool>  // one per record sealed: whether it was written completely

    // Every nonce sealed under, as a function of the outcomes.
    ghost predicate History()
      reads this, txAead
    {
      && Nonces(txAead.log) == SealNonces(txNoncePrefix, outcomes)
      && txSequence == Successes(outcomes)
    }

    ghost function Status(): TxStatus
      reads this
    {
      StatusOf(outcomes)
    }

    // Clean: the wire holds the records of exactly what was accepted.  Failed: those, then an
    // incomplete copy of one more record.
    ghost predicate Valid()
      reads this, conn`wire, txAead
    {
      && txAead != rxAead && History()
      && txSequence <= UINT64_MAX && rxSequence <= UINT64_MAX
      && (Status() == Clean ==>
            && WellNumbered(txAead.log, txNoncePrefix) && txSequence == |txAead.log|
            && accepted == Plain(txAead.log) && conn.wire == base + Wire(txAead.log))
      && (Status() == WriteFailed ==>
            && WellNumbered(txAead.log, txNoncePrefix) && txSequence + 1 == |txAead.log|
            && accepted == Plain(txAead.log[..txSequence])
            && exists cut :: CutShort(cut, txAead.log[txSequence])
                             && conn.wire == base + Wire(txAead.log[..txSequence]) + cut)
    }

    ghost function Rx(): HostRx
      reads this
    {
      HostRx(rxSequence, rxPlain)
    }

    constructor (conn: Conn, txAead: IdealAead, rxAead: IdealAead, txNoncePrefix: Bytes, rxNoncePrefix: Bytes)
      requires txAead != rxAead && txAead.log == []
      ensures Valid() && Status() == Clean && accepted == [] && delivered == [] && Rx() == HostRx(0, [])
      ensures this.conn == conn && this.txAead == txAead && this.rxAead == rxAead && base == conn.wire
      ensures this.txNoncePrefix == txNoncePrefix && this.rxNoncePrefix == rxNoncePrefix
    {
      this.conn, this.txAead, this.rxAead := conn, txAead, rxAead;
      this.txNoncePrefix, this.rxNoncePrefix := txNoncePrefix, rxNoncePrefix;
      txSequence, rxSequence, rxPlain := 0, 0, [];
      base, accepted, delivered, outcomes := conn.wire, [], [], [];
    }

    method WriteAll(data: Bytes) returns (ok: bool, ghost taken: Bytes)
      modifies conn`wire, conn`faults
      ensures taken <= data && conn.wire == old(conn.wire) + taken
      ensures ok <==> taken == data
      ensures conn.faults >= old(conn.faults) && (!ok ==> conn.faults > old(conn.faults))
    {
      taken := [];
      var p := data;
      while |p| > 0
        invariant conn.faults >= old(conn.faults)
        invariant data == taken + p && conn.wire == old(conn.wire) + taken
        decreases |p|
      {
        ghost var p0 := p;
        var n, good := conn.Write(p);
        Regroup(old(conn.wire), taken, p0[..n]);
        taken := taken + p0[..n];
        p := p[n..];
        assert p0 == p0[..n] + p;
        if !good || n == 0 {
          return false, taken;
        }
      }
      return true, taken;
    }

    method SendRecord(header: Bytes, sealed: Bytes) returns (ok: bool, ghost taken: Bytes)
      modifies conn`wire, conn`faults
      ensures conn.wire == old(conn.wire) + taken && taken <= header + sealed
      ensures ok <==> taken == header + sealed
      ensures conn.faults >= old(conn.faults) && (!ok ==> conn.faults > old(conn.faults))
    {
      ok, taken := WriteAll(header);
      if ok {
        ghost var more;
        ok, more := WriteAll(sealed);
        Regroup(old(conn.wire), header, more);
        assert ok || |more| < |sealed|;
        taken := taken + more;
      }
    }

    // Seals and writes one record.  A failure leaves the sequence number where it was.
    method WriteRecord(chunk: Bytes) returns (ok: bool)
      requires Valid() && 1 <= |chunk| <= MAX_RECORD && txSequence < UINT64_MAX
      modifies this`txSequence, this`accepted, this`outcomes, conn`wire, conn`faults, txAead
      ensures Valid()
      ensures old(Status()) == Clean ==>
                && Status() == (if ok then Clean else WriteFailed)
                && accepted == old(accepted) + (if ok then chunk else [])
      ensures old(Status()) != Clean ==> Status() == Reused
      ensures exists sealed :: txAead.log == old(txAead.log)
                 + [SealEntry(Nonce(txNoncePrefix, old(txSequence)), Header(|chunk|, old(txSequence)), chunk, sealed)]
      ensures txSequence == old(txSequence) + (if ok then 1 else 0)
      ensures outcomes == old(outcomes) + [ok]
      ensures conn.faults >= old(conn.faults) && (!ok ==> conn.faults > old(conn.faults))
    {
      hide Wire, Plain, WellNumbered, Header, Nonce, Nonces, SealNonces, Successes, StatusOf;
      ghost var log, clean := txAead.log, Status() == Clean;
      var header := Header(|chunk|, txSequence);
      var nonce := Nonce(txNoncePrefix, txSequence);
      var sealed := txAead.Seal(nonce, header, chunk);
      ghost var entry := SealEntry(nonce, header, chunk, sealed);
      ghost var taken;
      ok, taken := SendRecord(header, sealed);
      if clean {
        EntryFits(entry, txNoncePrefix, |log|);
        WellNumberedAppend(log, txNoncePrefix, entry);
        PlainAppend(log, entry);
        WireGrows(base, Wire(log), header, sealed);
        assert (log + [entry])[..|log|] == log;
        assert !ok ==> CutShort(taken, entry);
        accepted := accepted + if ok then chunk else [];
      }
      SealedOnce(txNoncePrefix, log, outcomes, entry, ok);
      StatusAfter(outcomes, ok);
      outcomes := outcomes + [ok];
      if ok {
        txSequence := txSequence + 1;
      }
    }

    method Write(p: Bytes) returns (total: nat, ok: bool)
      requires Valid()
      modifies this`txSequence, this`accepted, this`outcomes, conn`wire, conn`faults, txAead
      ensures Valid() && old(txAead.log) <= txAead.log
      ensures total <= |p| && (ok ==> total == |p|)
      ensures conn.faults >= old(conn.faults)
      ensures !ok ==> conn.faults > old(conn.faults) || txSequence == UINT64_MAX
      ensures old(Status()) == Clean ==>
                && accepted == old(accepted) + p[..total]
                && (ok ==> Status() == Clean)
                && (!ok ==> Status() == WriteFailed || (Status() == Clean && txSequence == UINT64_MAX))
      ensures old(Status()) != Clean ==> Status() == if txAead.log == old(txAead.log) then old(Status()) else Reused
      ensures txAead.log == old(txAead.log) ==> outcomes == old(outcomes)
      ensures ok ==> |txAead.log| == |old(txAead.log)| + (|p| + 1023) / 1024
    {
      hide Nonce, Nonces, SealNonces, Successes, StatusOf, WellNumbered, Plain, Wire;
      total := 0;
      assert p[..0] == [] && accepted + [] == accepted;
      while total < |p|
        invariant conn.faults >= old(conn.faults)
        invariant Valid() && total <= |p| && old(txAead.log) <= txAead.log
        invariant old(Status()) == Clean ==> Status() == Clean && accepted == old(accepted) + p[..total]
        invariant old(Status()) != Clean ==> Status() == if txAead.log == old(txAead.log) then old(Status()) else Reused
        invariant txAead.log == old(txAead.log) ==> outcomes == old(outcomes)
        invariant |txAead.log| == |old(txAead.log)| + (total + 1023) / 1024 && (total == |p| || total % 1024 == 0)
      {
        var chunkSize := Min(|p| - total, MAX_RECORD);
        if txSequence == UINT64_MAX {
          return total, false;
        }
        var chunk := p[total..total + chunkSize];
        var written := WriteRecord(chunk);
        if !written {
          assert old(accepted) + p[..total] + [] == old(accepted) + p[..total];
          return total, false;
        }
        Regroup(old(accepted), p[..total], chunk);
        assert p[..total] + chunk == p[..total + chunkSize];
        total := total + chunkSize;
      }
      return total, true;
    }

    // All of `size` bytes, or an error once the connection has nothing more.
    method ReadFull(size: nat) returns (bytes: Bytes, ok: bool)
      modifies conn`inbound
      ensures ok ==> |bytes| == size && old(conn.inbound) == bytes + conn.inbound
      ensures !ok ==> |old(conn.inbound)| < size && conn.inbound == []
    {
      bytes := [];
      while |bytes| < size
        invariant |bytes| <= size && old(conn.inbound) == bytes + conn.inbound
      {
        var more, good := conn.Read(size - |bytes|);
        if !good {
          return bytes, false;
        }
        Regroup(bytes, more, conn.inbound);
        bytes := bytes + more;
      }
      return bytes, true;
    }

    method Read(cap: nat) returns (data: Bytes, ok: bool)
      requires Valid()
      modifies this`rxSequence, this`rxPlain, this`delivered, conn`inbound
      ensures Valid()
      ensures HostRead(rxAead.log, rxNoncePrefix, old(Rx()), old(conn.inbound), cap)
              == ReadResult(Rx(), data, ok, conn.inbound)
      ensures delivered == old(delivered) + data
    {
      hide OpenIn, LengthOf, SequenceOf, Nonce, WellNumbered, Plain, Wire;
      ghost var stream := conn.inbound;
      assert delivered + [] == delivered;
      if cap == 0 {
        return [], true;
      }
      if |rxPlain| > 0 {
        data := Deliver(rxPlain, cap);
        return data, true;
      }
      var header, good := ReadFull(HEADER_SIZE);
      if !good {
        return [], false;
      }
      assert stream[..HEADER_SIZE] == header && stream[HEADER_SIZE..] == conn.inbound;
      var length, sequence := LengthOf(header), SequenceOf(header);
      if length <= 0 || length > MAX_RECORD || rxSequence == UINT64_MAX || sequence != rxSequence {
        return [], false;
      }
      ghost var rest := conn.inbound;
      var sealed;
      sealed, good := ReadFull(length + TAG_SIZE);
      if !good {
        return [], false;
      }
      assert rest[..length + TAG_SIZE] == sealed && rest[length + TAG_SIZE..] == conn.inbound;
      var plain := rxAead.Open(Nonce(rxNoncePrefix, sequence), header, sealed);
      if plain.None? {
        return [], false;
      }
      rxSequence := rxSequence + 1;
      data := Deliver(plain.value, cap);
      ok := true;
    }

    method Deliver(plain: Bytes, cap: nat) returns (data: Bytes)
      modifies this`rxPlain, this`delivered
      ensures data == plain[..Min(cap, |plain|)] && rxPlain == plain[Min(cap, |plain|)..]
      ensures delivered == old(delivered) + data
    {
      var n := Min(cap, |plain|);
      data, rxPlain := plain[..n], plain[n..];
      delivered := delivered + data;
    }
  }

  lemma EntryFits(e: SealEntry, prefix: Bytes, i: nat)
    requires e.nonce == Nonce(prefix, i) && e.aad == Header(|e.plain|, i)
    requires 1 <= |e.plain| <= MAX_RECORD && |e.sealed| == |e.plain| + TAG_SIZE
    ensures EntryOk(e, prefix, i)
  {
  }

  lemma WireGrows(base: Bytes, wire: Bytes, header: Bytes, sealed: Bytes)
    ensures base + wire + (header + sealed) == base + (wire + header + sealed)
  {
  }
}
