/** The secure record format and its two pure decoders: one-shot over a whole byte string, and
    one byte at a time.  Device and host receivers are proved against these. */
module RecordLayer {
  import opened ByteStrings
  import opened Aead

  const MAX_RECORD: nat := 1024
  const HEADER_SIZE: nat := 10

  function Header(length: nat, sequence: nat): (h: Bytes)
    ensures |h| == HEADER_SIZE
  {
    BE(2, length) + BE(8, sequence)
  }

  function Nonce(prefix: Bytes, sequence: nat): Bytes {
    prefix + BE(8, sequence)
  }

  function LengthOf(header: Bytes): nat
    requires |header| >= HEADER_SIZE
  {
    FromBE(header[..2])
  }

  function SequenceOf(header: Bytes): nat
    requires |header| >= HEADER_SIZE
  {
    FromBE(header[2..10])
  }

  predicate HeaderOk(header: Bytes, next: nat)
    requires |header| >= HEADER_SIZE
  {
    1 <= LengthOf(header) <= MAX_RECORD && SequenceOf(header) == next
  }

  function RecordSize(header: Bytes): nat
    requires |header| >= HEADER_SIZE
  {
    HEADER_SIZE + LengthOf(header) + TAG_SIZE
  }

  // ---- What a sender seals -----------------------------------------------------------------

  ghost predicate EntryOk(e: SealEntry, prefix: Bytes, i: nat) {
    && e.nonce == Nonce(prefix, i)
    && e.aad == Header(|e.plain|, i)
    && 1 <= |e.plain| <= MAX_RECORD
    && |e.sealed| == |e.plain| + TAG_SIZE
  }

  // Records numbered 0, 1, 2, ... with the last sequence number never used.
  ghost predicate WellNumbered(log: Log, prefix: Bytes) {
    && |log| <= UINT64_MAX
    && forall i :: 0 <= i < |log| ==> EntryOk(log[i], prefix, i)
  }

  function Wire(log: Log): Bytes {
    if log == [] then [] else Wire(log[..|log| - 1]) + log[|log| - 1].aad + log[|log| - 1].sealed
  }

  function Plain(log: Log): Bytes {
    if log == [] then [] else Plain(log[..|log| - 1]) + log[|log| - 1].plain
  }

  lemma {:induction false} PlainPrefix(log: Log, k: nat)
    requires k <= |log|
    ensures Plain(log[..k]) <= Plain(log)
    decreases |log| - k
  {
    if k == |log| {
      assert log[..k] == log;
    } else {
      PlainPrefix(log, k + 1);
      assert log[..k + 1] == log[..k] + [log[k]];
      PlainAppend(log[..k], log[k]);
    }
  }

  lemma PlainAppend(log: Log, e: SealEntry)
    ensures Plain(log + [e]) == Plain(log) + e.plain
    ensures Wire(log + [e]) == Wire(log) + e.aad + e.sealed
  {
    assert (log + [e])[..|log|] == log;
  }

  lemma WellNumberedAppend(log: Log, prefix: Bytes, e: SealEntry)
    requires WellNumbered(log, prefix) && |log| < UINT64_MAX && EntryOk(e, prefix, |log|)
    ensures WellNumbered(log + [e], prefix)
  {
  }

  // Twelve bytes on the wire of GCM: the prefix of four, then the number, most significant byte first.
  lemma NonceLayout(prefix: Bytes, sequence: nat)
    requires sequence <= 0xFFFF_FFFF_FFFF_FFFF
    ensures |Nonce(prefix, sequence)| == |prefix| + 8 && Nonce(prefix, sequence)[..|prefix|] == prefix
    ensures FromBE(Nonce(prefix, sequence)[|prefix|..]) == sequence
  {
    Pow256Values();
    FromBEOfBE(8, sequence);
    assert Nonce(prefix, sequence)[|prefix|..] == BE(8, sequence);
  }

  // The ten bytes of a header: the length of the plaintext, high byte first, and the number likewise.
  lemma HeaderLayout(length: nat, sequence: nat)
    requires length <= 1024 && sequence <= 0xFFFF_FFFF_FFFF_FFFF
    ensures var h := Header(length, sequence);
            && |h| == 10 && h[0] == length / 256 && h[1] == length % 256
            && FromBE(h[2..]) == sequence && h[2] == sequence / 0x100_0000_0000_0000 && h[9] == sequence % 256
  {
    Pow256Values();
    FromBEOfBE(8, sequence);
    HighByte(sequence);
    assert BE(2, length) == BE(1, length / 256) + [length % 256] && BE(1, length / 256) == BE(0, 0) + [length / 256];
    assert Header(length, sequence)[2..] == BE(8, sequence);
  }

  lemma HighByte(sequence: nat)
    requires sequence <= 0xFFFF_FFFF_FFFF_FFFF
    ensures BE(8, sequence)[0] == sequence / 0x100_0000_0000_0000 && BE(8, sequence)[7] == sequence % 256
  {
    BEFront(7, sequence);
    var a := sequence / 256 / 256;
    var b := a / 256 / 256;
    assert Shift(sequence, 7) == Shift(sequence / 256, 6) == Shift(a, 5) == Shift(a / 256, 4) == Shift(b, 3);
    assert Shift(b, 3) == Shift(b / 256, 2) == Shift(b / 256 / 256, 1) == Shift(b / 256 / 256 / 256, 0);
    assert a == sequence / 0x1_0000 && b == a / 0x1_0000 && b / 256 / 256 / 256 == b / 0x100_0000;
  }

  lemma NonceInjective(prefix: Bytes, i: nat, j: nat)
    requires i <= UINT64_MAX && j <= UINT64_MAX
    requires Nonce(prefix, i) == Nonce(prefix, j)
    ensures i == j
  {
    Pow256Values();
    assert BE(8, i) == Nonce(prefix, i)[|prefix|..] == Nonce(prefix, j)[|prefix|..] == BE(8, j);
    BEInjective(8, i, j);
  }

  // No nonce is used twice under one key, and none carries the excluded last sequence number.
  lemma NoncesDistinct(log: Log, prefix: Bytes)
    requires WellNumbered(log, prefix)
    ensures forall i, j :: 0 <= i < j < |log| ==> log[i].nonce != log[j].nonce
    ensures forall i :: 0 <= i < |log| ==> log[i].nonce != Nonce(prefix, UINT64_MAX)
  {
    forall i, j | 0 <= i < j < |log| ensures log[i].nonce != log[j].nonce {
      assert EntryOk(log[i], prefix, i) && EntryOk(log[j], prefix, j);
      if log[i].nonce == log[j].nonce {
        NonceInjective(prefix, i, j);
      }
    }
    forall i | 0 <= i < |log| ensures log[i].nonce != Nonce(prefix, UINT64_MAX) {
      assert EntryOk(log[i], prefix, i);
      if log[i].nonce == Nonce(prefix, UINT64_MAX) {
        NonceInjective(prefix, i, UINT64_MAX);
      }
    }
  }

  lemma HeaderFields(length: nat, sequence: nat, rest: Bytes)
    requires length <= MAX_RECORD && sequence <= UINT64_MAX
    ensures LengthOf(Header(length, sequence) + rest) == length
    ensures SequenceOf(Header(length, sequence) + rest) == sequence
  {
    Pow256Values();
    var h := Header(length, sequence) + rest;
    assert h[..2] == BE(2, length);
    assert h[2..10] == BE(8, sequence);
    FromBEOfBE(2, length);
    FromBEOfBE(8, sequence);
  }

  // ---- One-shot decoding -------------------------------------------------------------------

  // `rest` is the incomplete tail when nothing failed.
  datatype Decoded = Decoded(plain: Bytes, next: nat, rest: Bytes, failed: bool)

  function OpenRecord(log: Log, prefix: Bytes, next: nat, record: Bytes): Option<Bytes>
    requires |record| >= HEADER_SIZE
  {
    if next == UINT64_MAX then None
    else OpenIn(log, Nonce(prefix, next), record[..HEADER_SIZE], record[HEADER_SIZE..])
  }

  function Decode(log: Log, prefix: Bytes, next: nat, stream: Bytes): Decoded
    decreases |stream|
  {
    if |stream| < HEADER_SIZE then Decoded([], next, stream, false)
    else if !HeaderOk(stream, next) then Decoded([], next, [], true)
    else if |stream| < RecordSize(stream) then Decoded([], next, stream, false)
    else
      match OpenRecord(log, prefix, next, stream[..RecordSize(stream)])
      case None => Decoded([], next, [], true)
      case Some(plain) =>
        var d := Decode(log, prefix, next + 1, stream[RecordSize(stream)..]);
        d.(plain := plain + d.plain)
  }

  // ---- Decoding one byte at a time ---------------------------------------------------------

  datatype RxState =
    | Receiving(partial: Bytes, next: nat, out: Bytes)
    | Failed(out: Bytes)

  function FinishRecord(log: Log, prefix: Bytes, record: Bytes, next: nat, out: Bytes): RxState
    requires |record| >= HEADER_SIZE
  {
    match OpenRecord(log, prefix, next, record)
    case None => Failed(out)
    case Some(plain) => Receiving([], next + 1, out + plain)
  }

  function Feed(log: Log, prefix: Bytes, st: RxState, b: byte): RxState {
    match st
    case Failed(_) => st
    case Receiving(partial, next, out) =>
      var p := partial + [b];
      if |p| < HEADER_SIZE then Receiving(p, next, out)
      else if !HeaderOk(p, next) then Failed(out)
      else if |p| < RecordSize(p) then Receiving(p, next, out)
      else FinishRecord(log, prefix, p, next, out)
  }

  function FeedAll(log: Log, prefix: Bytes, st: RxState, bs: Bytes): RxState {
    if bs == [] then st
    else Feed(log, prefix, FeedAll(log, prefix, st, bs[..|bs| - 1]), bs[|bs| - 1])
  }

  // Feeding is indifferent to how the stream is cut.
  lemma {:induction false} FeedAllConcat(log: Log, prefix: Bytes, st: RxState, a: Bytes, b: Bytes)
    ensures FeedAll(log, prefix, st, a + b) == FeedAll(log, prefix, FeedAll(log, prefix, st, a), b)
  {
    if b == [] {
      assert a + b == a;
    } else {
      var init := b[..|b| - 1];
      assert (a + b)[..|a + b| - 1] == a + init;
      FeedAllConcat(log, prefix, st, a, init);
    }
  }

  // A partial record that `Feed` can have left behind.
  ghost predicate Incomplete(partial: Bytes, next: nat) {
    |partial| < HEADER_SIZE || (HeaderOk(partial, next) && |partial| < RecordSize(partial))
  }

  lemma HeaderOfPrefix(p: Bytes, q: Bytes)
    requires HEADER_SIZE <= |p| && p <= q
    ensures LengthOf(p) == LengthOf(q) && SequenceOf(p) == SequenceOf(q)
  {
    assert p[..2] == q[..2] && p[2..10] == q[2..10];
  }

  // Bytes that neither complete the header wrongly nor the record only extend the partial record.
  lemma {:induction false} FeedStays(log: Log, prefix: Bytes, partial: Bytes, next: nat, out: Bytes, bs: Bytes)
    requires Incomplete(partial + bs, next)
    ensures FeedAll(log, prefix, Receiving(partial, next, out), bs) == Receiving(partial + bs, next, out)
  {
    if bs == [] {
      assert partial + bs == partial;
    } else {
      var init := bs[..|bs| - 1];
      var p, q := partial + init, partial + bs;
      assert p + [bs[|bs| - 1]] == q;
      if |p| >= HEADER_SIZE {
        HeaderOfPrefix(p, q);
      }
      FeedStays(log, prefix, partial, next, out, init);
    }
  }

  // The byte that completes a record, or a bad header, decides.
  lemma FeedDecides(log: Log, prefix: Bytes, partial: Bytes, next: nat, out: Bytes, bs: Bytes)
    requires bs != [] && |partial + bs| >= HEADER_SIZE && Incomplete(partial + bs[..|bs| - 1], next)
    ensures !HeaderOk(partial + bs, next) ==>
              FeedAll(log, prefix, Receiving(partial, next, out), bs) == Failed(out)
    ensures HeaderOk(partial + bs, next) && |partial + bs| == RecordSize(partial + bs) ==>
              FeedAll(log, prefix, Receiving(partial, next, out), bs)
              == FinishRecord(log, prefix, partial + bs, next, out)
  {
    var init := bs[..|bs| - 1];
    FeedStays(log, prefix, partial, next, out, init);
    assert partial + init + [bs[|bs| - 1]] == partial + bs;
  }

  lemma {:induction false} FeedFailed(log: Log, prefix: Bytes, out: Bytes, bs: Bytes)
    ensures FeedAll(log, prefix, Failed(out), bs) == Failed(out)
  {
    if bs != [] {
      FeedFailed(log, prefix, out, bs[..|bs| - 1]);
    }
  }

  function AsState(d: Decoded, out: Bytes): RxState {
    if d.failed then Failed(out + d.plain) else Receiving(d.rest, d.next, out + d.plain)
  }

  lemma FeedBadHeader(log: Log, prefix: Bytes, next: nat, out: Bytes, stream: Bytes)
    requires |stream| >= HEADER_SIZE && !HeaderOk(stream, next)
    ensures FeedAll(log, prefix, Receiving([], next, out), stream) == Failed(out)
  {
    var h, t := stream[..HEADER_SIZE], stream[HEADER_SIZE..];
    HeaderOfPrefix(h, stream);
    assert stream == h + t && [] + h == h;
    FeedAllConcat(log, prefix, Receiving([], next, out), h, t);
    FeedDecides(log, prefix, [], next, out, h);
    FeedFailed(log, prefix, out, t);
  }

  // The ten bytes of a header decide: a length that is zero or above 1024, or another number than the next,
  // ends the session there and then; any other header is kept, and the record waited for.
  lemma HeaderJudged(log: Log, prefix: Bytes, next: nat, out: Bytes, header: Bytes)
    requires |header| == 10
    ensures FeedAll(log, prefix, Receiving([], next, out), header)
            == if 1 <= (header[0] as int) * 256 + header[1] <= 1024 && FromBE(header[2..]) == next
               then Receiving(header, next, out)
               else Failed(out)
  {
    assert header[..2] == [header[0], header[1]] && header[..2][..1] == [header[0]] && header[2..10] == header[2..];
    assert FromBE([header[0]]) == FromBE([header[0]][..0]) * 256 + header[0];
    if HeaderOk(header, next) {
      assert [] + header == header;
      FeedStays(log, prefix, [], next, out, header);
    } else {
      FeedBadHeader(log, prefix, next, out, header);
    }
  }

  lemma FeedWholeRecord(log: Log, prefix: Bytes, next: nat, out: Bytes, stream: Bytes)
    requires |stream| >= HEADER_SIZE && HeaderOk(stream, next) && |stream| >= RecordSize(stream)
    ensures FeedAll(log, prefix, Receiving([], next, out), stream)
            == FeedAll(log, prefix, FinishRecord(log, prefix, stream[..RecordSize(stream)], next, out),
                       stream[RecordSize(stream)..])
  {
    var r, t := stream[..RecordSize(stream)], stream[RecordSize(stream)..];
    var init := r[..|r| - 1];
    HeaderOfPrefix(r, stream);
    HeaderOfPrefix(init, r);
    assert stream == r + t && [] + r == r && [] + init == init;
    FeedAllConcat(log, prefix, Receiving([], next, out), r, t);
    FeedDecides(log, prefix, [], next, out, r);
  }

  // The byte-at-a-time decoder computes exactly what one-shot decoding does, failing at the
  // same first bad record with the same plaintext before it.
  lemma {:induction false} FeedIsDecode(log: Log, prefix: Bytes, next: nat, out: Bytes, stream: Bytes)
    ensures FeedAll(log, prefix, Receiving([], next, out), stream)
            == AsState(Decode(log, prefix, next, stream), out)
    decreases |stream|, 1
  {
    assert [] + stream == stream && out + [] == out;
    if |stream| < HEADER_SIZE {
      FeedStays(log, prefix, [], next, out, stream);
    } else if !HeaderOk(stream, next) {
      FeedBadHeader(log, prefix, next, out, stream);
    } else if |stream| < RecordSize(stream) {
      FeedStays(log, prefix, [], next, out, stream);
    } else {
      FeedIsDecodeRecord(log, prefix, next, out, stream);
    }
  }

  lemma {:induction false} FeedIsDecodeRecord(log: Log, prefix: Bytes, next: nat, out: Bytes, stream: Bytes)
    requires |stream| >= HEADER_SIZE && HeaderOk(stream, next) && |stream| >= RecordSize(stream)
    ensures FeedAll(log, prefix, Receiving([], next, out), stream)
            == AsState(Decode(log, prefix, next, stream), out)
    decreases |stream|, 0
  {
    var r, t := stream[..RecordSize(stream)], stream[RecordSize(stream)..];
    FeedWholeRecord(log, prefix, next, out, stream);
    var result := OpenRecord(log, prefix, next, r);
    if result.None? {
      FeedFailed(log, prefix, out, t);
      assert out + [] == out;
    } else {
      FeedIsDecode(log, prefix, next + 1, out + result.value, t);
      AsStateAssociative(Decode(log, prefix, next + 1, t), out, result.value);
    }
  }

  lemma AsStateAssociative(d: Decoded, out: Bytes, plain: Bytes)
    ensures AsState(d, out + plain) == AsState(d.(plain := plain + d.plain), out)
  {
    assert out + plain + d.plain == out + (plain + d.plain);
  }

  // ---- Round trip --------------------------------------------------------------------------

  lemma OpensOwn(log: Log, prefix: Bytes, k: nat)
    requires WellNumbered(log, prefix) && k < |log|
    ensures OpenIn(log, Nonce(prefix, k), log[k].aad, log[k].sealed) == Some(log[k].plain)
  {
    assert EntryOk(log[k], prefix, k);
    var r := OpenIn(log, Nonce(prefix, k), log[k].aad, log[k].sealed);
    assert Matches(log[k], Nonce(prefix, k), log[k].aad, log[k].sealed);
    var i :| 0 <= i < |log| && Matches(log[i], Nonce(prefix, k), log[k].aad, log[k].sealed) && log[i].plain == r.value;
    assert EntryOk(log[i], prefix, i);
    NonceInjective(prefix, i, k);
  }

  lemma {:induction false} WireFrom(log: Log, k: nat)
    requires k < |log|
    ensures Wire(log[k..]) == log[k].aad + log[k].sealed + Wire(log[k + 1..])
    ensures Plain(log[k..]) == log[k].plain + Plain(log[k + 1..])
    decreases |log|
  {
    var tail := log[k..];
    if |tail| == 1 {
      assert tail[..0] == [] && log[k + 1..] == [];
    } else {
      var init := log[..|log| - 1];
      assert tail[..|tail| - 1] == init[k..] && log[k + 1..][..|tail| - 2] == init[k + 1..];
      WireFrom(init, k);
    }
  }

  // ---- Integrity: whatever the channel delivers --------------------------------------------

  // The receiver has handed out exactly the plaintext of the first `next` records.
  ghost predicate Synchronised(log: Log, st: RxState) {
    match st
    case Receiving(_, next, out) => next <= |log| && out == Plain(log[..next])
    case Failed(out) => exists k :: 0 <= k <= |log| && out == Plain(log[..k])
  }

  lemma FeedSynchronised(log: Log, prefix: Bytes, st: RxState, b: byte)
    requires WellNumbered(log, prefix) && Synchronised(log, st)
    ensures Synchronised(log, Feed(log, prefix, st, b))
  {
    match st
    case Failed(_) =>
    case Receiving(partial, next, out) =>
      var p := partial + [b];
      if |p| >= HEADER_SIZE && HeaderOk(p, next) && |p| >= RecordSize(p) {
        OpenSynchronised(log, prefix, next, p);
      }
  }

  // Only record number `next` can be opened at position `next`.
  lemma OpenSynchronised(log: Log, prefix: Bytes, next: nat, record: Bytes)
    requires WellNumbered(log, prefix) && next <= |log| && |record| >= HEADER_SIZE
    ensures OpenRecord(log, prefix, next, record).Some? ==>
              && next < |log|
              && OpenRecord(log, prefix, next, record).value == log[next].plain
              && Plain(log[..next + 1]) == Plain(log[..next]) + log[next].plain
  {
    var r := OpenRecord(log, prefix, next, record);
    if r.Some? {
      var i :| 0 <= i < |log| && Matches(log[i], Nonce(prefix, next), record[..HEADER_SIZE], record[HEADER_SIZE..])
               && log[i].plain == r.value;
      assert EntryOk(log[i], prefix, i);
      NonceInjective(prefix, i, next);
      assert log[..next + 1][..next] == log[..next];
    }
  }

  lemma {:induction false} FeedAllSynchronised(log: Log, prefix: Bytes, st: RxState, bs: Bytes)
    requires WellNumbered(log, prefix) && Synchronised(log, st)
    ensures Synchronised(log, FeedAll(log, prefix, st, bs))
  {
    if bs != [] {
      FeedAllSynchronised(log, prefix, st, bs[..|bs| - 1]);
      FeedSynchronised(log, prefix, FeedAll(log, prefix, st, bs[..|bs| - 1]), bs[|bs| - 1]);
    }
  }
}
