/** HKDF-SHA256 (RFC 5869) over an arbitrary 32-byte HMAC: the host's expand loop, the device's
    single block, and the session keys both derive. */
module Hkdf {
  import opened ByteStrings

  const HASH_SIZE: nat := 32
  const NONCE_SIZE: nat := 16
  const KEY_SIZE: nat := 32
  const PREFIX_SIZE: nat := 4

  datatype Hash = Hash(hmac: (Bytes, Bytes) -> Bytes)

  ghost predicate Sized(h: Hash) {
    forall key, message :: |h.hmac(key, message)| == HASH_SIZE
  }

  function Ascii(s: string): (b: Bytes)
    ensures |b| == |s|
  {
    seq(|s|, i requires 0 <= i < |s| => (s[i] as int) % 256)
  }

  // T(i) of section 2.3 of RFC 5869.
  function T(h: Hash, prk: Bytes, info: Bytes, i: nat): Bytes
    requires i <= 255
  {
    if i == 0 then [] else h.hmac(prk, T(h, prk, info, i - 1) + info + [i])
  }

  // T(1) || ... || T(n)
  function Blocks(h: Hash, prk: Bytes, info: Bytes, n: nat): Bytes
    requires n <= 255
  {
    if n == 0 then [] else Blocks(h, prk, info, n - 1) + T(h, prk, info, n)
  }

  lemma {:induction false} BlocksLength(h: Hash, prk: Bytes, info: Bytes, n: nat)
    requires Sized(h) && n <= 255
    ensures |Blocks(h, prk, info, n)| == n * HASH_SIZE
  {
    if n > 0 {
      BlocksLength(h, prk, info, n - 1);
    }
  }

  // HKDF-Expand of section 2.3: the first `length` bytes of T(1) || T(2) || ...
  ghost function Expand(h: Hash, prk: Bytes, info: Bytes, length: nat): (okm: Bytes)
    requires Sized(h) && length <= 255 * HASH_SIZE
    ensures |okm| == length
  {
    var n := (length + HASH_SIZE - 1) / HASH_SIZE;
    BlocksLength(h, prk, info, n);
    Blocks(h, prk, info, n)[..length]
  }

  lemma {:induction false} BlocksPrefix(h: Hash, prk: Bytes, info: Bytes, m: nat, n: nat)
    requires m <= n <= 255
    ensures Blocks(h, prk, info, m) <= Blocks(h, prk, info, n)
  {
    if m < n {
      BlocksPrefix(h, prk, info, m, n - 1);
    }
  }

  // A shorter output is a prefix of a longer one.
  lemma ExpandPrefix(h: Hash, prk: Bytes, info: Bytes, short: nat, long: nat)
    requires Sized(h) && short <= long <= 255 * HASH_SIZE
    ensures Expand(h, prk, info, short) == Expand(h, prk, info, long)[..short]
  {
    var m, n := (short + HASH_SIZE - 1) / HASH_SIZE, (long + HASH_SIZE - 1) / HASH_SIZE;
    BlocksPrefix(h, prk, info, m, n);
    BlocksLength(h, prk, info, m);
    BlocksLength(h, prk, info, n);
  }

  // Any prefix of enough blocks is the expansion.
  lemma ExpandFromBlocks(h: Hash, prk: Bytes, info: Bytes, length: nat, n: nat)
    requires Sized(h) && n <= 255 && length <= n * HASH_SIZE
    ensures |Blocks(h, prk, info, n)| == n * HASH_SIZE
    ensures Expand(h, prk, info, length) == Blocks(h, prk, info, n)[..length]
  {
    var m := (length + HASH_SIZE - 1) / HASH_SIZE;
    BlocksPrefix(h, prk, info, m, n);
    BlocksLength(h, prk, info, m);
    BlocksLength(h, prk, info, n);
  }

  // ---- Host ------------------------------------------------------------------------------------

  method HkdfExpand(h: Hash, prk: Bytes, info: Bytes, length: int) returns (result: Bytes)
    requires Sized(h)
    ensures length <= 0 ==> result == []
    ensures 0 < length ==> |result| == length
    ensures 0 < length <= 255 * HASH_SIZE ==> result == Expand(h, prk, info, length)
  {
    result := [];
    if length <= 0 {
      return;
    }
    var previous: Bytes := [];
    var counter: int := 1;
    ghost var n: nat := 0;
    while |result| < length
      invariant |result| <= length
      invariant length <= 255 * HASH_SIZE ==>
                  && n <= 255 && previous == T(h, prk, info, n)
                  && counter == (n + 1) % 256
                  && |Blocks(h, prk, info, n)| == n * HASH_SIZE >= |result|
                  && result == Blocks(h, prk, info, n)[..|result|]
                  && (|result| < length ==> |result| == n * HASH_SIZE)
      invariant 0 <= counter < 256
      decreases length - |result|
    {
      ghost var before := result;
      previous := h.hmac(prk, previous + info + [counter]);
      var remaining := length - |result|;
      if length <= 255 * HASH_SIZE {
        BlocksLength(h, prk, info, n + 1);
        assert before == Blocks(h, prk, info, n);
      }
      if remaining < |previous| {
        result := result + previous[..remaining];
      } else {
        result := result + previous;
      }
      n := n + 1;
      counter := (counter + 1) % 256;
    }
    if length <= 255 * HASH_SIZE {
      ExpandFromBlocks(h, prk, info, length, n);
    }
  }

  // ---- Device ----------------------------------------------------------------------------------

  method HkdfExpandSingleBlock(h: Hash, prk: Bytes, info: Bytes, length: nat) returns (output: Option<Bytes>)
    requires Sized(h)
    ensures output.Some? <==> 1 <= length <= HASH_SIZE && |info| + 1 <= 96
    ensures output.Some? ==> output.value == Expand(h, prk, info, length)
  {
    if length == 0 || length > 32 || |info| + 1 > 96 {
      return None;
    }
    var digest := h.hmac(prk, info + [1]);
    assert [] + info + [1] == info + [1] && Blocks(h, prk, info, 0) == [];
    assert T(h, prk, info, 1) == h.hmac(prk, T(h, prk, info, 0) + info + [1]);
    assert Blocks(h, prk, info, 1) == digest;
    ExpandFromBlocks(h, prk, info, length, 1);
    return Some(digest[..length]);
  }

  // ---- Session keys ----------------------------------------------------------------------------

  datatype SessionKeys = SessionKeys(
    hostToDeviceKey: Bytes, deviceToHostKey: Bytes, hostToDevicePrefix: Bytes, deviceToHostPrefix: Bytes)

  const H2D_KEY: string := "ESPNS/1 aes256-gcm host-to-device key"
  const D2H_KEY: string := "ESPNS/1 aes256-gcm device-to-host key"
  const H2D_PREFIX: string := "ESPNS/1 aes256-gcm host-to-device nonce-prefix"
  const D2H_PREFIX: string := "ESPNS/1 aes256-gcm device-to-host nonce-prefix"

  ghost function DeriveKeys(h: Hash, authKey: Bytes, clientNonce: Bytes, serverNonce: Bytes): SessionKeys
    requires Sized(h)
  {
    var prk := h.hmac(clientNonce + serverNonce, authKey);
    SessionKeys(Expand(h, prk, Ascii(H2D_KEY), KEY_SIZE), Expand(h, prk, Ascii(D2H_KEY), KEY_SIZE),
                Expand(h, prk, Ascii(H2D_PREFIX), PREFIX_SIZE), Expand(h, prk, Ascii(D2H_PREFIX), PREFIX_SIZE))
  }

  // The first block of an expansion is one HMAC, over the label and the byte 1.
  lemma FirstBlock(h: Hash, prk: Bytes, info: Bytes, length: nat)
    requires Sized(h) && length <= HASH_SIZE
    ensures Expand(h, prk, info, length) == h.hmac(prk, info + [1])[..length]
  {
    assert [] + info + [1] == info + [1] && Blocks(h, prk, info, 0) == [];
    assert T(h, prk, info, 1) == h.hmac(prk, T(h, prk, info, 0) + info + [1]);
    assert Blocks(h, prk, info, 1) == h.hmac(prk, info + [1]);
    ExpandFromBlocks(h, prk, info, length, 1);
  }

  // The second block is one over the first, the label and the byte 2.
  lemma SecondBlock(h: Hash, prk: Bytes, info: Bytes)
    requires Sized(h)
    ensures var first := h.hmac(prk, info + [1]);
            Expand(h, prk, info, 64) == first + h.hmac(prk, first + info + [2])
  {
    FirstBlock(h, prk, info, HASH_SIZE);
    ExpandFromBlocks(h, prk, info, HASH_SIZE, 1);
    ExpandFromBlocks(h, prk, info, 64, 2);
    assert Blocks(h, prk, info, 1) == Blocks(h, prk, info, 0) + T(h, prk, info, 1);
    assert T(h, prk, info, 1) == Blocks(h, prk, info, 1)[..32] == h.hmac(prk, info + [1])[..32] == h.hmac(prk, info + [1]);
    assert Blocks(h, prk, info, 2) == Blocks(h, prk, info, 1) + T(h, prk, info, 2);
    assert T(h, prk, info, 2) == h.hmac(prk, T(h, prk, info, 1) + info + [2]);
  }

  // The session keys and nonce prefixes, written out.
  ghost predicate WrittenOut(h: Hash, authKey: Bytes, clientNonce: Bytes, serverNonce: Bytes, keys: SessionKeys)
    requires Sized(h)
  {
    var prk := h.hmac(clientNonce + serverNonce, authKey);
    && keys.hostToDeviceKey == h.hmac(prk, Ascii("ESPNS/1 aes256-gcm host-to-device key") + [1])
    && keys.deviceToHostKey == h.hmac(prk, Ascii("ESPNS/1 aes256-gcm device-to-host key") + [1])
    && keys.hostToDevicePrefix == h.hmac(prk, Ascii("ESPNS/1 aes256-gcm host-to-device nonce-prefix") + [1])[..4]
    && keys.deviceToHostPrefix == h.hmac(prk, Ascii("ESPNS/1 aes256-gcm device-to-host nonce-prefix") + [1])[..4]
  }

  lemma KeysWrittenOut(h: Hash, authKey: Bytes, clientNonce: Bytes, serverNonce: Bytes)
    requires Sized(h)
    ensures WrittenOut(h, authKey, clientNonce, serverNonce, DeriveKeys(h, authKey, clientNonce, serverNonce))
  {
    var prk := h.hmac(clientNonce + serverNonce, authKey);
    FirstBlock(h, prk, Ascii(H2D_KEY), KEY_SIZE);
    FirstBlock(h, prk, Ascii(D2H_KEY), KEY_SIZE);
    FirstBlock(h, prk, Ascii(H2D_PREFIX), PREFIX_SIZE);
    FirstBlock(h, prk, Ascii(D2H_PREFIX), PREFIX_SIZE);
    hide Ascii;
    assert forall message :: |h.hmac(prk, message)| == HASH_SIZE
                             && h.hmac(prk, message)[..HASH_SIZE] == h.hmac(prk, message);
  }

  // What is authenticated under the four labels.
  function LabelInputs(): seq<Bytes> {
    [Ascii("ESPNS/1 aes256-gcm host-to-device key") + [1], Ascii("ESPNS/1 aes256-gcm device-to-host key") + [1],
     Ascii("ESPNS/1 aes256-gcm host-to-device nonce-prefix") + [1],
     Ascii("ESPNS/1 aes256-gcm device-to-host nonce-prefix") + [1]]
  }

  // The four derivations have different inputs.
  lemma LabelsDiffer()
    ensures |LabelInputs()| == 4 && forall i, j :: 0 <= i < j < 4 ==> LabelInputs()[i] != LabelInputs()[j]
  {
    LettersDiffer("ESPNS/1 aes256-gcm host-to-device key", "ESPNS/1 aes256-gcm device-to-host key", 19);
    LettersDiffer("ESPNS/1 aes256-gcm host-to-device nonce-prefix", "ESPNS/1 aes256-gcm device-to-host nonce-prefix", 19);
  }

  lemma LettersDiffer(a: string, b: string, k: nat)
    requires k < |a| && k < |b| && a[k] != b[k] && a[k] as int < 128 && b[k] as int < 128
    ensures Ascii(a) + [1] != Ascii(b) + [1]
  {
    assert (Ascii(a) + [1])[k] == a[k] as int && (Ascii(b) + [1])[k] == b[k] as int;
  }

  // Unless HMAC collides on the two labels, the directions have different keys.
  lemma DirectionsDiffer(h: Hash, authKey: Bytes, clientNonce: Bytes, serverNonce: Bytes)
    requires Sized(h)
    requires var prk, inputs := h.hmac(clientNonce + serverNonce, authKey), LabelInputs();
             inputs[0] != inputs[1] ==> h.hmac(prk, inputs[0]) != h.hmac(prk, inputs[1])
    ensures var keys := DeriveKeys(h, authKey, clientNonce, serverNonce);
            keys.hostToDeviceKey != keys.deviceToHostKey
  {
    LabelsDiffer();
    KeysWrittenOut(h, authKey, clientNonce, serverNonce);
  }

  method DeriveOnHost(h: Hash, authKey: Bytes, clientNonce: Bytes, serverNonce: Bytes) returns (keys: SessionKeys)
    requires Sized(h)
    ensures keys == DeriveKeys(h, authKey, clientNonce, serverNonce)
    ensures WrittenOut(h, authKey, clientNonce, serverNonce, keys)
  {
    var prk := h.hmac(clientNonce + serverNonce, authKey);
    var a := HkdfExpand(h, prk, Ascii(H2D_KEY), KEY_SIZE);
    var b := HkdfExpand(h, prk, Ascii(D2H_KEY), KEY_SIZE);
    var c := HkdfExpand(h, prk, Ascii(H2D_PREFIX), PREFIX_SIZE);
    var d := HkdfExpand(h, prk, Ascii(D2H_PREFIX), PREFIX_SIZE);
    keys := SessionKeys(a, b, c, d);
    KeysWrittenOut(h, authKey, clientNonce, serverNonce);
  }

  // The device derives the same four values with single blocks, and never fails to.
  method DeriveOnDevice(h: Hash, authKey: Bytes, clientNonce: Bytes, serverNonce: Bytes)
    returns (keys: Option<SessionKeys>)
    requires Sized(h)
    ensures keys == Some(DeriveKeys(h, authKey, clientNonce, serverNonce))
    ensures WrittenOut(h, authKey, clientNonce, serverNonce, keys.value)
  {
    var prk := h.hmac(clientNonce + serverNonce, authKey);
    var txKey := HkdfExpandSingleBlock(h, prk, Ascii(D2H_KEY), KEY_SIZE);
    var rxKey := HkdfExpandSingleBlock(h, prk, Ascii(H2D_KEY), KEY_SIZE);
    var txPrefix := HkdfExpandSingleBlock(h, prk, Ascii(D2H_PREFIX), PREFIX_SIZE);
    var rxPrefix := HkdfExpandSingleBlock(h, prk, Ascii(H2D_PREFIX), PREFIX_SIZE);
    if txKey.None? || rxKey.None? || txPrefix.None? || rxPrefix.None? {
      return None;
    }
    KeysWrittenOut(h, authKey, clientNonce, serverNonce);
    return Some(SessionKeys(rxKey.value, txKey.value, rxPrefix.value, txPrefix.value));
  }
}
