/** Hexadecimal, as `bytesToHex`/`hexToBytes` on the device and encoding/hex on the host. */
module Hex {
  import opened ByteStrings
  import opened ControlFields

  function HexDigit(value: nat): (c: char)
    requires value < 16
    ensures HexValue(c) == Some(value) && !IsSeparator(White, c) && c as int < 128 && c != '\0'
  {
    if value < 10 then ('0' as int + value) as char else ('a' as int + value - 10) as char
  }

  function HexValue(c: char): (r: Option<nat>)
    ensures r.Some? ==> r.value < 16
  {
    if '0' <= c <= '9' then Some(c as int - '0' as int)
    else if 'a' <= c <= 'f' then Some(c as int - 'a' as int + 10)
    else if 'A' <= c <= 'F' then Some(c as int - 'A' as int + 10)
    else None
  }

  function HexEncode(bytes: Bytes): (s: string)
    ensures |s| == 2 * |bytes|
    ensures forall i :: 0 <= i < |s| ==> !IsSeparator(White, s[i]) && s[i] as int < 128 && s[i] != '\0'
  {
    if bytes == [] then "" else [HexDigit(bytes[0] / 16), HexDigit(bytes[0] % 16)] + HexEncode(bytes[1..])
  }

  function HexDecode(s: string): (r: Option<Bytes>)
    ensures r.Some? ==> |s| == 2 * |r.value|
  {
    if s == "" then Some([])
    else if |s| == 1 then None
    else
      match (HexValue(s[0]), HexValue(s[1]), HexDecode(s[2..]))
      case (Some(high), Some(low), Some(rest)) => Some([high * 16 + low] + rest)
      case _ => None
  }

  // Two lower-case digits a byte, the high one first.
  lemma {:induction false} HexDigits(bytes: Bytes, k: nat)
    requires k < |bytes|
    ensures HexEncode(bytes)[2 * k] == "0123456789abcdef"[bytes[k] / 16]
    ensures HexEncode(bytes)[2 * k + 1] == "0123456789abcdef"[bytes[k] % 16]
  {
    DigitLetters();
    FirstByte(bytes);
    hide HexEncode, HexDigit;
    if k > 0 {
      HexDigits(bytes[1..], k - 1);
      Behind(HexEncode(bytes)[..2], HexEncode(bytes[1..]), 2 * (k - 1));
      assert HexEncode(bytes)[..2] + HexEncode(bytes[1..]) == HexEncode(bytes);
    }
  }

  lemma FirstByte(bytes: Bytes)
    requires bytes != []
    ensures HexEncode(bytes)[0] == HexDigit(bytes[0] / 16) && HexEncode(bytes)[1] == HexDigit(bytes[0] % 16)
    ensures HexEncode(bytes)[2..] == HexEncode(bytes[1..])
  {
  }

  lemma Behind(front: string, rest: string, i: nat)
    requires |front| == 2 && i + 1 < |rest|
    ensures (front + rest)[i + 2] == rest[i] && (front + rest)[i + 3] == rest[i + 1]
  {
  }

  lemma DigitLetters()
    ensures forall v: nat :: v < 16 ==> HexDigit(v) == "0123456789abcdef"[v]
  {
  }

  lemma {:induction false} HexRoundTrip(bytes: Bytes)
    ensures HexDecode(HexEncode(bytes)) == Some(bytes)
  {
    if bytes != [] {
      var s := HexEncode(bytes);
      assert s[2..] == HexEncode(bytes[1..]);
      HexRoundTrip(bytes[1..]);
      assert [bytes[0]] + bytes[1..] == bytes;
    }
  }
}
