/** Bytes, and the big-endian integers of the record header and of the nonce. */
module ByteStrings {

  type byte = x: int | 0 <= x < 256
  type Bytes = seq<byte>

  datatype Option<+T> = None | Some(value: T)

  const UINT32_MAX: int := 0xFFFF_FFFF
  const UINT64_MAX: int := 0xFFFF_FFFF_FFFF_FFFF

  function Min(a: int, b: int): int {
    if a < b then a else b
  }

  function Concat(segments: seq<Bytes>): Bytes {
    if segments == [] then [] else Concat(segments[..|segments| - 1]) + segments[|segments| - 1]
  }

  lemma Regroup(a: Bytes, b: Bytes, c: Bytes)
    ensures a + b + c == a + (b + c)
  {
  }

  function Pow256(width: nat): nat {
    if width == 0 then 1 else 256 * Pow256(width - 1)
  }

  // What a C string function sees of `bytes`.
  function BeforeNul(bytes: Bytes): (s: Bytes)
    ensures |s| <= |bytes| && s == bytes[..|s|] && 0 !in s && (|s| < |bytes| ==> bytes[|s|] == 0)
  {
    if bytes == [] || bytes[0] == 0 then [] else [bytes[0]] + BeforeNul(bytes[1..])
  }

  // The `width` low-order base-256 digits of `v`, most significant first.
  function BE(width: nat, v: nat): (s: Bytes)
    ensures |s| == width
  {
    if width == 0 then [] else BE(width - 1, v / 256) + [v % 256]
  }

  function FromBE(s: Bytes): nat {
    if s == [] then 0 else FromBE(s[..|s| - 1]) * 256 + s[|s| - 1]
  }

  lemma Pow256Values()
    ensures Pow256(2) == 0x1_0000
    ensures Pow256(8) == UINT64_MAX + 1
  {
    assert Pow256(2) == 256 * Pow256(1);
    assert Pow256(4) == 256 * Pow256(3);
    assert Pow256(6) == 256 * Pow256(5);
    assert Pow256(8) == 256 * Pow256(7);
  }

  lemma {:induction false} FromBEBound(s: Bytes)
    ensures FromBE(s) < Pow256(|s|)
  {
    if s != [] {
      FromBEBound(s[..|s| - 1]);
    }
  }

  // Reading back what was written.
  lemma {:induction false} FromBEOfBE(width: nat, v: nat)
    requires v < Pow256(width)
    ensures FromBE(BE(width, v)) == v
  {
    if width > 0 {
      FromBEOfBE(width - 1, v / 256);
      assert BE(width, v)[..width - 1] == BE(width - 1, v / 256);
    }
  }

  // Writing what was read.
  lemma {:induction false} BEOfFromBE(s: Bytes)
    ensures BE(|s|, FromBE(s)) == s
  {
    if s != [] {
      BEOfFromBE(s[..|s| - 1]);
      assert s == s[..|s| - 1] + [s[|s| - 1]];
    }
  }

  lemma BEInjective(width: nat, a: nat, b: nat)
    requires a < Pow256(width) && b < Pow256(width)
    requires BE(width, a) == BE(width, b)
    ensures a == b
  {
    FromBEOfBE(width, a);
    FromBEOfBE(width, b);
  }

  // `v` with its `k` low-order base-256 digits removed.
  function Shift(v: nat, k: nat): nat {
    if k == 0 then v else Shift(v / 256, k - 1)
  }

  lemma {:induction false} ShiftOnce(v: nat, k: nat)
    ensures Shift(v, k + 1) == Shift(v, k) / 256
  {
    if k > 0 {
      ShiftOnce(v / 256, k - 1);
    }
  }

  lemma {:induction false} BEFront(k: nat, v: nat)
    ensures BE(k + 1, v) == [Shift(v, k) % 256] + BE(k, v)
  {
    if k > 0 {
      BEFront(k - 1, v / 256);
    }
  }

  method ReadUint64BE(input: array<byte>, offset: nat) returns (value: nat)
    requires offset + 8 <= input.Length
    ensures value == FromBE(input[offset..offset + 8])
    ensures value <= UINT64_MAX
  {
    value := 0;
    Pow256Values();
    for i := 0 to 8
      invariant value == FromBE(input[offset..offset + i])
    {
      var next := input[offset..offset + i + 1];
      assert next[..i] == input[offset..offset + i];
      FromBEBound(next);
      PowMonotone(i + 1, 8);
      value := (value * 256) % (UINT64_MAX + 1) + input[offset + i];
    }
    FromBEBound(input[offset..offset + 8]);
  }

  lemma {:induction false} PowMonotone(a: nat, b: nat)
    requires a <= b
    ensures Pow256(a) <= Pow256(b)
  {
    if a < b {
      PowMonotone(a, b - 1);
    }
  }

  method WriteUint64BE(output: array<byte>, offset: nat, value: nat)
    requires offset + 8 <= output.Length
    requires value <= UINT64_MAX
    modifies output
    ensures output[..] == old(output[..offset]) + BE(8, value) + old(output[offset + 8..])
  {
    var v := value;
    var i := 8;
    while i > 0
      invariant 0 <= i <= 8
      invariant v == Shift(value, 8 - i)
      invariant output[..offset + i] == old(output[..offset + i])
      invariant output[offset + i..offset + 8] == BE(8 - i, value)
      invariant output[offset + 8..] == old(output[offset + 8..])
    {
      ghost var k := 8 - i;
      BEFront(k, value);
      ShiftOnce(value, k);
      i := i - 1;
      ghost var before := output[offset + i + 1..offset + 8];
      ghost var front := output[..offset + i + 1];
      output[offset + i] := v % 256;
      assert output[offset + i + 1..offset + 8] == before;
      assert output[..offset + i] == front[..offset + i];
      assert output[offset + i..offset + 8] == [v % 256] + before;
      v := v / 256;
    }
    assert output[..] == output[..offset] + output[offset..offset + 8] + output[offset + 8..];
  }
}
