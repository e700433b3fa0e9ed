/** Block padding for AES (block size 16).

    `Pad` and `Unpad` are PKCS#7 padding as described in section 6.3 of RFC 5652, the
    behaviour of `Crypto.Util.Padding.pad` / `unpad` with their default style. The key store
    pads by hand (rsa_utils.py:22-23) with exactly the same computation, so it uses `Pad`
    too; it removes the padding by hand without any check (`StripKeyPadding`). */
module Padding {
  import opened Wrappers
  import opened Bytes

  /** AES.block_size. */
  const BlockSize: nat := 16

  /** Always adds between 1 and 16 bytes, each holding the number of bytes added; the
      padded length is a multiple of the block size. */
  function Pad(data: Bytes): (r: Bytes)
    ensures |r| % BlockSize == 0
    ensures |data| < |r| <= |data| + BlockSize
    ensures r[..|data|] == data
    ensures forall i | |data| <= i < |r| :: r[i] as int == |r| - |data|
  {
    var n := BlockSize - |data| % BlockSize;
    data + seq(n, _ => n as byte)
  }

  /** Padding is added even to data that is already block aligned: a whole block of 0x10. */
  lemma PadAligned(data: Bytes)
    requires |data| % BlockSize == 0
    ensures Pad(data) == data + seq(BlockSize, _ => 16 as byte)
  {
  }

  /** What `unpad` accepts: a non-empty, block-aligned string whose last byte n is between 1
      and 16 and whose last n bytes all equal n. */
  predicate WellPadded(s: Bytes)
  {
    && |s| > 0
    && |s| % BlockSize == 0
    && 1 <= s[|s| - 1] as int <= BlockSize
    && forall i | |s| - s[|s| - 1] as int <= i < |s| :: s[i] == s[|s| - 1]
  }

  /** `unpad(s, 16)`: raises ValueError unless `s` is well padded, else drops the padding.
      What it accepts and what it returns are stated by the two lemmas below. */
  function Unpad(s: Bytes): Result<Bytes>
  {
    if |s| == 0 || |s| % BlockSize != 0 then Err(ValueError)
    else
      var n := s[|s| - 1] as int;
      if n < 1 || n > BlockSize then Err(ValueError)
      else if exists i | |s| - n <= i < |s| :: s[i] != s[|s| - 1] then Err(ValueError)
      else Ok(s[..|s| - n])
  }

  /** `unpad` accepts exactly the well-padded strings. */
  lemma UnpadAcceptsWellPadded(s: Bytes)
    ensures Unpad(s).Ok? <==> WellPadded(s)
  {
  }

  /** What `unpad` returns is the one string that `pad` turns back into its input. */
  lemma PadUnpad(s: Bytes)
    requires Unpad(s).Ok?
    ensures Pad(Unpad(s).value) == s
  {
    var n := s[|s| - 1] as int;
    var x := s[..|s| - n];
    assert |x| % BlockSize == (|s| - n) % BlockSize;
    assert BlockSize - |x| % BlockSize == n;
  }

  /** `unpad` undoes `pad`. */
  lemma UnpadPad(data: Bytes)
    ensures Unpad(Pad(data)) == Ok(data)
  {
    var s := Pad(data);
    var n := |s| - |data|;
    assert s[|s| - 1] as int == n;
    assert s[..|s| - n] == data;
  }

  /** `decrypted_key[:-decrypted_key[-1]]` (rsa_utils.py:35): drops as many trailing bytes as
      the last byte says, with no check at all. A last byte of 0 or one at least the length
      leaves nothing, because of how Python reads the negative slice. */
  function StripKeyPadding(s: Bytes): (r: Bytes)
    requires |s| > 0
    ensures s[|s| - 1] == 0 || s[|s| - 1] as int >= |s| ==> r == []
    ensures 0 < s[|s| - 1] as int < |s| ==> r == s[..|s| - s[|s| - 1] as int]
  {
    SliceToNegative(s, s[|s| - 1] as nat)
  }

  /** Stripping undoes the key store's padding. */
  lemma StripKeyPaddingOfPad(key: Bytes)
    ensures StripKeyPadding(Pad(key)) == key
  {
    var s := Pad(key);
    assert s[|s| - 1] as int == |s| - |key|;
  }

  /** On every string `unpad` accepts, the unchecked strip gives the same answer; on the
      others it still returns something instead of raising. */
  lemma StripKeyPaddingAgreesWithUnpad(s: Bytes)
    requires Unpad(s).Ok?
    ensures StripKeyPadding(s) == Unpad(s).value
  {
    var x := Unpad(s).value;
    assert s[|s| - 1] as int == |s| - |x|;
    assert s[..|x|] == x;
  }
}
