/** Byte strings and the few Python byte operations the protocol relies on:
    fixed-width big-endian integers (`int.to_bytes` / `int.from_bytes` with the
    protocol's BYTE_ORDER) and slices with negative bounds (`s[:-k]`, `s[-k:]`). */
module Bytes {
  import opened Wrappers

  /** One octet; a newtype over int so that byte arithmetic stays linear integer arithmetic. */
  newtype byte = x: int | 0 <= x < 256

  type Bytes = seq<byte>

  /** Width of every length field on the wire and of the message-type tag. */
  const FieldWidth: nat := 4

  function Pow256(width: nat): (r: nat)
    ensures r > 0
  {
    if width == 0 then 1 else 256 * Pow256(width - 1)
  }

  /** A length field holds any value below 2^32. */
  lemma FieldLimit()
    ensures Pow256(FieldWidth) == 0x1_0000_0000
  {
  }

  /** `n.to_bytes(width, BYTE_ORDER)`; BYTE_ORDER is taken to be big-endian. */
  function ToBigEndian(n: nat, width: nat): (r: Bytes)
    requires n < Pow256(width)
    ensures |r| == width
  {
    if width == 0 then []
    else
      assert n / 256 < Pow256(width - 1);
      ToBigEndian(n / 256, width - 1) + [(n % 256) as byte]
  }

  /** `int.from_bytes(s, BYTE_ORDER)`: always a value that fits in |s| bytes. */
  function FromBigEndian(s: Bytes): (r: nat)
    ensures r < Pow256(|s|)
  {
    if s == [] then 0
    else
      var high := FromBigEndian(s[..|s| - 1]);
      var low := s[|s| - 1] as nat;
      assert high * 256 + low <= (Pow256(|s| - 1) - 1) * 256 + 255;
      high * 256 + low
  }

  lemma {:induction false} FromToBigEndian(n: nat, width: nat)
    requires n < Pow256(width)
    ensures FromBigEndian(ToBigEndian(n, width)) == n
  {
    if width > 0 {
      var q, m := n / 256, n % 256;
      DivideByBase(n, Pow256(width - 1));
      var s := ToBigEndian(n, width);
      assert s == ToBigEndian(q, width - 1) + [m as byte];
      assert s[..|s| - 1] == ToBigEndian(q, width - 1);
      assert s[|s| - 1] as nat == m;
      FromToBigEndian(q, width - 1);
      assert FromBigEndian(s) == q * 256 + m;
      assert q * 256 + m == n;
    }
  }

  lemma {:induction false} ToFromBigEndian(s: Bytes)
    ensures ToBigEndian(FromBigEndian(s), |s|) == s
  {
    if s != [] {
      var pre := s[..|s| - 1];
      var v := FromBigEndian(s);
      assert v == FromBigEndian(pre) * 256 + s[|s| - 1] as nat;
      assert v / 256 == FromBigEndian(pre);
      assert v % 256 == s[|s| - 1] as nat;
      ToFromBigEndian(pre);
      assert s == pre + [s[|s| - 1]];
    }
  }

  lemma DivideByBase(n: nat, p: nat)
    requires n < 256 * p
    ensures n / 256 < p && (n / 256) * 256 + n % 256 == n
  {
  }

  /** `n.to_bytes(4, BYTE_ORDER)`, which raises OverflowError when n does not fit. */
  function LengthField(n: nat): (r: Result<Bytes>)
    ensures r.Ok? <==> n < Pow256(FieldWidth)
    ensures r.Ok? ==> |r.value| == FieldWidth && FromBigEndian(r.value) == n
  {
    if n < Pow256(FieldWidth) then
      FromToBigEndian(n, FieldWidth);
      Ok(ToBigEndian(n, FieldWidth))
    else Err(OverflowError)
  }

  /** Python's `s[:-k]` for k >= 0: `s[:-0]` is `s[:0]`, the empty string, and a
      bound past the start is clamped to it. */
  function SliceToNegative(s: Bytes, k: nat): (r: Bytes)
    ensures k == 0 || k >= |s| ==> r == []
    ensures 0 < k < |s| ==> |r| == |s| - k && r == s[..|s| - k]
  {
    if k == 0 || k >= |s| then [] else s[..|s| - k]
  }

  /** Python's `s[-k:]` for k > 0: the last k bytes, or all of s when it is shorter. */
  function SliceFromNegative(s: Bytes, k: nat): (r: Bytes)
    requires k > 0
    ensures |r| == if k <= |s| then k else |s|
    ensures r == s[|s| - |r|..]
  {
    if k >= |s| then s else s[|s| - k..]
  }

  /** `s[:-k]` and `s[-k:]` split `head + tail` back into its parts when |tail| == k. */
  lemma NegativeSlicesSplit(head: Bytes, tail: Bytes)
    requires |tail| > 0
    ensures SliceToNegative(head + tail, |tail|) == head
    ensures SliceFromNegative(head + tail, |tail|) == tail
  {
    var s := head + tail;
    if head != [] {
      assert s[..|s| - |tail|] == head;
    }
    assert s[|s| - |tail|..] == tail;
  }

  /** Regrouping bytes written one after another. */
  lemma AppendAssociates(a: Bytes, b: Bytes, c: Bytes)
    ensures a + b + c == a + (b + c)
  {
  }

  lemma AppendAssociates4(a: Bytes, b: Bytes, c: Bytes, d: Bytes)
    ensures a + b + c + d == a + (b + c + d)
  {
  }

  /** A prefix of known length and what follows it. */
  lemma DropPrefix(prefix: Bytes, s: Bytes)
    ensures (prefix + s)[..|prefix|] == prefix && (prefix + s)[|prefix|..] == s
  {
  }

  /** Slicing bytes that more bytes follow. */
  lemma SliceAppend(s: Bytes, k: nat, rest: Bytes)
    requires k <= |s|
    ensures (s + rest)[..k] == s[..k] && (s + rest)[k..] == s[k..] + rest
  {
  }
}
