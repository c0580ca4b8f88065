/** Byte strings and the little-endian integers in them. */
module Bytes {
  type byte = x: int | 0 <= x < 256
  type Data = seq<byte>
  type Key = seq<byte>

  /** The number of values of an unsigned integer of `w` bytes. */
  function Space(w: nat): (n: nat)
    ensures n >= 1
  {
    if w == 0 then 1 else 256 * Space(w - 1)
  }

  /** `(n & 0xff << 8 * k) >> 8 * k` */
  function ByteAt(n: nat, k: nat): byte
    decreases k
  {
    if k == 0 then n % 256 else ByteAt(n / 256, k - 1)
  }

  function ToLE(n: nat, w: nat): (s: seq<byte>)
    ensures |s| == w
    decreases w
  {
    if w == 0 then [] else [n % 256] + ToLE(n / 256, w - 1)
  }

  function OfLE(s: seq<byte>): (n: nat)
    ensures n < Space(|s|)
  {
    if s == [] then 0 else s[0] + 256 * OfLE(s[1..])
  }

  /** The least significant byte comes first. */
  lemma {:induction false} ToLEAt(n: nat, w: nat, i: nat)
    requires i < w
    ensures ToLE(n, w)[i] == ByteAt(n, i)
    decreases w
  {
    if i > 0 {
      ToLEAt(n / 256, w - 1, i - 1);
    }
  }

  lemma {:induction false} OfToLE(n: nat, w: nat)
    requires n < Space(w)
    ensures OfLE(ToLE(n, w)) == n
    decreases w
  {
    if w > 0 {
      OfToLE(n / 256, w - 1);
      assert ToLE(n, w)[1..] == ToLE(n / 256, w - 1);
    }
  }

  lemma {:induction false} ToOfLE(s: seq<byte>)
    ensures ToLE(OfLE(s), |s|) == s
  {
    if s != [] {
      ToOfLE(s[1..]);
      var rest := OfLE(s[1..]);
      assert OfLE(s) % 256 == s[0] && OfLE(s) / 256 == rest;
    }
  }

  /** A fixed-size buffer of `size` bytes after copying `data` into it: too long a source is cut
      off, too short a one is followed by zeros. */
  function Fit(data: seq<byte>, size: nat): (s: seq<byte>)
    ensures |s| == size
    ensures forall i :: 0 <= i < size ==> s[i] == if i < |data| then data[i] else 0
  {
    if |data| < size then data + seq(size - |data|, _ => 0) else data[..size]
  }

  lemma FitExact(data: seq<byte>, size: nat)
    requires |data| == size
    ensures Fit(data, size) == data
  {
  }
}
