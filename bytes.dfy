/**
 * Fixed-width unsigned integers and their little-endian byte strings.
 * The configuration space is exposed to the guest as raw memory of packed
 * records, so each field is stored in host byte order. Virtio requires its
 * fields little-endian; this model assumes a little-endian host, where the
 * two agree and an n-byte field holding v is the n low-order bytes of v,
 * least significant first. A big-endian host, which would send every
 * multi-byte field byte-reversed, is not modelled.
 */
module Bytes {

  type u8 = x: int | 0 <= x < 0x100
  type u16 = x: int | 0 <= x < 0x1_0000
  type u32 = x: int | 0 <= x < 0x1_0000_0000
  type u64 = x: int | 0 <= x < 0x1_0000_0000_0000_0000

  /** 256^n: the number of distinct values an n-byte field can hold. */
  function Pow256(n: nat): (p: nat)
    ensures p >= 1
  {
    if n == 0 then 1 else 256 * Pow256(n - 1)
  }

  /** The widths that occur in the configuration records. */
  lemma Pow256Widths()
    ensures Pow256(1) == 0x100
    ensures Pow256(2) == 0x1_0000
    ensures Pow256(4) == 0x1_0000_0000
    ensures Pow256(8) == 0x1_0000_0000_0000_0000
  {
  }

  /** `n` zero bytes. */
  function Zeros(n: nat): (z: seq<u8>)
    ensures |z| == n
  {
    seq(n, _ => 0)
  }

  lemma ZerosAppend(m: nat, n: nat)
    ensures Zeros(m) + Zeros(n) == Zeros(m + n)
  {
  }

  /** A slice of a slice is a slice of the whole. */
  lemma SliceOfSlice(s: seq<u8>, lo: nat, hi: nat, i: nat, j: nat)
    requires lo <= hi <= |s| && i <= j <= hi - lo
    ensures s[lo..hi][i..j] == s[lo + i..lo + j]
  {
    assert forall k :: 0 <= k < j - i ==> s[lo..hi][i..j][k] == s[lo + i + k];
  }

  /** The n-byte little-endian encoding of v; bytes of v above the n-th are dropped. */
  function LeBytes(v: nat, n: nat): (r: seq<u8>)
    ensures |r| == n
  {
    if n == 0 then [] else [v % 256] + LeBytes(v / 256, n - 1)
  }

  /** The unsigned number whose little-endian encoding is `s`. */
  function FromLe(s: seq<u8>): (v: nat)
    ensures v < Pow256(|s|)
  {
    if s == [] then 0 else s[0] + 256 * FromLe(s[1..])
  }

  /** Decoding an n-byte encoding gives back every value that fits in n bytes. */
  lemma {:induction false} FromLeBytes(v: nat, n: nat)
    requires v < Pow256(n)
    ensures FromLe(LeBytes(v, n)) == v
  {
    if n > 0 {
      assert v / 256 < Pow256(n - 1);
      FromLeBytes(v / 256, n - 1);
      assert LeBytes(v, n)[1..] == LeBytes(v / 256, n - 1);
    }
  }

  /** Every byte string is the encoding of the number it decodes to. */
  lemma {:induction false} LeBytesFromLe(s: seq<u8>)
    ensures LeBytes(FromLe(s), |s|) == s
  {
    if s != [] {
      LeBytesFromLe(s[1..]);
      var v := FromLe(s);
      assert v % 256 == s[0] && v / 256 == FromLe(s[1..]);
      assert s == [s[0]] + s[1..];
    }
  }

  /** Zero encodes to zero bytes at every width. */
  lemma {:induction false} LeBytesZero(n: nat)
    ensures LeBytes(0, n) == Zeros(n)
  {
    if n > 0 {
      LeBytesZero(n - 1);
      assert Zeros(n) == [0] + Zeros(n - 1);
    }
  }

  /** A one-byte field is the byte itself. */
  lemma LeBytesOne(v: u8)
    ensures LeBytes(v, 1) == [v]
  {
  }
}
