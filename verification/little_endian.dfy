/**
 * Unsigned little-endian integers over bytes: the layout of `u32::to_le_bytes`
 * on the server and of `DataView.getBigUint64(offset, true)` in the browser.
 */
module LittleEndian {

  type Byte = b: int | 0 <= b < 256

  /** Unsigned 32-bit integers, as returned by `RngCore::next_u32`. */
  type U32 = v: int | 0 <= v < 0x1_0000_0000

  /** Unsigned 64-bit integers, as returned by `getBigUint64`. */
  type U64 = v: int | 0 <= v < 0x1_0000_0000_0000_0000

  /** 256 to the power k: one more than the largest value k bytes can hold. */
  function Pow256(k: nat): (r: nat)
    ensures r > 0
  {
    if k == 0 then 1 else 256 * Pow256(k - 1)
  }

  lemma Pow256Widths()
    ensures Pow256(4) == 0x1_0000_0000
    ensures Pow256(8) == 0x1_0000_0000_0000_0000
  {
    assert Pow256(2) == 0x1_0000;
    assert Pow256(4) == 0x1_0000_0000;
    assert Pow256(6) == 0x1_0000_0000_0000;
  }

  /** The unsigned value of bytes read least significant first. */
  function LeValue(s: seq<Byte>): (v: nat)
    ensures v < Pow256(|s|)
  {
    if s == [] then 0 else s[0] + 256 * LeValue(s[1..])
  }

  /** The `width` low-order bytes of `v`, least significant first. */
  function LeBytes(v: nat, width: nat): (s: seq<Byte>)
    ensures |s| == width
  {
    if width == 0 then [] else [v % 256] + LeBytes(v / 256, width - 1)
  }

  /** Decoding the encoding of a value that fits gives the value back. */
  lemma {:induction false} LeValueOfLeBytes(v: nat, width: nat)
    requires v < Pow256(width)
    ensures LeValue(LeBytes(v, width)) == v
  {
    if width > 0 {
      var s := LeBytes(v, width);
      assert s[1..] == LeBytes(v / 256, width - 1);
      LeValueOfLeBytes(v / 256, width - 1);
    }
  }

  /** Encoding the value of a byte string gives the byte string back. */
  lemma {:induction false} LeBytesOfLeValue(s: seq<Byte>)
    ensures LeBytes(LeValue(s), |s|) == s
  {
    if s != [] {
      var v := LeValue(s);
      assert v % 256 == s[0] && v / 256 == LeValue(s[1..]);
      LeBytesOfLeValue(s[1..]);
    }
  }

  lemma MulDistributes(c: int, x: int, p: int, y: int)
    ensures c * (x + p * y) == c * x + (c * p) * y
  {
  }

  /** The value of a concatenation: the second part holds the high-order digits. */
  lemma {:induction false} LeValueAppend(a: seq<Byte>, b: seq<Byte>)
    ensures LeValue(a + b) == LeValue(a) + Pow256(|a|) * LeValue(b)
  {
    if a == [] {
      assert a + b == b;
    } else {
      assert (a + b)[1..] == a[1..] + b;
      LeValueAppend(a[1..], b);
      var x, p, y := LeValue(a[1..]), Pow256(|a| - 1), LeValue(b);
      assert LeValue(a + b) == a[0] + 256 * (x + p * y);
      MulDistributes(256, x, p, y);
      assert Pow256(|a|) == 256 * p;
    }
  }
}
