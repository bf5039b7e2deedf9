/** Bytes and little-endian words. A character below 256 stands for a byte. */
module Bytes {
  type Byte = b: nat | b < 256

  // Files and buffers are strings of such characters.
  type ByteString = s: string | forall i :: 0 <= i < |s| ==> s[i] as nat < 256 witness ""

  function Pow256(n: nat): nat { if n == 0 then 1 else 256 * Pow256(n - 1) }

  // The n bytes of v, lowest first.
  function LE(v: nat, n: nat): (s: string)
    ensures |s| == n
  {
    if n == 0 then "" else [(v % 256) as char] + LE(v / 256, n - 1)
  }

  function UnLE(s: string): nat {
    if s == "" then 0 else s[0] as nat + 256 * UnLE(s[1..])
  }

  lemma {:induction false} WordRoundTrip(v: nat, n: nat)
    requires v < Pow256(n)
    ensures UnLE(LE(v, n)) == v
  {
    if n > 0 {
      assert LE(v, n)[1..] == LE(v / 256, n - 1);
      WordRoundTrip(v / 256, n - 1);
    }
  }

  // Byte k of a word, and the word with that byte replaced.
  function ByteOf(w: nat, k: nat): Byte {
    if k == 0 then w % 256 else ByteOf(w / 256, k - 1)
  }

  function SetByte(w: nat, k: nat, b: Byte): nat {
    if k == 0 then w / 256 * 256 + b else w % 256 + 256 * SetByte(w / 256, k - 1, b)
  }

  lemma {:induction false} SetByteReads(w: nat, k: nat, b: Byte, j: nat)
    ensures ByteOf(SetByte(w, k, b), j) == if j == k then b else ByteOf(w, j)
    decreases k
  {
    if k > 0 && j > 0 {
      SetByteReads(w / 256, k - 1, b, j - 1);
    }
  }

  lemma {:induction false} SetByteFits(w: nat, k: nat, b: Byte, n: nat)
    requires k < n && w < Pow256(n)
    ensures SetByte(w, k, b) < Pow256(n)
    decreases k
  {
    var p := Pow256(n - 1);
    assert Pow256(n) == 256 * p && w / 256 <= p - 1;
    if k > 0 {
      SetByteFits(w / 256, k - 1, b, n - 1);
    } else {
      assert SetByte(w, k, b) == w / 256 * 256 + b;
    }
  }

  lemma EightBytes()
    ensures Pow256(8) == 0x1_0000_0000_0000_0000
  {
    assert Pow256(1) == 256 && Pow256(2) == 0x1_0000 && Pow256(3) == 0x100_0000 && Pow256(4) == 0x1_0000_0000;
    assert Pow256(5) == 0x100_0000_0000 && Pow256(6) == 0x1_0000_0000_0000;
    assert Pow256(7) == 0x100_0000_0000_0000;
  }
}
