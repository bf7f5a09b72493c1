/** Little-endian words and zero-padded 4096-byte blocks, as they lie in the image file. */
module Bytes {
  import opened Basics

  type Byte = x: int | 0 <= x < 256

  const BLKSIZE := 4096
  const BLKBITS := 32768

  type Block = b: seq<Byte> | |b| == BLKSIZE witness seq(4096, _ => 0)

  function Zeros(n: nat): seq<Byte> {
    seq(n, _ => 0)
  }

  /** write_block copies short data into a zeroed buffer. */
  function Pad(data: seq<Byte>): (b: Block)
    requires |data| <= BLKSIZE
    ensures b[..|data|] == data
    ensures forall i :: |data| <= i < BLKSIZE ==> b[i] == 0
  {
    data + Zeros(BLKSIZE - |data|)
  }

  function ByteOf(w: nat, m: nat): (b: int)
    ensures 0 <= b < 256
  {
    (if m == 0 then w
     else if m == 1 then w / 0x100
     else if m == 2 then w / 0x1_0000
     else w / 0x100_0000) % 256
  }

  /** The memory image of an array of uint32_t. */
  function Words(ws: seq<nat>): seq<Byte> {
    seq(4 * |ws|, i requires 0 <= i < 4 * |ws| => ByteOf(ws[i / 4], i % 4))
  }

  function U32(b: seq<Byte>, off: nat): nat
    requires off + 4 <= |b|
  {
    var b0: int, b1: int, b2: int, b3: int := b[off], b[off + 1], b[off + 2], b[off + 3];
    b0 + 0x100 * b1 + 0x1_0000 * b2 + 0x100_0000 * b3
  }

  lemma ByteSum(w: nat)
    requires w < M32
    ensures ByteOf(w, 0) + 0x100 * ByteOf(w, 1) + 0x1_0000 * ByteOf(w, 2) + 0x100_0000 * ByteOf(w, 3) == w
  {
    var a, b, c := w / 0x100, w / 0x1_0000, w / 0x100_0000;
    assert w == 0x100 * a + w % 0x100;
    assert b == a / 0x100 && a == 0x100 * b + a % 0x100;
    assert c == b / 0x100 && b == 0x100 * c + b % 0x100;
  }

  /** A stored word is read back unchanged, whatever follows the words in the block. */
  lemma WordsRead(ws: seq<nat>, rest: seq<Byte>, k: nat)
    requires k < |ws| && ws[k] < M32
    ensures U32(Words(ws) + rest, 4 * k) == ws[k]
  {
    var b := Words(ws) + rest;
    ByteSum(ws[k]);
    forall m | 0 <= m < 4
      ensures b[4 * k + m] == ByteOf(ws[k], m)
    {
      assert (4 * k + m) / 4 == k && (4 * k + m) % 4 == m;
    }
    assert b[4 * k] == ByteOf(ws[k], 0);
  }

  function U16(b: seq<Byte>, off: nat): nat
    requires off + 2 <= |b|
  {
    var b0: int, b1: int := b[off], b[off + 1];
    b0 + 0x100 * b1
  }

  lemma HalfSums(lo: nat, hi: nat)
    requires lo < 0x1_0000 && hi < 0x1_0000
    ensures var w := lo + 0x1_0000 * hi;
      ByteOf(w, 0) + 0x100 * ByteOf(w, 1) == lo && ByteOf(w, 2) + 0x100 * ByteOf(w, 3) == hi
  {
    var w := lo + 0x1_0000 * hi;
    assert w / 0x1_0000 == hi && w % 0x1_0000 == lo;
    assert w / 0x100_0000 == hi / 0x100;
    assert w / 0x100 == 0x100 * hi + lo / 0x100;
  }

  /** Two uint16_t fields that share a word. */
  lemma HalfWords(ws: seq<nat>, rest: seq<Byte>, k: nat, lo: nat, hi: nat)
    requires k < |ws| && lo < 0x1_0000 && hi < 0x1_0000 && ws[k] == lo + 0x1_0000 * hi
    ensures U16(Words(ws) + rest, 4 * k) == lo && U16(Words(ws) + rest, 4 * k + 2) == hi
  {
    var b := Words(ws) + rest;
    HalfSums(lo, hi);
    forall m | 0 <= m < 4
      ensures b[4 * k + m] == ByteOf(ws[k], m)
    {
      assert (4 * k + m) / 4 == k && (4 * k + m) % 4 == m;
    }
    assert b[4 * k] == ByteOf(ws[k], 0);
  }
}
