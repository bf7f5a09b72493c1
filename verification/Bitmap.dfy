/** The free-block bitmap of close_sfs: words, bits, and which bits are set. */
module Bitmap {
  import opened Basics
  import opened Bytes

  const WORD_BITS := 32

  /** Bit `k` of a word. */
  predicate Bit(w: nat, k: nat) {
    if k == 0 then w % 2 == 1 else Bit(w / 2, k - 1)
  }

  /** The word with bit `k` set. */
  function SetBit(w: nat, k: nat): nat {
    if k == 0 then (if w % 2 == 1 then w else w + 1) else 2 * SetBit(w / 2, k - 1) + w % 2
  }

  /** The bit loop: bits `start` to `end` of a bitmap are set one by one. */
  function SetBits(ws: seq<nat>, start: nat, end: nat): (r: seq<nat>)
    requires end <= WORD_BITS * |ws|
    ensures |r| == |ws|
    decreases end - start
  {
    if start >= end then ws
    else SetBits(ws[start / WORD_BITS := SetBit(ws[start / WORD_BITS], start % WORD_BITS)], start + 1, end)
  }

  /** The freemap block for block numbers base, base + 1, ... */
  function FreeWords(base: nat, next: nat, ninos: nat): (r: seq<nat>)
    ensures |r| == 1024
  {
    var zero := seq(1024, _ => 0);
    if base + BLKBITS > next then
      var start := if base < next then next - base else 0;
      var end := if base + BLKBITS > ninos then (if base < ninos then ninos - base else 0) else BLKBITS;
      SetBits(zero, start, end)
    else zero
  }

  /** The body of the freemap loop, on a zeroed buffer. */
  method FillFreemap(base: nat, next: nat, ninos: nat) returns (words: seq<nat>)
    requires base < ninos
    ensures words == FreeWords(base, next, ninos)
  {
    var data := new nat[1024](_ => 0);
    ghost var zero := seq(1024, _ => 0);
    assert data[..] == zero;
    if base + BLKBITS > next {
      var start, end := 0, BLKBITS;
      if base < next {
        start := next - base;
      }
      if base + BLKBITS > ninos {
        end := ninos - base;
      }
      var j := start;
      while j < end
        invariant end <= BLKBITS && start <= j
        invariant SetBits(data[..], j, end) == SetBits(zero, start, end)
      {
        ghost var was := data[..];
        data[j / WORD_BITS] := SetBit(data[j / WORD_BITS], j % WORD_BITS);
        assert data[..] == was[j / WORD_BITS := SetBit(was[j / WORD_BITS], j % WORD_BITS)];
        j := j + 1;
      }
    }
    words := data[..];
  }

  // ----- which bits are set

  lemma {:induction false} SetBitOk(w: nat, k: nat, l: nat)
    ensures Bit(SetBit(w, k), l) <==> l == k || Bit(w, l)
  {
    if k > 0 && l > 0 {
      SetBitOk(w / 2, k - 1, l - 1);
      assert SetBit(w, k) / 2 == SetBit(w / 2, k - 1);
    }
  }

  lemma HalfBound(w: nat, p: nat)
    ensures w < 2 * p <==> w / 2 < p
  {
  }

  lemma {:induction false} SetBitBound(w: nat, k: nat, n: nat)
    requires k < n && w < Pow2(n)
    ensures SetBit(w, k) < Pow2(n)
  {
    var p, h := Pow2(n - 1), w / 2;
    assert Pow2(n) == 2 * p && w == 2 * h + w % 2;
    HalfBound(w, p);
    if k > 0 {
      SetBitBound(h, k - 1, n - 1);
      assert SetBit(w, k) == 2 * SetBit(h, k - 1) + w % 2;
    } else {
      assert SetBit(w, 0) == 2 * h + 1;
    }
  }

  ghost predicate BitAt(ws: seq<nat>, j: nat)
    requires j < WORD_BITS * |ws|
  {
    Bit(ws[j / WORD_BITS], j % WORD_BITS)
  }

  ghost predicate Bounded(ws: seq<nat>) {
    forall i :: 0 <= i < |ws| ==> ws[i] < Pow2(WORD_BITS)
  }

  lemma {:induction false} SetBitsOk(ws: seq<nat>, start: nat, end: nat, j: nat)
    requires end <= WORD_BITS * |ws| && j < WORD_BITS * |ws| && Bounded(ws)
    ensures BitAt(SetBits(ws, start, end), j) <==> start <= j < end || BitAt(ws, j)
    ensures Bounded(SetBits(ws, start, end))
    decreases end - start
  {
    if start < end {
      var i := start / WORD_BITS;
      var ws1 := ws[i := SetBit(ws[i], start % WORD_BITS)];
      SetBitBound(ws[i], start % WORD_BITS, WORD_BITS);
      SetBitsOk(ws1, start + 1, end, j);
      SetBitOk(ws[i], start % WORD_BITS, j % WORD_BITS);
      hide SetBit, Bit, Pow2;
      assert j == start <==> j / WORD_BITS == i && j % WORD_BITS == start % WORD_BITS;
    }
  }

  lemma {:induction false} ZeroBit(k: nat)
    ensures !Bit(0, k)
  {
    if k > 0 {
      ZeroBit(k - 1);
    }
  }

  lemma Pow32()
    ensures Pow2(WORD_BITS) == M32
  {
    assert Pow2(8) == 0x100;
    assert Pow2(16) == 0x1_0000;
    assert Pow2(24) == 0x100_0000;
  }

  /** In the block for base, base + 1, ... exactly the bits of block numbers in [next, ninos) are set. */
  lemma FreeWordsOk(base: nat, next: nat, ninos: nat, j: nat)
    requires j < BLKBITS
    ensures var ws := FreeWords(base, next, ninos);
      && (Bit(ws[j / WORD_BITS], j % WORD_BITS) <==> next <= base + j < ninos)
      && (forall i :: 0 <= i < |ws| ==> ws[i] < M32)
  {
    var zero := seq(1024, _ => 0);
    ZeroBit(j % WORD_BITS);
    Pow32();
    if base + BLKBITS > next {
      var start := if base < next then next - base else 0;
      var end := if base + BLKBITS > ninos then (if base < ninos then ninos - base else 0) else BLKBITS;
      SetBitsOk(zero, start, end, j);
    }
  }
}
