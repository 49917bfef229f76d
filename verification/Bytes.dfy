/** Disk blocks as bytes, and the little-endian 32-bit words the kernel overlays on them
    (`(struct logheader *) buf->data`, `(uint*) bp->data`). */
module Bytes {

  const BSIZE := 512
  const WORDS := 128
  const U32 := 0x1_0000_0000

  type byte = x: int | 0 <= x < 256
  type uint = x: int | 0 <= x < U32
  type short = x: int | -0x8000 <= x < 0x8000
  type Block = b: seq<byte> | |b| == BSIZE witness seq(BSIZE, i => 0)

  /** The word at index `i` of a block. */
  function Word(b: Block, i: nat): (w: uint)
    requires i < WORDS
  {
    var b0: int, b1: int, b2: int, b3: int := b[4 * i], b[4 * i + 1], b[4 * i + 2], b[4 * i + 3];
    b0 + 0x100 * b1 + 0x1_0000 * b2 + 0x100_0000 * b3
  }

  /** A word is the sum of its bytes. */
  lemma WordBytes(w: uint)
    ensures w / 0x100_0000 < 0x100
    ensures w == w % 0x100 + 0x100 * (w / 0x100 % 0x100)
                 + 0x1_0000 * (w / 0x1_0000 % 0x100) + 0x100_0000 * (w / 0x100_0000)
  {
    assert w / 0x100 / 0x100 == w / 0x1_0000;
    assert w / 0x1_0000 / 0x100 == w / 0x100_0000;
  }

  /** Store four bytes at word index `i`. */
  function PutBytes(b: Block, i: nat, b0: byte, b1: byte, b2: byte, b3: byte): (r: Block)
    requires i < WORDS
    ensures r[4 * i] == b0 && r[4 * i + 1] == b1 && r[4 * i + 2] == b2 && r[4 * i + 3] == b3
    ensures forall k :: 0 <= k < BSIZE && !(4 * i <= k < 4 * i + 4) ==> r[k] == b[k]
  {
    b[4 * i := b0][4 * i + 1 := b1][4 * i + 2 := b2][4 * i + 3 := b3]
  }

  /** Store `w` at word index `i`. */
  function PutWord(b: Block, i: nat, w: uint): (r: Block)
    requires i < WORDS
    ensures Word(r, i) == w
    ensures forall j: nat :: j < WORDS && j != i ==> Word(r, j) == Word(b, j)
  {
    WordBytes(w);
    PutBytes(b, i, w % 0x100, w / 0x100 % 0x100, w / 0x1_0000 % 0x100, w / 0x100_0000)
  }

  /** Zero-filled block, as `memset(bp->data, 0, BSIZE)` leaves it. */
  function ZeroBlock(): (r: Block)
    ensures forall i: nat :: i < WORDS ==> Word(r, i) == 0
  {
    seq(BSIZE, i => 0)
  }

  type Disk = seq<Block>

  /** One sector write. */
  datatype Write = Write(sector: nat, data: Block)

  /** A disk after a sequence of sector writes. */
  function Apply(d: Disk, ws: seq<Write>): (r: Disk)
    ensures |r| == |d|
  {
    if ws == [] then d
    else
      var w, before := ws[|ws| - 1], Apply(d, ws[..|ws| - 1]);
      if w.sector < |d| then before[w.sector := w.data] else before
  }

  /** No value occurs at two positions. */
  predicate Distinct<T(==)>(s: seq<T>)
  {
    forall i, j :: 0 <= i < j < |s| ==> s[i] != s[j]
  }
}
