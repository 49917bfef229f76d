/** The free-block bitmap of fs.c: one bit per disk block, BPB of them to a bitmap block. */
module Bitmap {

  const BPB := 4096

  /** Bitmap blocks, each a string of 512 bytes. */
  type Map = seq<seq<bv8>>

  function Mask(k: nat): (m: bv8)
    requires k < 8
  {
    (1 as bv8) << k
  }

  predicate Covers(m: Map, size: nat)
  {
    && size <= |m| * BPB
    && forall q :: 0 <= q < |m| ==> |m[q]| == 512
  }

  /** The byte and the bit that stand for block `b`. */
  predicate Marked(m: Map, size: nat, b: nat)
    requires Covers(m, size) && b < size
  {
    m[b / BPB][b % BPB / 8] & Mask(b % BPB % 8) != 0
  }

  /** The map with the bit of `b` set, respectively cleared. */
  function WithMark(m: Map, size: nat, b: nat): (r: Map)
    requires Covers(m, size) && b < size
    ensures Covers(r, size)
  {
    var q, i := b / BPB, b % BPB / 8;
    m[q := m[q][i := m[q][i] | Mask(b % BPB % 8)]]
  }

  function WithoutMark(m: Map, size: nat, b: nat): (r: Map)
    requires Covers(m, size) && b < size
    ensures Covers(r, size)
  {
    var q, i := b / BPB, b % BPB / 8;
    m[q := m[q][i := m[q][i] & !Mask(b % BPB % 8)]]
  }

  lemma MarkOne(m: Map, size: nat, b: nat, c: nat)
    requires Covers(m, size) && b < size && c < size
    ensures Marked(WithMark(m, size, b), size, c) <==> (c == b || Marked(m, size, c))
  {
  }

  lemma UnmarkOne(m: Map, size: nat, b: nat, c: nat)
    requires Covers(m, size) && b < size && c < size
    ensures Marked(WithoutMark(m, size, b), size, c) <==> (c != b && Marked(m, size, c))
  {
  }

  datatype Found = Free(b: nat) | Full

  /** The scan of balloc: the lowest block whose bit is clear. */
  method FindFree(m: Map, size: nat) returns (r: Found)
    requires Covers(m, size)
    ensures r.Full? ==> forall c: nat :: c < size ==> Marked(m, size, c)
    ensures r.Free? ==> r.b < size && !Marked(m, size, r.b)
    ensures r.Free? ==> forall c: nat :: c < r.b ==> Marked(m, size, c)
  {
    var b := 0;
    while b < size
      invariant 0 <= b && b % BPB == 0
      invariant forall c: nat :: c < b && c < size ==> Marked(m, size, c)
    {
      var bi := 0;
      while bi < BPB && b + bi < size
        invariant 0 <= bi <= BPB
        invariant forall c: nat :: c < b + bi && c < size ==> Marked(m, size, c)
      {
        assert (b + bi) / BPB == b / BPB && (b + bi) % BPB == bi;
        if m[b / BPB][bi / 8] & Mask(bi % 8) == 0 {
          return Free(b + bi);
        }
        assert Marked(m, size, b + bi);
        bi := bi + 1;
      }
      b := b + BPB;
    }
    r := Full;
  }

  /** The bits as a string of booleans: the first `n` of them. */
  function MarksUpTo(m: Map, size: nat, n: nat): (r: seq<bool>)
    requires Covers(m, size) && n <= size
    ensures |r| == n
  {
    if n == 0 then [] else MarksUpTo(m, size, n - 1) + [Marked(m, size, n - 1)]
  }

  function Marks(m: Map, size: nat): (r: seq<bool>)
    requires Covers(m, size)
    ensures |r| == size
  {
    MarksUpTo(m, size, size)
  }

  lemma {:induction false} MarksAt(m: Map, size: nat, n: nat)
    requires Covers(m, size) && n <= size
    ensures forall b: nat :: b < n ==> MarksUpTo(m, size, n)[b] == Marked(m, size, b)
  {
    if n > 0 {
      MarksAt(m, size, n - 1);
    }
  }

  lemma MarksSet(m: Map, size: nat, b: nat)
    requires Covers(m, size) && b < size
    ensures Marks(WithMark(m, size, b), size) == Marks(m, size)[b := true]
  {
    var r := WithMark(m, size, b);
    MarksAt(m, size, size);
    MarksAt(r, size, size);
    forall c: nat | c < size ensures Marks(r, size)[c] == Marks(m, size)[b := true][c] {
      MarkOne(m, size, b, c);
    }
  }

  lemma MarksCleared(m: Map, size: nat, b: nat)
    requires Covers(m, size) && b < size
    ensures Marks(WithoutMark(m, size, b), size) == Marks(m, size)[b := false]
  {
    var r := WithoutMark(m, size, b);
    MarksAt(m, size, size);
    MarksAt(r, size, size);
    forall c: nat | c < size ensures Marks(r, size)[c] == Marks(m, size)[b := false][c] {
      UnmarkOne(m, size, b, c);
    }
  }

  /** `n` bitmap blocks with no bit set. */
  function Clear(n: nat): (m: Map)
    ensures |m| == n && forall q :: 0 <= q < n ==> |m[q]| == 512 && forall i :: 0 <= i < 512 ==> m[q][i] == 0
  {
    if n == 0 then [] else Clear(n - 1) + [seq(512, i => 0)]
  }

  lemma ClearMarks(n: nat, size: nat)
    requires size <= n * BPB
    ensures Covers(Clear(n), size)
    ensures forall b :: 0 <= b < size ==> !Marks(Clear(n), size)[b]
  {
    MarksAt(Clear(n), size, size);
  }

  /** Mark the blocks below `first`, as the tool that makes the image does. */
  method Reserve(n: nat, size: nat, first: nat) returns (m: Map)
    requires size <= n * BPB && first <= size
    ensures |m| == n && Covers(m, size)
    ensures forall b :: 0 <= b < size ==> (Marks(m, size)[b] <==> b < first)
  {
    ClearMarks(n, size);
    m := Clear(n);
    for b := 0 to first
      invariant |m| == n && Covers(m, size)
      invariant forall c :: 0 <= c < size ==> (Marks(m, size)[c] <==> c < b)
    {
      MarksSet(m, size, b);
      m := WithMark(m, size, b);
    }
  }
}
