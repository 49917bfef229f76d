/** The block map of an inode (12 direct entries, one indirect block of 128), who owns which disk block,
    and the byte string a file's blocks spell. */
module BlockMap {
  import opened Bytes

  const NDIRECT := 12
  const NINDIRECT := 128
  const MAXFILE := 140
  const NSLOTS := 141

  /** The places of an inode that can name a block: the direct entries, the indirect block itself, and
      the entries of the indirect block. `SlotOf` is the place of file block `bn`. */
  function SlotOf(bn: nat): (k: nat)
  {
    if bn < NDIRECT then bn else bn + 1
  }

  // ---------------------------------------------------------------------------
  // The entries of an indirect block

  function EntriesUpTo(b: Block, n: nat): (r: seq<uint>)
    requires n <= WORDS
    ensures |r| == n
  {
    if n == 0 then [] else EntriesUpTo(b, n - 1) + [Word(b, n - 1)]
  }

  function Entries(b: Block): (r: seq<uint>)
    ensures |r| == NINDIRECT
  {
    EntriesUpTo(b, |b| / 4)
  }

  lemma {:induction false} EntriesUpToAt(b: Block, n: nat)
    requires n <= WORDS
    ensures forall j :: 0 <= j < n ==> EntriesUpTo(b, n)[j] == Word(b, j)
  {
    if n > 0 {
      EntriesUpToAt(b, n - 1);
    }
  }

  lemma EntriesAt(b: Block)
    ensures forall j :: 0 <= j < NINDIRECT ==> Entries(b)[j] == Word(b, j)
  {
    EntriesUpToAt(b, |b| / 4);
  }

  lemma EntriesPut(b: Block, j: nat, w: uint)
    requires j < NINDIRECT
    ensures Entries(PutWord(b, j, w)) == Entries(b)[j := w]
  {
    EntriesAt(b);
    EntriesAt(PutWord(b, j, w));
  }

  function Zeros(): (r: seq<uint>)
    ensures |r| == NINDIRECT
    ensures forall j :: 0 <= j < NINDIRECT ==> r[j] == 0
  {
    seq(NINDIRECT, j => 0)
  }

  lemma EntriesZero()
    ensures Entries(ZeroBlock()) == Zeros()
  {
    EntriesAt(ZeroBlock());
  }

  // ---------------------------------------------------------------------------
  // Ownership

  datatype Owner = NoOne | At(i: nat, k: nat)

  /** For each inode, the block named at each place, 0 for none. */
  type Names = seq<seq<nat>>

  predicate Shaped(names: Names)
  {
    forall i :: 0 <= i < |names| ==> |names[i]| == NSLOTS
  }

  /** Blocks are partitioned: the marked ones are the reserved ones below `first`, those named at one
      place of one inode, and `extra` (a block just allocated and not yet named, if any). */
  ghost predicate Owns(names: Names, owner: seq<Owner>, marks: seq<bool>, first: nat, extra: int)
  {
    && 0 < first && |owner| == |marks| && Shaped(names)
    && (forall b :: 0 <= b < |marks| ==> (marks[b] <==> b < first || owner[b].At? || b == extra))
    && (forall b :: 0 <= b < |marks| && owner[b].At? ==>
          first <= b && b != extra && owner[b].i < |names| && owner[b].k < NSLOTS && names[owner[b].i][owner[b].k] == b)
    && (forall i, k :: 0 <= i < |names| && 0 <= k < NSLOTS && names[i][k] != 0 ==>
          names[i][k] < |marks| && owner[names[i][k]] == At(i, k))
  }

  /** What `Owns` says in plain terms: a named block is marked, is not reserved, and is named nowhere else. */
  lemma NamedOnce(names: Names, owner: seq<Owner>, marks: seq<bool>, first: nat, i: nat, k: nat, j: nat, l: nat)
    requires Owns(names, owner, marks, first, -1)
    requires i < |names| && k < NSLOTS && j < |names| && l < NSLOTS && names[i][k] != 0
    ensures first <= names[i][k] < |marks| && marks[names[i][k]]
    ensures names[i][k] == names[j][l] ==> i == j && k == l
  {
    assert owner[names[i][k]] == At(i, k);
    if names[i][k] == names[j][l] {
      assert owner[names[j][l]] == At(j, l);
    }
  }

  lemma OwnsTake(names: Names, owner: seq<Owner>, marks: seq<bool>, first: nat, b: nat)
    requires Owns(names, owner, marks, first, -1) && b < |marks| && !marks[b]
    ensures Owns(names, owner, marks[b := true], first, b)
    ensures forall i, k :: 0 <= i < |names| && 0 <= k < NSLOTS ==> names[i][k] != b
    ensures first <= b
  {
  }

  function WithName(names: Names, i: nat, k: nat, b: nat): (r: Names)
    requires Shaped(names) && i < |names| && k < NSLOTS
    ensures Shaped(r) && |r| == |names|
  {
    var row: seq<nat> := names[i][k := b];
    names[i := row]
  }

  lemma OwnsGive(names: Names, owner: seq<Owner>, marks: seq<bool>, first: nat, i: nat, k: nat, b: nat)
    requires b < |marks| && i < |names| && k < NSLOTS
    requires Owns(names, owner, marks, first, b) && first <= b && names[i][k] == 0
    ensures Owns(WithName(names, i, k, b), owner[b := At(i, k)], marks, first, -1)
  {
  }

  lemma OwnsFree(names: Names, owner: seq<Owner>, marks: seq<bool>, first: nat, i: nat, k: nat)
    requires Owns(names, owner, marks, first, -1) && i < |names| && k < NSLOTS && names[i][k] != 0
    ensures names[i][k] < |marks| && marks[names[i][k]]
    ensures Owns(WithName(names, i, k, 0), owner[names[i][k] := NoOne], marks[names[i][k] := false], first, -1)
  {
  }

  // ---------------------------------------------------------------------------
  // The names an inode's fields and indirect block hold

  predicate Linked(ns: seq<nat>, addrs: seq<uint>, data: seq<Block>)
  {
    && |ns| == NSLOTS && |addrs| == NDIRECT + 1
    && ns[..NDIRECT + 1] == addrs
    && addrs[NDIRECT] < |data|
    && ns[NDIRECT + 1..] == if addrs[NDIRECT] == 0 then Zeros() else Entries(data[addrs[NDIRECT]])
  }

  lemma LinkedWrite(ns: seq<nat>, addrs: seq<uint>, data: seq<Block>, b: nat, blk: Block)
    requires Linked(ns, addrs, data) && b < |data| && (ns[NDIRECT] == b ==> b == 0)
    ensures Linked(ns, addrs, data[b := blk])
  {
  }

  lemma LinkedDirect(ns: seq<nat>, addrs: seq<uint>, data: seq<Block>, k: nat, b: uint)
    requires Linked(ns, addrs, data) && k < NDIRECT
    ensures Linked(ns[k := b], addrs[k := b], data)
  {
    assert ns[k := b][..NDIRECT + 1] == ns[..NDIRECT + 1][k := b];
    assert ns[k := b][NDIRECT + 1..] == ns[NDIRECT + 1..];
    assert addrs[k := b][NDIRECT] == addrs[NDIRECT];
  }

  lemma LinkedIndirect(ns: seq<nat>, addrs: seq<uint>, data: seq<Block>, b: uint)
    requires Linked(ns, addrs, data) && addrs[NDIRECT] == 0 && 0 < b < |data| && data[b] == ZeroBlock()
    ensures Linked(ns[NDIRECT := b], addrs[NDIRECT := b], data)
  {
    assert ns[NDIRECT := b][..NDIRECT + 1] == ns[..NDIRECT + 1][NDIRECT := b];
    assert ns[NDIRECT := b][NDIRECT + 1..] == ns[NDIRECT + 1..];
    EntriesZero();
  }

  lemma LinkedEntry(ns: seq<nat>, addrs: seq<uint>, data: seq<Block>, j: nat, b: uint)
    requires Linked(ns, addrs, data) && addrs[NDIRECT] != 0 && j < NINDIRECT
    ensures Linked(ns[NDIRECT + 1 + j := b], addrs, data[addrs[NDIRECT] := PutWord(data[addrs[NDIRECT]], j, b)])
  {
    var k := NDIRECT + 1 + j;
    assert ns[k := b][..NDIRECT + 1] == ns[..NDIRECT + 1];
    assert ns[k := b][NDIRECT + 1..] == ns[NDIRECT + 1..][j := b];
    EntriesPut(data[addrs[NDIRECT]], j, b);
  }

  // ---------------------------------------------------------------------------
  // The byte string

  /** The block map `ns` over `data` holds the byte string `c`, with no holes below its end. */
  ghost predicate Spells(ns: seq<nat>, data: seq<Block>, c: seq<byte>)
  {
    && |ns| == NSLOTS && |c| <= MAXFILE * BSIZE
    && forall o :: 0 <= o < |c| ==> Holds(ns, data, o, c[o])
  }

  predicate Holds(ns: seq<nat>, data: seq<Block>, o: nat, x: byte)
    requires |ns| == NSLOTS && o < MAXFILE * BSIZE
  {
    var b := ns[SlotOf(o / BSIZE)];
    0 < b < |data| && data[b][o % BSIZE] == x
  }

  /** A block map spells one string of each length. */
  lemma SpellsOne(ns: seq<nat>, data: seq<Block>, c: seq<byte>, d: seq<byte>)
    requires Spells(ns, data, c) && Spells(ns, data, d) && |c| == |d|
    ensures c == d
  {
    forall o | 0 <= o < |c| ensures c[o] == d[o] {
      assert Holds(ns, data, o, c[o]) && Holds(ns, data, o, d[o]);
    }
  }

  /** `c` with `s` written over it at `off`, growing if need be. */
  function Splice(c: seq<byte>, off: nat, s: seq<byte>): (r: seq<byte>)
    requires off <= |c|
    ensures |r| == if off + |s| <= |c| then |c| else off + |s|
    ensures forall o :: 0 <= o < |r| ==> r[o] == if off <= o < off + |s| then s[o - off] else c[o]
  {
    c[..off] + s + if off + |s| <= |c| then c[off + |s|..] else []
  }

  lemma SpliceTwice(c: seq<byte>, off: nat, s: seq<byte>, t: seq<byte>)
    requires off <= |c|
    ensures Splice(Splice(c, off, s), off + |s|, t) == Splice(c, off, s + t)
  {
  }

  /** A change that keeps the named data blocks and their contents keeps the string. */
  lemma SpellsKept(ns: seq<nat>, data: seq<Block>, ms: seq<nat>, after: seq<Block>, c: seq<byte>)
    requires Spells(ns, data, c) && |ms| == NSLOTS && |after| == |data|
    requires forall k :: 0 <= k < NSLOTS && k != NDIRECT && ns[k] != 0 ==> ms[k] == ns[k]
    requires forall k :: 0 <= k < NSLOTS && k != NDIRECT && 0 < ns[k] < |data| ==> after[ns[k]] == data[ns[k]]
    ensures Spells(ms, after, c)
  {
    forall o | 0 <= o < |c| ensures Holds(ms, after, o, c[o]) {
      assert Holds(ns, data, o, c[o]);
    }
  }

  /** `piece` over a block at byte `r`, as memmove leaves it. */
  function Patch(b: Block, r: nat, piece: seq<byte>): (p: Block)
    requires r + |piece| <= BSIZE
    ensures forall x :: 0 <= x < BSIZE ==> p[x] == if r <= x < r + |piece| then piece[x - r] else b[x]
  {
    b[..r] + piece + b[r + |piece|..]
  }

  /** Patching the block that holds offset `off` writes there and nowhere else. */
  lemma SpellsWrite(ns: seq<nat>, data: seq<Block>, c: seq<byte>, off: nat, piece: seq<byte>)
    requires Spells(ns, data, c) && off <= |c| && off % BSIZE + |piece| <= BSIZE
    requires off < MAXFILE * BSIZE && off + |piece| <= MAXFILE * BSIZE
    requires 0 < ns[SlotOf(off / BSIZE)] < |data|
    requires forall k :: 0 <= k < NSLOTS && ns[k] == ns[SlotOf(off / BSIZE)] ==> k == SlotOf(off / BSIZE)
    ensures var b := ns[SlotOf(off / BSIZE)];
      Spells(ns, data[b := Patch(data[b], off % BSIZE, piece)], Splice(c, off, piece))
  {
    var b := ns[SlotOf(off / BSIZE)];
    var after := data[b := Patch(data[b], off % BSIZE, piece)];
    var d := Splice(c, off, piece);
    forall o | 0 <= o < |d| ensures Holds(ns, after, o, d[o]) {
      if !(off <= o < off + |piece|) {
        assert Holds(ns, data, o, c[o]);
      }
    }
  }

}
