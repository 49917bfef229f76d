/** The block and inode-content layer of fs.c: balloc, bfree, bmap, itrunc, readi and writei.  Blocks are
    seen through the buffer cache, so reading a block gives the value last written to it; `calls` is the
    list of the sectors passed to log_write, in order, and `logged` the set of them. */
module Fs {
  import opened Common
  import opened Bytes
  import opened BlockMap
  import Bitmap

  const T_DEV := 3
  /** Inodes per block: a disk inode takes 64 bytes. */
  const IPB := 8

  datatype Inode = Inode(kind: short, major: short, minor: short, nlink: short, size: uint, addrs: seq<uint>)

  /** The inodes agree on what is neither size nor addresses. */
  predicate SameHead(a: Inode, b: Inode)
  {
    a.kind == b.kind && a.major == b.major && a.minor == b.minor && a.nlink == b.nlink
  }

  datatype Sector = BitmapAt(q: nat) | InodesAt(q: nat) | DataAt(b: nat)

  datatype Alloc = Got(b: nat) | OutOfBlocks

  datatype Mapped = Addr(b: nat) | NoBlocks | OutOfRange

  datatype Read = Content(s: seq<byte>) | BadRange | ReadDevice

  datatype Written = Count(n: nat) | Refused | WriteDevice | WritePanic

  ghost predicate LinksOk(names: Names, inodes: seq<Inode>, data: seq<Block>)
  {
    |names| == |inodes| && forall i :: 0 <= i < |inodes| ==> Linked(names[i], inodes[i].addrs, data)
  }

  ghost predicate FilesOk(names: Names, data: seq<Block>, files: seq<seq<byte>>)
  {
    |names| == |files| && forall i :: 0 <= i < |files| ==> Spells(names[i], data, files[i])
  }

  ghost predicate SizesOk(inodes: seq<Inode>, files: seq<seq<byte>>)
  {
    |inodes| == |files| && forall i :: 0 <= i < |files| ==> inodes[i].size == |files[i]|
  }

  /** A new block at a place of inode `i` that named none. */
  lemma FilesNewBlock(names: Names, owner: seq<Owner>, marks: seq<bool>, first: nat, data: seq<Block>,
                      files: seq<seq<byte>>, i: nat, k: nat, b: nat)
    requires Owns(names, owner, marks, first, -1) && FilesOk(names, data, files) && |data| == |marks|
    requires i < |names| && k < NSLOTS && names[i][k] == 0 && b < |marks| && !marks[b]
    ensures FilesOk(WithName(names, i, k, b), data[b := ZeroBlock()], files)
  {
    OwnsTake(names, owner, marks, first, b);
    var ms := WithName(names, i, k, b);
    forall j | 0 <= j < |files| ensures Spells(ms[j], data[b := ZeroBlock()], files[j]) {
      SpellsKept(names[j], data, ms[j], data[b := ZeroBlock()], files[j]);
    }
  }

  /** A change of the indirect block of inode `i` touches no file byte. */
  lemma FilesIndirect(names: Names, owner: seq<Owner>, marks: seq<bool>, first: nat, data: seq<Block>,
                      files: seq<seq<byte>>, i: nat, blk: Block)
    requires Owns(names, owner, marks, first, -1) && FilesOk(names, data, files) && |data| == |marks|
    requires i < |names| && names[i][NDIRECT] != 0
    ensures names[i][NDIRECT] < |data|
    ensures FilesOk(names, data[names[i][NDIRECT] := blk], files)
  {
    var after := data[names[i][NDIRECT] := blk];
    forall j | 0 <= j < |files| ensures Spells(names[j], after, files[j]) {
      forall k | 0 <= k < NSLOTS && k != NDIRECT && 0 < names[j][k] < |data|
        ensures after[names[j][k]] == data[names[j][k]]
      {
        NamedOnce(names, owner, marks, first, i, NDIRECT, j, k);
      }
      SpellsKept(names[j], data, names[j], after, files[j]);
    }
  }

  /** Writing into a data block of inode `i` changes file `i` there, and no other file. */
  lemma FilesWrite(names: Names, owner: seq<Owner>, marks: seq<bool>, first: nat, data: seq<Block>,
                   files: seq<seq<byte>>, i: nat, off: nat, piece: seq<byte>)
    requires Owns(names, owner, marks, first, -1) && FilesOk(names, data, files) && |data| == |marks|
    requires i < |names| && off <= |files[i]| && off % BSIZE + |piece| <= BSIZE
    requires off < MAXFILE * BSIZE && off + |piece| <= MAXFILE * BSIZE
    requires names[i][SlotOf(off / BSIZE)] != 0
    ensures names[i][SlotOf(off / BSIZE)] < |data|
    ensures var b := names[i][SlotOf(off / BSIZE)];
      FilesOk(names, data[b := Patch(data[b], off % BSIZE, piece)], files[i := Splice(files[i], off, piece)])
  {
    var k := SlotOf(off / BSIZE);
    var b := names[i][k];
    NamedOnce(names, owner, marks, first, i, k, i, k);
    var after := data[b := Patch(data[b], off % BSIZE, piece)];
    forall j | 0 <= j < |files| ensures Spells(names[j], after, files[i := Splice(files[i], off, piece)][j]) {
      forall l | 0 <= l < NSLOTS && names[j][l] == b ensures j == i && l == k {
        NamedOnce(names, owner, marks, first, i, k, j, l);
      }
      if j == i {
        SpellsWrite(names[i], data, files[i], off, piece);
      } else {
        SpellsKept(names[j], data, names[j], after, files[j]);
      }
    }
  }

  lemma LinksNewBlock(names: Names, inodes: seq<Inode>, data: seq<Block>, b: nat, blk: Block)
    requires LinksOk(names, inodes, data) && b < |data|
    requires forall j :: 0 <= j < |names| ==> (names[j][NDIRECT] == b ==> b == 0)
    ensures LinksOk(names, inodes, data[b := blk])
  {
    forall j | 0 <= j < |inodes| ensures Linked(names[j], inodes[j].addrs, data[b := blk]) {
      LinkedWrite(names[j], inodes[j].addrs, data, b, blk);
    }
  }

  // ---------------------------------------------------------------------------
  // The whole invariant, folded

  /** Every block is reserved, free, or named once; the inodes and indirect blocks hold those names;
      and the named data blocks hold `files`. */
  ghost predicate Sound(names: Names, owner: seq<Owner>, marks: seq<bool>, first: nat,
                        inodes: seq<Inode>, data: seq<Block>, files: seq<seq<byte>>)
  {
    forall u: int {:trigger Unfold(u)} :: Unfold(u) && u == 0 ==>
      && Owns(names, owner, marks, first, -1) && |data| == |marks|
      && LinksOk(names, inodes, data)
      && FilesOk(names, data, files)
  }

  /** The lengths that make every access below well formed. */
  predicate Sizes(names: Names, inodes: seq<Inode>)
  {
    && |names| == |inodes| && Shaped(names)
    && forall i :: 0 <= i < |inodes| ==> |inodes[i].addrs| == NDIRECT + 1
  }

  lemma SoundSizes(names: Names, owner: seq<Owner>, marks: seq<bool>, first: nat,
                   inodes: seq<Inode>, data: seq<Block>, files: seq<seq<byte>>)
    requires Sound(names, owner, marks, first, inodes, data, files)
    ensures Sizes(names, inodes) && |files| == |inodes|
  {
    assert Unfold(0);
    forall i | 0 <= i < |inodes| ensures |inodes[i].addrs| == NDIRECT + 1 {
      assert Linked(names[i], inodes[i].addrs, data);
    }
  }

  /** The names of inode `i` are its addresses and the entries of its indirect block. */
  lemma SoundNames(names: Names, owner: seq<Owner>, marks: seq<bool>, first: nat,
                   inodes: seq<Inode>, data: seq<Block>, files: seq<seq<byte>>, i: nat)
    requires Sound(names, owner, marks, first, inodes, data, files) && i < |inodes|
    ensures Sizes(names, inodes)
    ensures forall k :: 0 <= k <= NDIRECT ==> names[i][k] == inodes[i].addrs[k]
    ensures inodes[i].addrs[NDIRECT] == 0 ==> names[i][NDIRECT + 1..] == Zeros()
    ensures inodes[i].addrs[NDIRECT] < |data|
    ensures inodes[i].addrs[NDIRECT] != 0 ==> names[i][NDIRECT + 1..] == Entries(data[inodes[i].addrs[NDIRECT]])
  {
    SoundSizes(names, owner, marks, first, inodes, data, files);
    assert Unfold(0);
    assert Linked(names[i], inodes[i].addrs, data);
    forall k | 0 <= k <= NDIRECT ensures names[i][k] == inodes[i].addrs[k] {
      assert names[i][k] == names[i][..NDIRECT + 1][k];
    }
  }

  /** A named block is in range, not reserved, and marked. */
  lemma SoundNamed(names: Names, owner: seq<Owner>, marks: seq<bool>, first: nat,
                   inodes: seq<Inode>, data: seq<Block>, files: seq<seq<byte>>, i: nat, k: nat)
    requires Sound(names, owner, marks, first, inodes, data, files)
    requires Sizes(names, inodes) && i < |names| && k < NSLOTS && names[i][k] != 0
    ensures 0 < first <= names[i][k] < |marks| == |data| && marks[names[i][k]]
  {
    assert Unfold(0);
    NamedOnce(names, owner, marks, first, i, k, i, k);
  }

  /** Naming a new zeroed block in `addrs`. */
  lemma SoundAddr(names: Names, owner: seq<Owner>, marks: seq<bool>, first: nat,
                  inodes: seq<Inode>, data: seq<Block>, files: seq<seq<byte>>, i: nat, k: nat, b: uint)
    requires Sound(names, owner, marks, first, inodes, data, files) && Sizes(names, inodes)
    requires i < |inodes| && k <= NDIRECT && inodes[i].addrs[k] == 0 && b < |marks| && !marks[b]
    ensures 0 < b < |data| && names[i][k] == 0 && b < |owner|
    ensures Sound(WithName(names, i, k, b), owner[b := At(i, k)], marks[b := true], first,
                  inodes[i := inodes[i].(addrs := inodes[i].addrs[k := b])], data[b := ZeroBlock()], files)
  {
    SoundNames(names, owner, marks, first, inodes, data, files, i);
    assert Unfold(0);
    var after := data[b := ZeroBlock()];
    FilesNewBlock(names, owner, marks, first, data, files, i, k, b);
    OwnsTake(names, owner, marks, first, b);
    OwnsGive(names, owner, marks[b := true], first, i, k, b);
    LinksNewBlock(names, inodes, data, b, ZeroBlock());
    LinksAddr(names, inodes, after, i, k, b);
  }

  lemma LinksAddr(names: Names, inodes: seq<Inode>, data: seq<Block>, i: nat, k: nat, b: uint)
    requires LinksOk(names, inodes, data) && Sizes(names, inodes) && i < |inodes| && k <= NDIRECT
    requires inodes[i].addrs[k] == 0 && 0 < b < |data| && data[b] == ZeroBlock()
    ensures LinksOk(WithName(names, i, k, b), inodes[i := inodes[i].(addrs := inodes[i].addrs[k := b])], data)
  {
    assert Linked(names[i], inodes[i].addrs, data);
    if k < NDIRECT {
      LinkedDirect(names[i], inodes[i].addrs, data, k, b);
    } else {
      LinkedIndirect(names[i], inodes[i].addrs, data, b);
    }
  }

  /** Naming a new zeroed block in the indirect block. */
  lemma SoundEntry(names: Names, owner: seq<Owner>, marks: seq<bool>, first: nat,
                   inodes: seq<Inode>, data: seq<Block>, files: seq<seq<byte>>, i: nat, j: nat, b: uint)
    requires Sound(names, owner, marks, first, inodes, data, files) && Sizes(names, inodes)
    requires i < |inodes| && j < NINDIRECT && inodes[i].addrs[NDIRECT] != 0
    requires names[i][NDIRECT + 1 + j] == 0 && b < |marks| && !marks[b]
    ensures 0 < b < |data| && inodes[i].addrs[NDIRECT] < |data| && b < |owner| && b != inodes[i].addrs[NDIRECT]
    ensures var ind := inodes[i].addrs[NDIRECT];
      Sound(WithName(names, i, NDIRECT + 1 + j, b), owner[b := At(i, NDIRECT + 1 + j)], marks[b := true], first,
            inodes, data[b := ZeroBlock()][ind := PutWord(data[ind], j, b)], files)
  {
    SoundNames(names, owner, marks, first, inodes, data, files, i);
    SoundNamed(names, owner, marks, first, inodes, data, files, i, NDIRECT);
    assert Unfold(0);
    var k := NDIRECT + 1 + j;
    var ind := inodes[i].addrs[NDIRECT];
    var mid := data[b := ZeroBlock()];
    OwnsTake(names, owner, marks, first, b);
    FilesNewBlock(names, owner, marks, first, data, files, i, k, b);
    OwnsGive(names, owner, marks[b := true], first, i, k, b);
    LinksNewBlock(names, inodes, data, b, ZeroBlock());
    EntryLinks(names, inodes, mid, i, j, b, marks, owner, first);
    FilesIndirect(WithName(names, i, k, b), owner[b := At(i, k)], marks[b := true], first, mid, files, i,
                  PutWord(data[ind], j, b));
  }

  /** Writing into the named block that holds offset `off` of file `i`. */
  lemma SoundWrite(names: Names, owner: seq<Owner>, marks: seq<bool>, first: nat,
                   inodes: seq<Inode>, data: seq<Block>, files: seq<seq<byte>>, i: nat, off: nat, piece: seq<byte>)
    requires Sound(names, owner, marks, first, inodes, data, files) && Sizes(names, inodes) && |files| == |names|
    requires i < |inodes| && off <= |files[i]| && off % BSIZE + |piece| <= BSIZE
    requires off < MAXFILE * BSIZE && off + |piece| <= MAXFILE * BSIZE
    requires names[i][SlotOf(off / BSIZE)] != 0
    ensures names[i][SlotOf(off / BSIZE)] < |data|
    ensures var b := names[i][SlotOf(off / BSIZE)];
      Sound(names, owner, marks, first, inodes, data[b := Patch(data[b], off % BSIZE, piece)],
            files[i := Splice(files[i], off, piece)])
  {
    assert Unfold(0);
    var k := SlotOf(off / BSIZE);
    FilesWrite(names, owner, marks, first, data, files, i, off, piece);
    forall j | 0 <= j < |names| ensures names[j][NDIRECT] != names[i][k] {
      NamedOnce(names, owner, marks, first, i, k, j, NDIRECT);
    }
    LinksNewBlock(names, inodes, data, names[i][k], Patch(data[names[i][k]], off % BSIZE, piece));
  }

  /** The sectors of a bitmap of `n` blocks. */
  ghost function Bitmaps(n: nat): (r: set<Sector>)
  {
    if n == 0 then {} else Bitmaps(n - 1) + {BitmapAt(n - 1)}
  }

  lemma {:induction false} InBitmaps(n: nat, q: nat)
    requires q < n
    ensures BitmapAt(q) in Bitmaps(n)
  {
    if q < n - 1 {
      InBitmaps(n - 1, q);
    }
  }

  /** `logged` is the set of the calls. */
  ghost predicate Tracked(calls: seq<Sector>, logged: set<Sector>)
  {
    forall u: int {:trigger Unfold(u)} :: Unfold(u) && u == 5 ==> forall x :: x in calls <==> x in logged
  }

  lemma TrackedMore(calls: seq<Sector>, logged: set<Sector>, x: Sector)
    requires Tracked(calls, logged)
    ensures Tracked(calls + [x], logged + {x})
  {
    assert Unfold(5);
  }

  // ---------------------------------------------------------------------------
  // What an operation changes on disk

  /** The bitmap, the inodes and the blocks on disk. */
  datatype Stored = Stored(bitmap: Bitmap.Map, dinodes: seq<Inode>, data: seq<Block>)

  /** Every sector that differs between `a` and `b` is in `logged`. */
  ghost predicate Covered(a: Stored, b: Stored, logged: set<Sector>)
  {
    forall u: int {:trigger Unfold(u)} :: Unfold(u) && u == 15 ==>
      && |b.bitmap| == |a.bitmap| && |b.dinodes| == |a.dinodes| && |b.data| == |a.data|
      && (forall q :: 0 <= q < |a.bitmap| ==> b.bitmap[q] == a.bitmap[q] || BitmapAt(q) in logged)
      && (forall i :: 0 <= i < |a.dinodes| ==> b.dinodes[i] == a.dinodes[i] || InodesAt(i / IPB) in logged)
      && (forall x :: 0 <= x < |a.data| ==> b.data[x] == a.data[x] || DataAt(x) in logged)
  }

  lemma CoveredBits(a: Stored, b: Stored, logged: set<Sector>, size: nat, c: nat)
    requires Covered(a, b, logged) && Bitmap.Covers(b.bitmap, size) && c < size
    ensures Covered(a, b.(bitmap := Bitmap.WithMark(b.bitmap, size, c)), logged + {BitmapAt(c / Bitmap.BPB)})
    ensures Covered(a, b.(bitmap := Bitmap.WithoutMark(b.bitmap, size, c)), logged + {BitmapAt(c / Bitmap.BPB)})
  {
    assert Unfold(15);
  }

  lemma CoveredBlock(a: Stored, b: Stored, logged: set<Sector>, x: nat, blk: Block)
    requires Covered(a, b, logged) && x < |b.data|
    ensures Covered(a, b.(data := b.data[x := blk]), logged + {DataAt(x)})
  {
    assert Unfold(15);
  }

  lemma CoveredInode(a: Stored, b: Stored, logged: set<Sector>, i: nat, ino: Inode)
    requires Covered(a, b, logged) && i < |b.dinodes|
    ensures Covered(a, b.(dinodes := b.dinodes[i := ino]), logged + {InodesAt(i / IPB)})
  {
    assert Unfold(15);
  }

  /** Unless a block has been freed since `m0`, no mark has gone, and the new ones are those of the lowest blocks
      that were free. */
  ghost predicate LowestFirst(m0: Bitmap.Map, m: Bitmap.Map, size: nat, freed: bool)
  {
    && Bitmap.Covers(m0, size) && Bitmap.Covers(m, size)
    && forall u: int {:trigger Unfold(u)} :: Unfold(u) && u == 16 ==>
         (!freed ==> Lowest(Bitmap.Marks(m0, size), Bitmap.Marks(m, size)))
  }

  predicate Lowest(m0: seq<bool>, m: seq<bool>)
  {
    && |m| == |m0|
    && (forall b :: 0 <= b < |m| && m0[b] ==> m[b])
    && (forall b, c :: 0 <= c < b < |m| && m[b] && !m0[b] ==> m[c])
  }

  lemma LowestMore(m0: Bitmap.Map, m: Bitmap.Map, size: nat, freed: bool, b: nat)
    requires LowestFirst(m0, m, size, freed) && b < size && !Bitmap.Marks(m, size)[b]
    requires forall c :: 0 <= c < b ==> Bitmap.Marks(m, size)[c]
    ensures LowestFirst(m0, Bitmap.WithMark(m, size, b), size, freed)
  {
    assert Unfold(16);
    Bitmap.MarksSet(m, size, b);
  }

  lemma LowestFreed(m0: Bitmap.Map, m: Bitmap.Map, size: nat, freed: bool, b: nat)
    requires LowestFirst(m0, m, size, freed) && b < size
    ensures LowestFirst(m0, Bitmap.WithoutMark(m, size, b), size, true)
  {
  }

  // ---------------------------------------------------------------------------
  // How many blocks an operation takes

  /** The number of blocks that are not marked. */
  function FreeBlocks(marks: seq<bool>): (n: nat)
  {
    if marks == [] then 0 else FreeBlocks(marks[..|marks| - 1]) + if marks[|marks| - 1] then 0 else 1
  }

  lemma {:induction false} FreeTake(marks: seq<bool>, b: nat)
    requires b < |marks| && !marks[b]
    ensures FreeBlocks(marks) > 0 && FreeBlocks(marks[b := true]) == FreeBlocks(marks) - 1
  {
    var n := |marks| - 1;
    if b == n {
      assert marks[b := true][..n] == marks[..n];
    } else {
      assert marks[b := true][..n] == marks[..n][b := true];
      FreeTake(marks[..n], b);
    }
  }

  lemma FreeGive(marks: seq<bool>, b: nat)
    requires b < |marks| && marks[b]
    ensures FreeBlocks(marks[b := false]) == FreeBlocks(marks) + 1
  {
    FreeTake(marks[b := false], b);
    assert marks[b := false][b := true] == marks;
  }

  lemma {:induction false} FreeNone(marks: seq<bool>)
    requires forall b :: 0 <= b < |marks| ==> marks[b]
    ensures FreeBlocks(marks) == 0
  {
    if marks != [] {
      FreeNone(marks[..|marks| - 1]);
    }
  }

  ghost predicate CountsFree(m: Bitmap.Map, size: nat, n: nat)
    requires Bitmap.Covers(m, size)
  {
    forall u: int {:trigger Unfold(u)} :: Unfold(u) && u == 7 ==> n == FreeBlocks(Bitmap.Marks(m, size))
  }

  /** The books of a transaction: the calls of log_write, the sectors changed, the free blocks. */
  ghost predicate Booked(base: Stored, st: Stored, size: nat, logged: set<Sector>, calls: seq<Sector>, nfree: nat,
                         freed: bool)
    requires Bitmap.Covers(st.bitmap, size)
  {
    forall u: int {:trigger Unfold(u)} :: Unfold(u) && u == 17 ==>
      && Tracked(calls, logged) && Covered(base, st, logged)
      && CountsFree(st.bitmap, size, nfree) && LowestFirst(base.bitmap, st.bitmap, size, freed)
  }

  lemma BookedSo(base: Stored, st: Stored, size: nat, logged: set<Sector>, calls: seq<Sector>, nfree: nat, freed: bool)
    requires Bitmap.Covers(st.bitmap, size) && Booked(base, st, size, logged, calls, nfree, freed)
    ensures Tracked(calls, logged) && Covered(base, st, logged)
    ensures CountsFree(st.bitmap, size, nfree) && LowestFirst(base.bitmap, st.bitmap, size, freed)
  {
    assert Unfold(17);
  }

  lemma BookedAnew(base: Stored, st: Stored, size: nat, logged: set<Sector>, calls: seq<Sector>, nfree: nat,
                   freed: bool)
    requires Bitmap.Covers(st.bitmap, size) && Booked(base, st, size, logged, calls, nfree, freed)
    ensures Booked(st, st, size, {}, [], nfree, false)
  {
    assert Unfold(17);
  }

  lemma BlockStored(base: Stored, st: Stored, size: nat, logged: set<Sector>, calls: seq<Sector>, nfree: nat,
                    freed: bool, x: nat, blk: Block)
    requires Bitmap.Covers(st.bitmap, size) && Booked(base, st, size, logged, calls, nfree, freed) && x < |st.data|
    ensures Booked(base, st.(data := st.data[x := blk]), size, logged + {DataAt(x)}, calls + [DataAt(x)], nfree, freed)
  {
    assert Unfold(17);
    TrackedMore(calls, logged, DataAt(x));
    CoveredBlock(base, st, logged, x, blk);
  }

  lemma InodeStored(base: Stored, st: Stored, size: nat, logged: set<Sector>, calls: seq<Sector>, nfree: nat,
                    freed: bool, i: nat, ino: Inode)
    requires Bitmap.Covers(st.bitmap, size) && Booked(base, st, size, logged, calls, nfree, freed) && i < |st.dinodes|
    ensures Booked(base, st.(dinodes := st.dinodes[i := ino]), size, logged + {InodesAt(i / IPB)},
                   calls + [InodesAt(i / IPB)], nfree, freed)
  {
    assert Unfold(17);
    TrackedMore(calls, logged, InodesAt(i / IPB));
    CoveredInode(base, st, logged, i, ino);
  }

  lemma MarkTaken(base: Stored, st: Stored, size: nat, logged: set<Sector>, calls: seq<Sector>, nfree: nat,
                  freed: bool, b: nat)
    requires Bitmap.Covers(st.bitmap, size) && Booked(base, st, size, logged, calls, nfree, freed)
    requires b < size && !Bitmap.Marked(st.bitmap, size, b)
    requires forall c: nat :: c < b ==> Bitmap.Marked(st.bitmap, size, c)
    ensures !Bitmap.Marks(st.bitmap, size)[b] && forall c :: 0 <= c < b ==> Bitmap.Marks(st.bitmap, size)[c]
    ensures Bitmap.Marks(Bitmap.WithMark(st.bitmap, size, b), size) == Bitmap.Marks(st.bitmap, size)[b := true]
    ensures nfree > 0 && var x := BitmapAt(b / Bitmap.BPB);
      Booked(base, st.(bitmap := Bitmap.WithMark(st.bitmap, size, b)), size, logged + {x}, calls + [x],
             nfree - 1, freed)
  {
    assert Unfold(17);
    Bitmap.MarksAt(st.bitmap, size, size);
    CountTaken(st.bitmap, size, nfree, b);
    LowestMore(base.bitmap, st.bitmap, size, freed, b);
    TrackedMore(calls, logged, BitmapAt(b / Bitmap.BPB));
    CoveredBits(base, st, logged, size, b);
  }

  lemma CountTaken(m: Bitmap.Map, size: nat, n: nat, b: nat)
    requires Bitmap.Covers(m, size) && CountsFree(m, size, n) && b < size && !Bitmap.Marks(m, size)[b]
    ensures n > 0 && CountsFree(Bitmap.WithMark(m, size, b), size, n - 1)
    ensures Bitmap.Marks(Bitmap.WithMark(m, size, b), size) == Bitmap.Marks(m, size)[b := true]
  {
    assert Unfold(7);
    Bitmap.MarksSet(m, size, b);
    FreeTake(Bitmap.Marks(m, size), b);
  }

  lemma MarkDropped(base: Stored, st: Stored, size: nat, logged: set<Sector>, calls: seq<Sector>, nfree: nat,
                    freed: bool, b: nat)
    requires Bitmap.Covers(st.bitmap, size) && Booked(base, st, size, logged, calls, nfree, freed) && b < size
    ensures Bitmap.Marks(st.bitmap, size)[b] <==> Bitmap.Marked(st.bitmap, size, b)
    ensures Bitmap.Marks(Bitmap.WithoutMark(st.bitmap, size, b), size) == Bitmap.Marks(st.bitmap, size)[b := false]
    ensures Bitmap.Marked(st.bitmap, size, b) ==> var x := BitmapAt(b / Bitmap.BPB);
      Booked(base, st.(bitmap := Bitmap.WithoutMark(st.bitmap, size, b)), size, logged + {x}, calls + [x],
             nfree + 1, true)
  {
    assert Unfold(17);
    Bitmap.MarksAt(st.bitmap, size, size);
    CountDropped(st.bitmap, size, nfree, b);
    LowestFreed(base.bitmap, st.bitmap, size, freed, b);
    TrackedMore(calls, logged, BitmapAt(b / Bitmap.BPB));
    CoveredBits(base, st, logged, size, b);
  }

  lemma CountDropped(m: Bitmap.Map, size: nat, n: nat, b: nat)
    requires Bitmap.Covers(m, size) && CountsFree(m, size, n) && b < size
    ensures Bitmap.Marks(m, size)[b] ==> CountsFree(Bitmap.WithoutMark(m, size, b), size, n + 1)
    ensures Bitmap.Marks(Bitmap.WithoutMark(m, size, b), size) == Bitmap.Marks(m, size)[b := false]
  {
    assert Unfold(7);
    Bitmap.MarksCleared(m, size, b);
    if Bitmap.Marks(m, size)[b] {
      FreeGive(Bitmap.Marks(m, size), b);
    }
  }

  lemma NoMarkLeft(base: Stored, st: Stored, size: nat, logged: set<Sector>, calls: seq<Sector>, nfree: nat,
                   freed: bool)
    requires Bitmap.Covers(st.bitmap, size) && Booked(base, st, size, logged, calls, nfree, freed)
    requires forall c: nat :: c < size ==> Bitmap.Marked(st.bitmap, size, c)
    ensures nfree == 0 && forall b :: 0 <= b < size ==> Bitmap.Marks(st.bitmap, size)[b]
  {
    assert Unfold(17);
    assert Unfold(7);
    Bitmap.MarksAt(st.bitmap, size, size);
    FreeNone(Bitmap.Marks(st.bitmap, size));
  }

  /** The blocks bmap takes for file block `bn` of an inode that names `ns`. */
  function BlockNeed(ns: seq<nat>, bn: nat): (n: nat)
    requires |ns| == NSLOTS && bn < MAXFILE
  {
    if ns[SlotOf(bn)] != 0 then 0 else if bn >= NDIRECT && ns[NDIRECT] == 0 then 2 else 1
  }

  /** The same when the blocks from `lo` on are taken in order: the indirect block is taken only once. */
  function NeedAt(ns: seq<nat>, lo: nat, bn: nat): (n: nat)
    requires |ns| == NSLOTS && bn < MAXFILE
  {
    if ns[SlotOf(bn)] != 0 then 0
    else if bn >= NDIRECT && ns[NDIRECT] == 0 && (bn == lo || bn == NDIRECT) then 2 else 1
  }

  /** The blocks that writing file blocks `lo` up to `hi` takes. */
  function Needed(ns: seq<nat>, lo: nat, hi: nat): (n: nat)
    requires |ns| == NSLOTS && hi <= MAXFILE
  {
    if hi <= lo then 0 else Needed(ns, lo, hi - 1) + NeedAt(ns, lo, hi - 1)
  }

  lemma {:induction false} NeededGrows(ns: seq<nat>, lo: nat, mid: nat, hi: nat)
    requires |ns| == NSLOTS && mid <= hi <= MAXFILE
    ensures Needed(ns, lo, mid) <= Needed(ns, lo, hi)
  {
    if mid < hi {
      NeededGrows(ns, lo, mid, hi - 1);
    }
  }

  /** File blocks `lo` up to `hi` have been taken: `f` of the `f0` free blocks are left, and `ns` differs
      from `ns0` in the places that serve them. */
  ghost predicate Paid(ns0: seq<nat>, ns: seq<nat>, lo: nat, hi: nat, f0: nat, f: nat)
  {
    forall u: int {:trigger Unfold(u)} :: Unfold(u) && u == 6 ==>
      && |ns0| == |ns| == NSLOTS && lo <= hi <= MAXFILE && f == f0 - Needed(ns0, lo, hi)
      && (forall bn :: hi <= bn < MAXFILE ==> ns[SlotOf(bn)] == ns0[SlotOf(bn)])
      && (ns[NDIRECT] != 0 <==> ns0[NDIRECT] != 0 || (lo < hi && NDIRECT < hi))
  }

  lemma PaidNothing(ns: seq<nat>, lo: nat, f: nat)
    requires |ns| == NSLOTS && lo <= MAXFILE
    ensures Paid(ns, ns, lo, lo, f, f)
  {
  }

  /** One file block more, or too few blocks for it. */
  lemma PaidMore(ns0: seq<nat>, names: Names, after: Names, i: nat, lo: nat, hi: nat, f0: nat, f: nat)
    requires Shaped(names) && i < |names| && Paid(ns0, names[i], lo, hi, f0, f) && hi < MAXFILE
    requires Grown(names, after, i, hi) && (hi >= NDIRECT ==> after[i][NDIRECT] != 0) && f >= BlockNeed(names[i], hi)
    ensures Paid(ns0, after[i], lo, hi + 1, f0, f - BlockNeed(names[i], hi))
  {
    assert Unfold(6);
  }

  lemma PaidAll(ns0: seq<nat>, ns: seq<nat>, lo: nat, hi: nat, f0: nat, f: nat)
    requires Paid(ns0, ns, lo, hi, f0, f)
    ensures |ns0| == NSLOTS && hi <= MAXFILE && f == f0 - Needed(ns0, lo, hi)
  {
    assert Unfold(6);
  }

  /** Going on from file block `from`: the last block may be written again, but it is there. */
  ghost predicate Resumes(ns: seq<nat>, mid: nat, from: nat)
    requires |ns| == NSLOTS && mid <= MAXFILE
  {
    from == mid || (from + 1 == mid && ns[SlotOf(from)] != 0)
  }

  lemma {:induction false} PaidRest(ns0: seq<nat>, ns: seq<nat>, lo: nat, mid: nat, from: nat, hi: nat, f0: nat, f: nat)
    requires Paid(ns0, ns, lo, mid, f0, f) && |ns0| == |ns| == NSLOTS && mid <= hi <= MAXFILE
    requires Resumes(ns, mid, from) && lo <= from
    ensures Needed(ns, from, hi) == Needed(ns0, lo, hi) - Needed(ns0, lo, mid)
  {
    if mid < hi {
      PaidRest(ns0, ns, lo, mid, from, hi - 1, f0, f);
      assert Unfold(6);
      assert NeedAt(ns, from, hi - 1) == NeedAt(ns0, lo, hi - 1);
    }
  }

  lemma PaidTwice(ns0: seq<nat>, ns: seq<nat>, ms: seq<nat>, lo: nat, mid: nat, from: nat, hi: nat, f0: nat, f: nat,
                  g: nat)
    requires Paid(ns0, ns, lo, mid, f0, f) && Paid(ns, ms, from, hi, f, g)
    requires |ns0| == |ns| == NSLOTS && mid <= hi <= MAXFILE && Resumes(ns, mid, from) && lo <= from < hi
    ensures Paid(ns0, ms, lo, hi, f0, g)
  {
    PaidRest(ns0, ns, lo, mid, from, hi, f0, f);
    assert Unfold(6);
  }

  lemma PaidShort(ns0: seq<nat>, ns: seq<nat>, lo: nat, hi: nat, end: nat, f0: nat, f: nat)
    requires Paid(ns0, ns, lo, hi, f0, f) && hi < end <= MAXFILE && |ns0| == |ns| == NSLOTS && f < BlockNeed(ns, hi)
    ensures f0 < Needed(ns0, lo, end)
  {
    assert Unfold(6);
    NeededGrows(ns0, lo, hi + 1, end);
  }

  class Fs {
    const size: nat
    const first: nat
    const nbitmap: nat
    var bitmap: Bitmap.Map
    var data: seq<Block>
    var inodes: seq<Inode>
    var dinodes: seq<Inode>
    ghost var names: Names
    ghost var owner: seq<Owner>
    ghost var files: seq<seq<byte>>
    ghost var logged: set<Sector>
    var calls: seq<Sector>   // the sectors passed to log_write in the transaction
    ghost var nfree: nat
    /** What was on disk when the transaction began, and whether a block has been freed since. */
    ghost var base: Stored
    ghost var freed: bool

    /** A file system without files: the blocks below `first` are reserved, all others are free. */
    constructor (size: nat, first: nat, ninodes: nat)
      requires 0 < first <= size <= U32
      ensures Valid() && this.size == size && this.first == first && nbitmap == size / Bitmap.BPB + 1
      ensures |inodes| == ninodes && forall i :: 0 <= i < ninodes ==> files[i] == [] && inodes[i] == BlankInode()
      ensures forall i :: 0 <= i < ninodes ==> names[i] == NoNames()
      ensures forall b :: 0 <= b < size ==> (Marks()[b] <==> b < first)
    {
      var n := size / Bitmap.BPB + 1;
      var m := Bitmap.Reserve(n, size, first);
      this.size, this.first, nbitmap := size, first, n;
      bitmap := m;
      data := seq(size, b => ZeroBlock());
      inodes := seq(ninodes, i => BlankInode());
      dinodes := seq(ninodes, i => BlankInode());
      names, owner := seq(ninodes, i => NoNames()), seq(size, b => NoOne);
      files := seq(ninodes, i => []);
      logged, nfree := {}, FreeBlocks(Bitmap.Marks(m, size));
      calls := [];
      base, freed := Stored(m, seq(ninodes, i => BlankInode()), seq(size, b => ZeroBlock())), false;
      BlankSound(Bitmap.Marks(m, size), first, ninodes);
    }

    /** The file system that is on a disk, as it is after a restart. */
    constructor Load(st: Stored, first: nat, ghost names: Names, ghost owner: seq<Owner>, ghost files: seq<seq<byte>>)
      requires Bitmap.Covers(st.bitmap, |st.data|) && |st.data| <= U32 && SizesOk(st.dinodes, files)
      requires Sound(names, owner, Bitmap.Marks(st.bitmap, |st.data|), first, st.dinodes, st.data, files)
      ensures Valid() && OnDisk() == st && size == |st.data| && this.first == first && nbitmap == |st.bitmap|
      ensures this.names == names && this.owner == owner && this.files == files
    {
      SoundSizes(names, owner, Bitmap.Marks(st.bitmap, |st.data|), first, st.dinodes, st.data, files);
      size, this.first, nbitmap := |st.data|, first, |st.bitmap|;
      bitmap, data, inodes, dinodes := st.bitmap, st.data, st.dinodes, st.dinodes;
      this.names, this.owner, this.files := names, owner, files;
      logged, nfree, base, freed := {}, FreeBlocks(Bitmap.Marks(st.bitmap, |st.data|)), st, false;
      calls := [];
    }

    ghost predicate Shape()
      reads this
    {
      && Bitmap.Covers(bitmap, size) && |bitmap| == nbitmap && |data| == size <= U32
      && Booked(base, OnDisk(), size, logged, calls, nfree, freed)
    }

    function OnDisk(): (s: Stored)
      reads this
    {
      Stored(bitmap, dinodes, data)
    }

    /** Start a transaction: nothing has been passed to log_write. */
    method Begin()
      requires Shape()
      modifies `logged, `calls, `base, `freed
      ensures Shape() && logged == {} && calls == [] && base == OnDisk() && !freed
    {
      BookedAnew(base, OnDisk(), size, logged, calls, nfree, freed);
      logged, base, freed := {}, OnDisk(), false;
      calls := [];
    }

    /** A call of log_write on sector `x`. */
    method LogWrite(x: Sector)
      requires Bitmap.Covers(bitmap, size) && Booked(base, OnDisk(), size, logged + {x}, calls + [x], nfree, freed)
      modifies `logged, `calls
      ensures Booked(base, OnDisk(), size, logged, calls, nfree, freed)
      ensures calls == old(calls) + [x] && logged == old(logged) + {x}
    {
      logged := logged + {x};
      calls := calls + [x];
    }

    ghost function Marks(): (r: seq<bool>)
      reads this
      requires Shape()
      ensures |r| == size
    {
      Bitmap.Marks(bitmap, size)
    }

    ghost predicate Maps()
      reads this
    {
      && Shape() && Sizes(names, inodes) && |files| == |inodes|
      && Sound(names, owner, Marks(), first, inodes, data, files)
    }

    /** Between operations: sizes agree with contents, and the inodes on disk with those in memory. */
    ghost predicate Valid()
      reads this
    {
      Maps() && SizesOk(inodes, files) && dinodes == inodes
    }

    ghost predicate Full()
      reads this
      requires Shape()
    {
      forall b :: 0 <= b < size ==> Marks()[b]
    }

    /** Change block `b` and pass it to log_write. */
    method Store(b: nat, blk: Block)
      requires Shape() && b < size
      modifies `data, `logged, `calls
      ensures Shape() && data == old(data)[b := blk] && logged == old(logged) + {DataAt(b)}
    {
      BlockStored(base, OnDisk(), size, logged, calls, nfree, freed, b, blk);
      data := data[b := blk];
      LogWrite(DataAt(b));
    }

    /** The search of balloc: mark the lowest free block. */
    method TakeBlock() returns (r: Alloc)
      requires Shape()
      modifies `bitmap, `nfree, `logged, `calls
      ensures Shape()
      ensures r.OutOfBlocks? <==> old(nfree) == 0
      ensures r.OutOfBlocks? ==> bitmap == old(bitmap) && logged == old(logged) && nfree == 0 && Full()
      ensures r.Got? ==> r.b < size && !old(Marks())[r.b] && forall b :: 0 <= b < r.b ==> old(Marks())[b]
      ensures r.Got? ==> Marks() == old(Marks())[r.b := true] && nfree == old(nfree) - 1
      ensures r.Got? ==> logged <= old(logged) + Bitmaps(nbitmap)
    {
      var f := Bitmap.FindFree(bitmap, size);
      if f.Full? {
        NoMarkLeft(base, OnDisk(), size, logged, calls, nfree, freed);
        return OutOfBlocks;
      }
      MarkTaken(base, OnDisk(), size, logged, calls, nfree, freed, f.b);
      InBitmaps(nbitmap, f.b / Bitmap.BPB);
      bitmap, nfree := Bitmap.WithMark(bitmap, size, f.b), nfree - 1;
      LogWrite(BitmapAt(f.b / Bitmap.BPB));
      r := Got(f.b);
    }

    /** Allocate a zeroed disk block. */
    method Balloc() returns (r: Alloc)
      requires Shape()
      modifies `bitmap, `nfree, `data, `logged, `calls
      ensures Shape()
      ensures r.OutOfBlocks? <==> old(nfree) == 0
      ensures r.OutOfBlocks? ==> bitmap == old(bitmap) && data == old(data) && logged == old(logged) && Full()
      ensures nfree == old(nfree) - if r.Got? then 1 else 0
      ensures r.Got? ==> r.b < size && !old(Marks())[r.b] && forall b :: 0 <= b < r.b ==> old(Marks())[b]
      ensures r.Got? ==> Marks() == old(Marks())[r.b := true] && data == old(data)[r.b := ZeroBlock()]
      ensures r.Got? ==> logged <= old(logged) + Bitmaps(nbitmap) + {DataAt(r.b)}
    {
      r := TakeBlock();
      if r.Got? {
        Store(r.b, ZeroBlock());
      }
    }

    /** Free a disk block; `false` is the panic on a block that is free already. */
    method Bfree(b: nat) returns (ok: bool)
      requires Shape() && b < size
      modifies `bitmap, `nfree, `freed, `logged, `calls
      ensures Shape() && ok == old(Marks())[b]
      ensures !ok ==> bitmap == old(bitmap)
      ensures ok ==> Marks() == old(Marks())[b := false]
      ensures logged <= old(logged) + Bitmaps(nbitmap)
    {
      InBitmaps(nbitmap, b / Bitmap.BPB);
      MarkDropped(base, OnDisk(), size, logged, calls, nfree, freed, b);
      if bitmap[b / Bitmap.BPB][b % Bitmap.BPB / 8] & Bitmap.Mask(b % Bitmap.BPB % 8) == 0 {
        return false;
      }
      bitmap, nfree, freed := Bitmap.WithoutMark(bitmap, size, b), nfree + 1, true;
      LogWrite(BitmapAt(b / Bitmap.BPB));
      ok := true;
    }

    /** Allocate a block for an empty entry of `addrs`: a direct one or the indirect block. */
    method AllocAddr(i: nat, k: nat) returns (r: Alloc)
      requires Maps() && i < |inodes| && k <= NDIRECT && inodes[i].addrs[k] == 0
      modifies `bitmap, `nfree, `data, `logged, `calls, `inodes, `names, `owner
      ensures Maps() && files == old(files) && dinodes == old(dinodes)
      ensures r.OutOfBlocks? <==> old(nfree) == 0
      ensures nfree == old(nfree) - if r.Got? then 1 else 0
      ensures r.OutOfBlocks? ==> inodes == old(inodes) && names == old(names) && data == old(data) && Full()
      ensures r.Got? ==> 0 < r.b < size && names == WithName(old(names), i, k, r.b)
      ensures r.Got? ==> inodes == old(inodes)[i := old(inodes)[i].(addrs := old(inodes)[i].addrs[k := r.b])]
      ensures r.Got? ==> data == old(data)[r.b := ZeroBlock()]
      ensures logged <= old(logged) + Bitmaps(nbitmap) + if r.Got? then {DataAt(r.b)} else {}
    {
      r := Balloc();
      if r.Got? {
        NameAddr(i, k, r.b, old(Marks()), old(data));
      }
    }

    /** Store the new block `b` as entry `k` of `addrs`. */
    method NameAddr(i: nat, k: nat, b: nat, ghost marks: seq<bool>, ghost before: seq<Block>)
      requires Shape() && Sizes(names, inodes) && |files| == |inodes| && i < |inodes| && k <= NDIRECT
      requires Sound(names, owner, marks, first, inodes, before, files) && inodes[i].addrs[k] == 0
      requires b < |marks| == size == |before| && !marks[b] && Marks() == marks[b := true]
      requires data == before[b := ZeroBlock()]
      modifies `inodes, `names, `owner
      ensures Maps() && 0 < b && names == WithName(old(names), i, k, b)
      ensures inodes == old(inodes)[i := old(inodes)[i].(addrs := old(inodes)[i].addrs[k := b])]
    {
      SoundAddr(names, owner, marks, first, inodes, before, files, i, k, b);
      inodes := inodes[i := inodes[i].(addrs := inodes[i].addrs[k := b])];
      names, owner := WithName(names, i, k, b), owner[b := At(i, k)];
    }

    /** Allocate a block for an empty entry of the indirect block. */
    method AllocEntry(i: nat, j: nat) returns (r: Alloc)
      requires Maps() && i < |inodes| && j < NINDIRECT && inodes[i].addrs[NDIRECT] != 0
      requires names[i][NDIRECT + 1 + j] == 0
      modifies `bitmap, `nfree, `data, `logged, `calls, `inodes, `names, `owner
      ensures Maps() && files == old(files) && dinodes == old(dinodes) && inodes == old(inodes)
      ensures r.OutOfBlocks? <==> old(nfree) == 0
      ensures nfree == old(nfree) - if r.Got? then 1 else 0
      ensures r.OutOfBlocks? ==> names == old(names) && data == old(data) && Full()
      ensures r.Got? ==> 0 < r.b < size && names == WithName(old(names), i, NDIRECT + 1 + j, r.b)
      ensures logged <= old(logged) + Bitmaps(nbitmap) + {DataAt(inodes[i].addrs[NDIRECT])}
                        + if r.Got? then {DataAt(r.b)} else {}
    {
      var ind := inodes[i].addrs[NDIRECT];
      SoundNames(names, owner, Marks(), first, inodes, data, files, i);
      var bp := data[ind];
      r := Balloc();
      if r.Got? {
        NameEntry(i, j, bp, r.b, old(Marks()), old(data));
      }
    }

    /** Store the new block `b` as entry `j` of the indirect block, which was `bp`. */
    method NameEntry(i: nat, j: nat, bp: Block, b: nat, ghost marks: seq<bool>, ghost before: seq<Block>)
      requires Shape() && Sizes(names, inodes) && |files| == |inodes| && i < |inodes| && j < NINDIRECT
      requires Sound(names, owner, marks, first, inodes, before, files) && names[i][NDIRECT + 1 + j] == 0
      requires b < |marks| == size == |before| && !marks[b] && Marks() == marks[b := true]
      requires data == before[b := ZeroBlock()]
      requires var ind := inodes[i].addrs[NDIRECT]; 0 < ind < size && bp == before[ind]
      modifies `data, `names, `owner, `logged, `calls
      ensures Maps() && 0 < b && names == WithName(old(names), i, NDIRECT + 1 + j, b)
      ensures logged == old(logged) + {DataAt(inodes[i].addrs[NDIRECT])}
    {
      var ind := inodes[i].addrs[NDIRECT];
      SoundEntry(names, owner, marks, first, inodes, before, files, i, j, b);
      names, owner := WithName(names, i, NDIRECT + 1 + j, b), owner[b := At(i, NDIRECT + 1 + j)];
      Store(ind, PutWord(bp, j, b));
    }

    /** The entry of the indirect block, allocated if there is none. */
    method BmapEntry(i: nat, bn: nat) returns (r: Mapped)
      requires Maps() && i < |inodes| && NDIRECT <= bn < MAXFILE && inodes[i].addrs[NDIRECT] != 0
      modifies `bitmap, `nfree, `data, `logged, `calls, `inodes, `names, `owner
      ensures Maps() && files == old(files) && dinodes == old(dinodes) && inodes == old(inodes)
      ensures !r.OutOfRange? && (r.NoBlocks? ==> Full())
      ensures r.NoBlocks? <==> old(nfree) < BlockNeed(old(names)[i], bn)
      ensures r.Addr? ==> nfree == old(nfree) - BlockNeed(old(names)[i], bn)
      ensures r.Addr? ==> r.b == names[i][SlotOf(bn)] && 0 < r.b < size
      ensures names[i][NDIRECT] == inodes[i].addrs[NDIRECT]
      ensures old(names)[i][SlotOf(bn)] != 0 ==> r.Addr? && unchanged(this)
      ensures r.Addr? && old(names)[i][SlotOf(bn)] == 0 ==> names == WithName(old(names), i, SlotOf(bn), r.b)
      ensures r.NoBlocks? ==> names == old(names)
      ensures logged <= old(logged) + Bitmaps(nbitmap) + MapSectors(names[i], bn)
    {
      var j := bn - NDIRECT;
      var ind := inodes[i].addrs[NDIRECT];
      SoundNames(names, owner, Marks(), first, inodes, data, files, i);
      assert names[i][SlotOf(bn)] == names[i][NDIRECT + 1..][j];
      EntriesAt(data[ind]);
      var addr := Word(data[ind], j);
      if addr == 0 {
        var a := AllocEntry(i, j);
        r := if a.Got? then Addr(a.b) else NoBlocks;
      } else {
        SoundNamed(names, owner, Marks(), first, inodes, data, files, i, SlotOf(bn));
        r := Addr(addr);
      }
    }

    /** The indirect part of bmap: load the indirect block, allocating it if necessary, then the entry. */
    method BmapIndirect(i: nat, bn: nat) returns (r: Mapped)
      requires Maps() && i < |inodes| && NDIRECT <= bn < MAXFILE
      modifies `bitmap, `nfree, `data, `logged, `calls, `inodes, `names, `owner
      ensures Maps() && files == old(files) && dinodes == old(dinodes)
      ensures !r.OutOfRange? && (r.NoBlocks? ==> Full())
      ensures r.NoBlocks? <==> old(nfree) < BlockNeed(old(names)[i], bn)
      ensures r.Addr? ==> nfree == old(nfree) - BlockNeed(old(names)[i], bn)
      ensures r.Addr? ==> r.b == names[i][SlotOf(bn)] && 0 < r.b < size
      ensures old(names)[i][SlotOf(bn)] != 0 ==> r.Addr? && unchanged(this)
      ensures Grown(old(names), names, i, bn) && KeepsRest(old(inodes), inodes, i)
      ensures r.Addr? ==> names[i][NDIRECT] != 0
      ensures logged <= old(logged) + Bitmaps(nbitmap) + MapSectors(names[i], bn)
    {
      var j := bn - NDIRECT;
      if inodes[i].addrs[NDIRECT] == 0 {
        SoundNames(names, owner, Marks(), first, inodes, data, files, i);
        assert names[i][NDIRECT + 1..][j] == 0;
        var a := AllocAddr(i, NDIRECT);
        if a.OutOfBlocks? {
          return NoBlocks;
        }
      }
      r := BmapEntry(i, bn);
    }

    /** The disk block that holds file block `bn` of inode `i`, allocated if there is none. */
    method Bmap(i: nat, bn: nat) returns (r: Mapped)
      requires Maps() && i < |inodes|
      modifies `bitmap, `nfree, `data, `logged, `calls, `inodes, `names, `owner
      ensures Maps() && files == old(files) && dinodes == old(dinodes)
      ensures r.OutOfRange? <==> bn >= MAXFILE
      ensures r.NoBlocks? <==> bn < MAXFILE && old(nfree) < BlockNeed(old(names)[i], bn)
      ensures r.NoBlocks? ==> Full()
      ensures r.Addr? ==> nfree == old(nfree) - BlockNeed(old(names)[i], bn)
      ensures r.Addr? && bn >= NDIRECT ==> names[i][NDIRECT] != 0
      ensures r.Addr? ==> r.b == names[i][SlotOf(bn)] && 0 < r.b < size
      ensures r.OutOfRange? ==> unchanged(this)
      ensures bn < MAXFILE && old(names)[i][SlotOf(bn)] != 0 ==> r.Addr? && unchanged(this)
      ensures Grown(old(names), names, i, bn) && KeepsRest(old(inodes), inodes, i)
      ensures bn < MAXFILE ==> logged <= old(logged) + Bitmaps(nbitmap) + MapSectors(names[i], bn)
    {
      if bn < NDIRECT {
        SoundNames(names, owner, Marks(), first, inodes, data, files, i);
        if inodes[i].addrs[bn] != 0 {
          SoundNamed(names, owner, Marks(), first, inodes, data, files, i, bn);
          return Addr(inodes[i].addrs[bn]);
        }
        var a := AllocAddr(i, bn);
        r := if a.Got? then Addr(a.b) else NoBlocks;
      } else if bn - NDIRECT < NINDIRECT {
        r := BmapIndirect(i, bn);
      } else {
        r := OutOfRange;
      }
    }

    /** Copy a piece into block `b`, which holds offset `off` of inode `i`. */
    method WriteBlock(i: nat, off: nat, piece: seq<byte>, b: nat)
      requires Maps() && i < |inodes| && off <= |files[i]| && off % BSIZE + |piece| <= BSIZE
      requires 0 < |piece| && off + |piece| <= MAXFILE * BSIZE && b == names[i][SlotOf(off / BSIZE)] && b != 0
      modifies `data, `files, `logged, `calls
      ensures Maps() && files == old(files)[i := Splice(old(files)[i], off, piece)]
      ensures logged == old(logged) + {DataAt(b)}
    {
      SoundWrite(names, owner, Marks(), first, inodes, data, files, i, off, piece);
      Store(b, Patch(data[b], off % BSIZE, piece));
      files := files[i := Splice(files[i], off, piece)];
    }

    /** Copy a piece that lies within one block into inode `i` at `off`. */
    method WritePiece(i: nat, off: nat, piece: seq<byte>) returns (ok: bool)
      requires Maps() && i < |inodes| && off <= |files[i]| && off % BSIZE + |piece| <= BSIZE
      requires 0 < |piece| && off + |piece| <= MAXFILE * BSIZE
      modifies `bitmap, `nfree, `data, `logged, `calls, `inodes, `names, `owner, `files
      ensures Shape() && dinodes == old(dinodes)
      ensures ok <==> old(nfree) >= BlockNeed(old(names)[i], off / BSIZE)
      ensures !ok ==> Full()
      ensures ok ==> nfree == old(nfree) - BlockNeed(old(names)[i], off / BSIZE)
      ensures ok ==> Maps() && files == old(files)[i := Splice(old(files)[i], off, piece)]
      ensures ok ==> names[i][SlotOf(off / BSIZE)] != 0 && (off / BSIZE >= NDIRECT ==> names[i][NDIRECT] != 0)
      ensures Grown(old(names), names, i, off / BSIZE) && KeepsRest(old(inodes), inodes, i)
      ensures old(names)[i][SlotOf(off / BSIZE)] != 0 ==> ok && inodes == old(inodes)
      ensures logged <= old(logged) + Bitmaps(nbitmap) + MapSectors(names[i], off / BSIZE)
    {
      var a := Bmap(i, off / BSIZE);
      if !a.Addr? {
        return false;
      }
      WriteBlock(i, off, piece, a.b);
      ok := true;
    }

    /** Copy the in-memory inode to disk. */
    method Iupdate(i: nat)
      requires Shape() && i < |inodes| == |dinodes|
      modifies `dinodes, `logged, `calls
      ensures Shape() && dinodes == old(dinodes)[i := inodes[i]] && logged == old(logged) + {InodesAt(i / IPB)}
    {
      InodeStored(base, OnDisk(), size, logged, calls, nfree, freed, i, inodes[i]);
      dinodes := dinodes[i := inodes[i]];
      LogWrite(InodesAt(i / IPB));
    }

    ghost function Now(): (v: View)
      reads this
    {
      View(names, inodes, files, logged)
    }

    /** The same, seen as a change of the view. */
    method WriteTurn(i: nat, off: nat, piece: seq<byte>) returns (ok: bool)
      requires Maps() && i < |inodes| && off <= |files[i]| && off % BSIZE + |piece| <= BSIZE
      requires 0 < |piece| && off + |piece| <= MAXFILE * BSIZE
      modifies `bitmap, `nfree, `data, `logged, `calls, `inodes, `names, `owner, `files
      ensures Shape() && dinodes == old(dinodes)
      ensures ok <==> old(nfree) >= BlockNeed(old(names)[i], off / BSIZE)
      ensures !ok ==> Full()
      ensures ok ==> Maps() && |inodes| == |old(inodes)| && nfree == old(nfree) - BlockNeed(old(names)[i], off / BSIZE)
      ensures ok ==> Turned(old(Now()), Now(), i, off, piece, off / BSIZE, nbitmap)
    {
      if off < |files[i]| {
        SoundByte(names, owner, Marks(), first, inodes, data, files, i, off);
      }
      ok := WritePiece(i, off, piece);
    }

    /** One turn of the copying loop of writei: the piece from `tot` on that fits its block. */
    method WriteNext(i: nat, src: seq<byte>, off0: nat, tot: nat, ghost start: View, ghost free0: nat)
      returns (ok: bool, m: nat)
      requires Maps() && i < |inodes| && tot < |src| && off0 + |src| <= MAXFILE * BSIZE
      requires ViewOk(start, i) && Writing(start, Now(), i, off0, src, tot, nbitmap, free0, nfree)
      modifies `bitmap, `nfree, `data, `logged, `calls, `inodes, `names, `owner, `files
      ensures Shape() && dinodes == old(dinodes)
      ensures !ok ==> Full() && free0 < Needed(start.names[i], off0 / BSIZE, EndBlock(off0, |src|))
      ensures ok ==> 0 < m <= |src| - tot && Maps() && |inodes| == |old(inodes)|
      ensures ok ==> Writing(start, Now(), i, off0, src, tot + m, nbitmap, free0, nfree)
    {
      m := PieceLength(off0 + tot, |src| - tot);
      NextPiece(off0, |src|, tot);
      ghost var bn := (off0 + tot) / BSIZE;
      WritingSo(start, Now(), i, off0, src, tot, nbitmap, free0, nfree);
      ok := WriteTurn(i, off0 + tot, src[tot..tot + m]);
      if ok {
        WritingMore(start, old(Now()), Now(), i, off0, src, tot, m, bn, nbitmap, free0, old(nfree));
      } else {
        PaidShort(start.names[i], old(names)[i], off0 / BSIZE, bn, EndBlock(off0, |src|), free0, old(nfree));
      }
    }

    /** The copying loop of writei. */
    method WriteLoop(i: nat, src: seq<byte>, off0: nat) returns (ok: bool)
      requires Maps() && i < |inodes| && off0 <= |files[i]| && off0 + |src| <= MAXFILE * BSIZE
      modifies `bitmap, `nfree, `data, `logged, `calls, `inodes, `names, `owner, `files
      ensures Shape() && dinodes == old(dinodes)
      ensures ok <==> old(nfree) >= Needed(old(names)[i], off0 / BSIZE, EndBlock(off0, |src|))
      ensures !ok ==> Full()
      ensures ok ==>
        Maps() && i < |names| && Paid(old(names)[i], names[i], off0 / BSIZE, EndBlock(off0, |src|), old(nfree), nfree)
      ensures ok ==> Wrote(old(Now()), Now(), i, off0, src, EndBlock(off0, |src|), nbitmap)
    {
      var n, tot := |src|, 0;
      WritingNothing(Now(), i, off0, src, nbitmap, nfree);
      while tot < n
        invariant 0 <= tot <= n && Maps() && dinodes == old(dinodes) && i < |inodes|
        invariant Writing(old(Now()), Now(), i, off0, src, tot, nbitmap, old(nfree), nfree)
      {
        var done, m := WriteNext(i, src, off0, tot, old(Now()), old(nfree));
        if !done {
          return false;
        }
        tot := tot + m;
      }
      WritingDone(old(Now()), Now(), i, off0, src, nbitmap, old(nfree), nfree);
      ok := true;
    }

    /** The end of writei: record the larger size. */
    method SetSize(i: nat, size: uint)
      requires Maps() && i < |inodes| == |dinodes| && |files[i]| == size
      requires forall j :: 0 <= j < |inodes| && j != i ==> inodes[j].size == |files[j]| && dinodes[j] == inodes[j]
      modifies `inodes, `dinodes, `logged, `calls
      ensures Valid() && inodes == old(inodes)[i := old(inodes)[i].(size := size)]
      ensures logged == old(logged) + {InodesAt(i / IPB)}
    {
      SoundResize(names, owner, Marks(), first, inodes, data, files, i, size);
      inodes := inodes[i := inodes[i].(size := size)];
      Iupdate(i);
      assert dinodes == inodes;
    }

    /** Write `src` to inode `i` at `off`. */
    method Writei(i: nat, src: seq<byte>, off: uint) returns (r: Written)
      requires Valid() && i < |inodes| && |src| < U32
      modifies `bitmap, `nfree, `data, `logged, `calls, `inodes, `names, `owner, `files, `dinodes
      ensures r.WriteDevice? <==> old(inodes)[i].kind == T_DEV
      ensures r.Refused? <==>
        old(inodes)[i].kind != T_DEV && (off > |old(files)[i]| || off + |src| >= U32 || off + |src| > MAXFILE * BSIZE)
      ensures r.WriteDevice? || r.Refused? ==> unchanged(this)
      ensures r.WritePanic? ==> Shape() && Full()
      ensures old(inodes)[i].kind != T_DEV && off <= |old(files)[i]| && off + |src| <= MAXFILE * BSIZE ==>
        (r.WritePanic? <==> old(nfree) < Needed(old(names)[i], off / BSIZE, EndBlock(off, |src|)))
      ensures r.Count? ==> Valid() && r.n == |src| && files == old(files)[i := Splice(old(files)[i], off, src)]
      ensures r.Count? ==> forall j :: 0 <= j < |inodes| && j != i ==> inodes[j] == old(inodes)[j]
      ensures r.Count? ==> SameHead(inodes[i], old(inodes)[i])
      ensures r.Count? ==> Paid(old(names)[i], names[i], off / BSIZE, EndBlock(off, |src|), old(nfree), nfree)
      ensures r.Count? && |src| > 0 ==>
        EndBlock(off, |src|) <= MAXFILE && names[i][SlotOf(EndBlock(off, |src|) - 1)] != 0
      ensures r.Count? ==> logged <= old(logged) + WriteSectors(names[i], off, |src|, i, nbitmap)
    {
      var n := |src|;
      if inodes[i].kind == T_DEV {
        return WriteDevice;
      }
      if off > inodes[i].size || (off + n) % U32 < off {
        return Refused;
      }
      if (off + n) % U32 > MAXFILE * BSIZE {
        return Refused;
      }
      var ok := WriteLoop(i, src, off);
      if !ok {
        return WritePanic;
      }
      CloseWrite(i, off, n, src, old(Now()));
      r := Count(n);
    }

    /** The end of writei: the inode goes to disk if the file has grown. */
    method CloseWrite(i: nat, off: uint, n: nat, ghost src: seq<byte>, ghost start: View)
      requires Maps() && n == |src| && off + n <= MAXFILE * BSIZE && ViewOk(start, i) && off <= |start.files[i]|
      requires SizesOk(start.inodes, start.files) && dinodes == start.inodes
      requires Wrote(start, Now(), i, off, src, EndBlock(off, n), nbitmap)
      modifies `inodes, `dinodes, `logged, `calls
      ensures Valid() && files == start.files[i := Splice(start.files[i], off, src)] && |inodes| == |start.inodes|
      ensures forall j :: 0 <= j < |inodes| && j != i ==> inodes[j] == start.inodes[j]
      ensures SameHead(inodes[i], start.inodes[i])
      ensures n > 0 ==> EndBlock(off, n) <= MAXFILE && names[i][SlotOf(EndBlock(off, n) - 1)] != 0
      ensures logged <= start.logged + WriteSectors(names[i], off, n, i, nbitmap)
    {
      WroteSo(start, Now(), i, off, src, EndBlock(off, n), nbitmap);
      WroteSectors(start, Now(), i, off, src, nbitmap);
      if n > 0 && off + n > inodes[i].size {
        SetSize(i, off + n);
      }
    }

    /** Read `n` bytes of inode `i` from `off`. */
    method Readi(i: nat, off: uint, n: uint) returns (r: Read)
      requires Valid() && i < |inodes|
      modifies `bitmap, `nfree, `data, `logged, `calls, `inodes, `names, `owner
      ensures unchanged(this)
      ensures r.ReadDevice? <==> inodes[i].kind == T_DEV
      ensures r.BadRange? <==> inodes[i].kind != T_DEV && (off > |files[i]| || off + n >= U32)
      ensures r.Content? ==> r.s == if off + n <= |files[i]| then files[i][off..off + n] else files[i][off..]
    {
      if inodes[i].kind == T_DEV {
        return ReadDevice;
      }
      if off > inodes[i].size || (off + n) % U32 < off {
        return BadRange;
      }
      var len := if (off + n) % U32 > inodes[i].size then inodes[i].size - off else n;
      var dst := ReadLoop(i, off, len);
      r := Content(dst);
    }

    /** The copying loop of readi; with no holes below the size, bmap allocates nothing. */
    method ReadLoop(i: nat, off: nat, n: nat) returns (dst: seq<byte>)
      requires Maps() && i < |inodes| && off + n <= |files[i]|
      modifies `bitmap, `nfree, `data, `logged, `calls, `inodes, `names, `owner
      ensures unchanged(this) && dst == files[i][off..off + n]
    {
      var tot := 0;
      dst := [];
      while tot < n
        invariant 0 <= tot <= n && Maps() && unchanged(this)
        invariant dst == files[i][off..off + tot]
      {
        var m := PieceLength(off + tot, n - tot);
        SoundPiece(names, owner, Marks(), first, inodes, data, files, i, off + tot, m);
        var a := Bmap(i, (off + tot) / BSIZE);
        var at := (off + tot) % BSIZE;
        Extended(files[i], off, tot, m);
        dst := dst + data[a.b][at..at + m];
        tot := tot + m;
      }
    }

    /** Free block `b`, which place `k` of inode `i` names; the caller erases the name. */
    method FreeNamed(i: nat, ghost k: nat, b: nat) returns (ok: bool)
      requires Shape() && Shaped(names) && i < |names| && k < NSLOTS && b == names[i][k] && 0 < b < size == |owner|
      modifies `bitmap, `nfree, `freed, `logged, `calls, `names, `owner
      ensures Shape() && ok == old(Marks())[b]
      ensures ok ==> Marks() == old(Marks())[b := false]
      ensures ok ==> names == WithName(old(names), i, k, 0) && owner == old(owner)[b := NoOne]
      ensures logged <= old(logged) + Bitmaps(nbitmap)
    {
      ok := Bfree(b);
      names := WithName(names, i, k, 0);
      owner := owner[b := NoOne];
    }

    method FreeDirect(i: nat, k: nat, ghost names0: Names, ghost owner0: seq<Owner>) returns (ok: bool)
      requires Maps() && i < |inodes| && files[i] == [] && k < NDIRECT && inodes[i].addrs[k] != 0
      requires Dropped(names0, owner0, names, owner, i)
      modifies `bitmap, `nfree, `freed, `logged, `calls, `names, `owner, `inodes
      ensures ok && Maps() && Dropped(names0, owner0, names, owner, i)
      ensures inodes == old(inodes)[i := old(inodes)[i].(addrs := old(inodes)[i].addrs[k := 0])]
      ensures logged <= old(logged) + Bitmaps(nbitmap)
    {
      SoundFreeDirect(names, owner, Marks(), first, inodes, data, files, i, k);
      DroppedMore(names0, owner0, names, owner, i, k);
      ok := FreeNamed(i, k, inodes[i].addrs[k]);
      inodes := inodes[i := inodes[i].(addrs := inodes[i].addrs[k := 0])];
    }

    /** The first loop of itrunc: free the direct blocks. */
    method TruncDirect(i: nat, ghost names0: Names, ghost owner0: seq<Owner>) returns (ok: bool)
      requires Maps() && i < |inodes| && files[i] == [] && Dropped(names0, owner0, names, owner, i)
      modifies `bitmap, `nfree, `freed, `logged, `calls, `names, `owner, `inodes
      ensures ok && Maps() && Dropped(names0, owner0, names, owner, i)
      ensures KeepsRest(old(inodes), inodes, i) && NoDirect(inodes[i].addrs, NDIRECT)
      ensures inodes[i].addrs[NDIRECT] == old(inodes)[i].addrs[NDIRECT]
      ensures logged <= old(logged) + Bitmaps(nbitmap)
    {
      var k := 0;
      ok := true;
      while ok && k < NDIRECT
        invariant ok && 0 <= k <= NDIRECT && Maps() && i < |inodes|
        invariant logged <= old(logged) + Bitmaps(nbitmap)
        invariant Dropped(names0, owner0, names, owner, i) && KeepsRest(old(inodes), inodes, i)
        invariant NoDirect(inodes[i].addrs, k) && inodes[i].addrs[NDIRECT] == old(inodes)[i].addrs[NDIRECT]
      {
        if inodes[i].addrs[k] != 0 {
          ok := FreeDirect(i, k, names0, owner0);
        }
        k := k + 1;
      }
    }

    /** Entry `j` of the indirect block of inode `i`, which is `b`. */
    method FreeEntry(i: nat, j: nat, b: nat, ghost names0: Names, ghost owner0: seq<Owner>) returns (ok: bool)
      requires Shape() && Sizes(names, inodes) && i < |names| && j < NINDIRECT && 0 < inodes[i].addrs[NDIRECT] < size
      requires b == Entries(data[inodes[i].addrs[NDIRECT]])[j]
      requires Emptying(names, owner, Marks(), first, inodes, data, files, i, j)
      requires Dropped(names0, owner0, names, owner, i)
      modifies `bitmap, `nfree, `freed, `logged, `calls, `names, `owner
      ensures ok && Shape() && Sizes(names, inodes) && Dropped(names0, owner0, names, owner, i)
      ensures Emptying(names, owner, Marks(), first, inodes, data, files, i, j + 1)
      ensures logged <= old(logged) + Bitmaps(nbitmap)
    {
      EmptyStep(names, owner, Marks(), first, inodes, data, files, i, j);
      ok := true;
      if b != 0 {
        DroppedMore(names0, owner0, names, owner, i, NDIRECT + 1 + j);
        ok := FreeNamed(i, NDIRECT + 1 + j, b);
      }
    }

    /** The blocks named in the indirect block of inode `i`. */
    method TruncEntries(i: nat, ghost names0: Names, ghost owner0: seq<Owner>) returns (ok: bool)
      requires Shape() && Sizes(names, inodes) && i < |inodes| && 0 < inodes[i].addrs[NDIRECT] < size
      requires Emptying(names, owner, Marks(), first, inodes, data, files, i, 0)
      requires Dropped(names0, owner0, names, owner, i)
      modifies `bitmap, `nfree, `freed, `logged, `calls, `names, `owner
      ensures ok && Shape() && Sizes(names, inodes) && Dropped(names0, owner0, names, owner, i)
      ensures Emptying(names, owner, Marks(), first, inodes, data, files, i, NINDIRECT)
      ensures logged <= old(logged) + Bitmaps(nbitmap)
    {
      var a := data[inodes[i].addrs[NDIRECT]];
      EntriesAt(a);
      var j := 0;
      ok := true;
      while ok && j < NINDIRECT
        invariant ok && 0 <= j <= NINDIRECT && Shape() && Sizes(names, inodes) && i < |names|
        invariant Emptying(names, owner, Marks(), first, inodes, data, files, i, j)
        invariant logged <= old(logged) + Bitmaps(nbitmap)
        invariant Dropped(names0, owner0, names, owner, i)
      {
        ok := FreeEntry(i, j, Word(a, j), names0, owner0);
        j := j + 1;
      }
    }

    /** The rest of itrunc's freeing: the blocks named in the indirect block, then that block. */
    method TruncIndirect(i: nat, ghost names0: Names, ghost owner0: seq<Owner>) returns (ok: bool)
      requires Maps() && i < |inodes| && files[i] == [] && Dropped(names0, owner0, names, owner, i)
      requires NoDirect(inodes[i].addrs, NDIRECT)
      modifies `bitmap, `nfree, `freed, `logged, `calls, `names, `owner, `inodes
      ensures ok && Maps() && Dropped(names0, owner0, names, owner, i)
      ensures KeepsRest(old(inodes), inodes, i) && inodes[i].addrs == NoAddrs()
      ensures logged <= old(logged) + Bitmaps(nbitmap)
    {
      ok := true;
      if inodes[i].addrs[NDIRECT] != 0 {
        EmptyStart(names, owner, Marks(), first, inodes, data, files, i);
        ok := TruncEntries(i, names0, owner0);
        EmptyEnd(names, owner, Marks(), first, inodes, data, files, i);
        DroppedMore(names0, owner0, names, owner, i, NDIRECT);
        ok := FreeNamed(i, NDIRECT, inodes[i].addrs[NDIRECT]);
        inodes := inodes[i := inodes[i].(addrs := inodes[i].addrs[NDIRECT := 0])];
      }
      assert inodes[i].addrs == NoAddrs();
    }

    /** Truncate inode `i`: its blocks, and no others, become free. Result `false` would be the panic
        "freeing free block". */
    method Itrunc(i: nat) returns (ok: bool)
      requires Valid() && i < |inodes|
      modifies `bitmap, `nfree, `freed, `logged, `calls, `names, `owner, `inodes, `dinodes, `files
      ensures ok && Valid() && data == old(data) && files == old(files)[i := []]
      ensures inodes == old(inodes)[i := old(inodes)[i].(size := 0, addrs := NoAddrs())]
      ensures forall b :: 0 < b < size ==> (Marks()[b] <==> old(Marks())[b] && b !in old(names)[i])
      ensures logged <= old(logged) + Bitmaps(nbitmap) + {InodesAt(i / IPB)}
    {
      SoundEmpty(names, owner, Marks(), first, inodes, data, files, i);
      files := files[i := []];
      ok := TruncDirect(i, names, owner);
      ok := TruncIndirect(i, old(names), old(owner));
      DropExact(old(names), old(owner), old(Marks()), names, owner, Marks(), first, i,
                old(inodes), old(data), old(files), inodes, data, files);
      SetSize(i, 0);
      assert inodes == old(inodes)[i := old(inodes)[i].(size := 0, addrs := NoAddrs())];
    }
  }

  datatype View = View(names: Names, inodes: seq<Inode>, files: seq<seq<byte>>, logged: set<Sector>)

  ghost predicate ViewOk(v: View, i: nat)
  {
    Sizes(v.names, v.inodes) && |v.files| == |v.inodes| && i < |v.inodes|
  }

  /** What writing the string `s` at `off0` of file `i` has done, `hi` being the file block after the
      last one touched: file `i` is spliced, no other file or inode has changed, inode `i` only gained
      block addresses and only if the file grew, and the sectors logged are those of the blocks touched,
      the indirect block and the bitmap. */
  ghost predicate Wrote(v: View, w: View, i: nat, off0: nat, s: seq<byte>, hi: nat, nb: nat)
  {
    forall u: int {:trigger Unfold(u)} :: Unfold(u) && u == 1 ==>
      && ViewOk(v, i) && ViewOk(w, i) && off0 <= |v.files[i]|
      && w.files == v.files[i := Splice(v.files[i], off0, s)]
      && KeepsRest(v.inodes, w.inodes, i)
      && (off0 + |s| <= |v.files[i]| ==> w.inodes == v.inodes)
      && off0 / BSIZE <= hi <= MAXFILE
      && (forall bn :: off0 / BSIZE <= bn < hi ==> w.names[i][SlotOf(bn)] != 0)
      && w.logged <= v.logged + Bitmaps(nb) + DataSectors(w.names[i], off0 / BSIZE, hi) + IndirectSector(w.names[i])
  }

  lemma WroteNothing(v: View, i: nat, off0: nat, src: seq<byte>, nb: nat)
    requires ViewOk(v, i) && off0 <= |v.files[i]| && off0 <= MAXFILE * BSIZE
    ensures Wrote(v, v, i, off0, src[..0], off0 / BSIZE, nb)
  {
    StartSplice(v.files[i], off0, src);
  }

  lemma WroteSo(v: View, w: View, i: nat, off0: nat, s: seq<byte>, hi: nat, nb: nat)
    requires Wrote(v, w, i, off0, s, hi, nb)
    ensures ViewOk(v, i) && ViewOk(w, i) && off0 <= |v.files[i]|
    ensures w.files == v.files[i := Splice(v.files[i], off0, s)]
    ensures KeepsRest(v.inodes, w.inodes, i)
    ensures off0 + |s| <= |v.files[i]| ==> w.inodes == v.inodes
    ensures hi <= MAXFILE && (off0 / BSIZE < hi ==> w.names[i][SlotOf(hi - 1)] != 0)
  {
    assert Unfold(1);
  }

  lemma WroteMore(v: View, m: View, w: View, i: nat, off0: nat, s: seq<byte>, t: seq<byte>, hi: nat, nb: nat)
    requires Wrote(v, m, i, off0, s, hi, nb) && hi < MAXFILE && (off0 + |s|) / BSIZE == hi && 0 < |t|
    requires ViewOk(m, i) && ViewOk(w, i) && off0 + |s| <= |m.files[i]|
    requires w.files == m.files[i := Splice(m.files[i], off0 + |s|, t)]
    requires w.names[i][SlotOf(hi)] != 0
    requires Grown(m.names, w.names, i, hi) && KeepsRest(m.inodes, w.inodes, i)
    requires m.names[i][SlotOf(hi)] != 0 ==> w.inodes == m.inodes
    requires off0 + |s| < |m.files[i]| ==> m.names[i][SlotOf(hi)] != 0
    requires w.logged <= m.logged + Bitmaps(nb) + MapSectors(w.names[i], hi)
    ensures Wrote(v, w, i, off0, s + t, hi + 1, nb)
  {
    assert Unfold(1);
    SpliceTwice(v.files[i], off0, s, t);
    DataSectorsKept(m.names[i], w.names[i], off0 / BSIZE, hi);
    assert w.files == v.files[i := Splice(v.files[i], off0, s + t)];
    assert IndirectSector(m.names[i]) <= IndirectSector(w.names[i]);
  }

  /** The loop of writei after `tot` bytes of `src`. */
  ghost predicate Writing(v: View, w: View, i: nat, off0: nat, src: seq<byte>, tot: nat, nb: nat, f0: nat, f: nat)
  {
    forall u: int {:trigger Unfold(u)} :: Unfold(u) && u == 8 ==>
      && tot <= |src| && ViewOk(v, i) && ViewOk(w, i)
      && Wrote(v, w, i, off0, src[..tot], NextBlock(off0, |src|, tot), nb)
      && Paid(v.names[i], w.names[i], off0 / BSIZE, NextBlock(off0, |src|, tot), f0, f)
  }

  lemma WritingNothing(v: View, i: nat, off0: nat, src: seq<byte>, nb: nat, f: nat)
    requires ViewOk(v, i) && off0 <= |v.files[i]| && off0 <= MAXFILE * BSIZE
    ensures Writing(v, v, i, off0, src, 0, nb, f, f)
  {
    WroteNothing(v, i, off0, src, nb);
    PaidNothing(v.names[i], off0 / BSIZE, f);
  }

  lemma WritingSo(v: View, w: View, i: nat, off0: nat, src: seq<byte>, tot: nat, nb: nat, f0: nat, f: nat)
    requires Writing(v, w, i, off0, src, tot, nb, f0, f) && tot < |src| && off0 + |src| <= MAXFILE * BSIZE
    ensures ViewOk(v, i) && ViewOk(w, i) && off0 + tot <= |w.files[i]|
    ensures Paid(v.names[i], w.names[i], off0 / BSIZE, (off0 + tot) / BSIZE, f0, f)
  {
    assert Unfold(8);
    NextPiece(off0, |src|, tot);
    WroteSo(v, w, i, off0, src[..tot], NextBlock(off0, |src|, tot), nb);
  }

  /** What one turn of that loop does to the view: it writes `t` into file block `bn`. */
  ghost predicate Turned(x: View, w: View, i: nat, off: nat, t: seq<byte>, bn: nat, nb: nat)
  {
    forall u: int {:trigger Unfold(u)} :: Unfold(u) && u == 9 ==>
      && ViewOk(x, i) && ViewOk(w, i) && off <= |x.files[i]| && bn == off / BSIZE < MAXFILE && 0 < |t|
      && w.files == x.files[i := Splice(x.files[i], off, t)]
      && w.names[i][SlotOf(bn)] != 0 && (bn >= NDIRECT ==> w.names[i][NDIRECT] != 0)
      && Grown(x.names, w.names, i, bn) && KeepsRest(x.inodes, w.inodes, i)
      && (x.names[i][SlotOf(bn)] != 0 ==> w.inodes == x.inodes)
      && (off < |x.files[i]| ==> x.names[i][SlotOf(bn)] != 0)
      && w.logged <= x.logged + Bitmaps(nb) + MapSectors(w.names[i], bn)
  }

  lemma WritingMore(v: View, x: View, w: View, i: nat, off0: nat, src: seq<byte>, tot: nat, m: nat, bn: nat,
                    nb: nat, f0: nat, f: nat)
    requires Writing(v, x, i, off0, src, tot, nb, f0, f) && tot < |src| && off0 + |src| <= MAXFILE * BSIZE
    requires m == PieceLength(off0 + tot, |src| - tot)
    requires Turned(x, w, i, off0 + tot, src[tot..tot + m], bn, nb) && bn == (off0 + tot) / BSIZE < MAXFILE
    requires ViewOk(x, i) && ViewOk(w, i) && f >= BlockNeed(x.names[i], bn)
    ensures Writing(v, w, i, off0, src, tot + m, nb, f0, f - BlockNeed(x.names[i], bn))
  {
    assert Unfold(8);
    NextPiece(off0, |src|, tot);
    Joined(src, tot, m);
    TurnMore(v, x, w, i, off0, src[..tot], src[tot..tot + m], bn, nb, f0, f);
  }

  lemma TurnMore(v: View, x: View, w: View, i: nat, off0: nat, s: seq<byte>, t: seq<byte>, bn: nat, nb: nat,
                 f0: nat, f: nat)
    requires Turned(x, w, i, off0 + |s|, t, bn, nb) && ViewOk(v, i) && ViewOk(x, i) && ViewOk(w, i) && bn < MAXFILE
    requires Wrote(v, x, i, off0, s, bn, nb) && Paid(v.names[i], x.names[i], off0 / BSIZE, bn, f0, f)
    requires f >= BlockNeed(x.names[i], bn)
    ensures Wrote(v, w, i, off0, s + t, bn + 1, nb)
    ensures Paid(v.names[i], w.names[i], off0 / BSIZE, bn + 1, f0, f - BlockNeed(x.names[i], bn))
  {
    assert Unfold(9);
    PaidMore(v.names[i], x.names, w.names, i, off0 / BSIZE, bn, f0, f);
    WroteMore(v, x, w, i, off0, s, t, bn, nb);
  }

  lemma WritingDone(v: View, w: View, i: nat, off0: nat, src: seq<byte>, nb: nat, f0: nat, f: nat)
    requires Writing(v, w, i, off0, src, |src|, nb, f0, f)
    ensures ViewOk(v, i) && EndBlock(off0, |src|) <= MAXFILE
    ensures Wrote(v, w, i, off0, src, EndBlock(off0, |src|), nb)
    ensures f == f0 - Needed(v.names[i], off0 / BSIZE, EndBlock(off0, |src|))
    ensures ViewOk(w, i) && Paid(v.names[i], w.names[i], off0 / BSIZE, EndBlock(off0, |src|), f0, f)
  {
    assert Unfold(8);
    assert src[..|src|] == src;
    PaidAll(v.names[i], w.names[i], off0 / BSIZE, EndBlock(off0, |src|), f0, f);
  }

  /** Only the places that serve file block `bn` of inode `i` can have gained a name; no name is lost. */
  ghost predicate Grown(names: Names, after: Names, i: nat, bn: nat)
    requires i < |names| && Shaped(names)
  {
    && |after| == |names| && Shaped(after)
    && (forall j :: 0 <= j < |names| && j != i ==> after[j] == names[j])
    && (forall k :: 0 <= k < NSLOTS && names[i][k] != 0 ==> after[i][k] == names[i][k])
    && (forall k :: 0 <= k < NSLOTS && k != SlotOf(bn) && k != NDIRECT ==> after[i][k] == names[i][k])
    && (bn < NDIRECT ==> after[i][NDIRECT] == names[i][NDIRECT])
  }

  /** Only the block addresses of inode `i` can have changed. */
  predicate KeepsRest(inodes: seq<Inode>, after: seq<Inode>, i: nat)
    requires i < |inodes|
  {
    && |after| == |inodes|
    && (forall j :: 0 <= j < |inodes| && j != i ==> after[j] == inodes[j])
    && SameHead(after[i], inodes[i]) && after[i].size == inodes[i].size
  }

  /** The sector of the indirect block, if there is one. */
  function IndirectSector(ns: seq<nat>): (r: set<Sector>)
    requires |ns| == NSLOTS
  {
    if ns[NDIRECT] == 0 then {} else {DataAt(ns[NDIRECT])}
  }

  /** The sectors bmap may log besides the bitmap: the block itself and the indirect block. */
  function MapSectors(ns: seq<nat>, bn: nat): (r: set<Sector>)
    requires |ns| == NSLOTS && bn < MAXFILE
  {
    {DataAt(ns[SlotOf(bn)])} + IndirectSector(ns)
  }

  /** The sectors of file blocks `lo` up to `hi`. */
  ghost function DataSectors(ns: seq<nat>, lo: nat, hi: nat): (r: set<Sector>)
    requires |ns| == NSLOTS && lo <= hi <= MAXFILE
  {
    if lo == hi then {} else DataSectors(ns, lo, hi - 1) + {DataAt(ns[SlotOf(hi - 1)])}
  }

  lemma {:induction false} DataSectorsKept(ns: seq<nat>, ms: seq<nat>, lo: nat, hi: nat)
    requires |ns| == |ms| == NSLOTS && lo <= hi <= MAXFILE
    requires forall bn :: lo <= bn < hi ==> ms[SlotOf(bn)] == ns[SlotOf(bn)]
    ensures DataSectors(ms, lo, hi) == DataSectors(ns, lo, hi)
  {
    if lo < hi {
      DataSectorsKept(ns, ms, lo, hi - 1);
    }
  }

  lemma EntryLinks(names: Names, inodes: seq<Inode>, data: seq<Block>, i: nat, j: nat, b: uint,
                   marks: seq<bool>, owner: seq<Owner>, first: nat)
    requires LinksOk(names, inodes, data) && i < |names| && j < NINDIRECT && inodes[i].addrs[NDIRECT] != 0
    requires Owns(names, owner, marks, first, -1)
    ensures inodes[i].addrs[NDIRECT] < |data|
    ensures var ind := inodes[i].addrs[NDIRECT];
      LinksOk(WithName(names, i, NDIRECT + 1 + j, b), inodes, data[ind := PutWord(data[ind], j, b)])
  {
    var ind := inodes[i].addrs[NDIRECT];
    assert Linked(names[i], inodes[i].addrs, data);
    assert names[i][NDIRECT] == names[i][..NDIRECT + 1][NDIRECT] == ind;
    var after := data[ind := PutWord(data[ind], j, b)];
    var ms := WithName(names, i, NDIRECT + 1 + j, b);
    forall l | 0 <= l < |inodes| ensures Linked(ms[l], inodes[l].addrs, after) {
      if l == i {
        LinkedEntry(names[i], inodes[i].addrs, data, j, b);
      } else {
        NamedOnce(names, owner, marks, first, i, NDIRECT, l, NDIRECT);
        LinkedWrite(names[l], inodes[l].addrs, data, ind, PutWord(data[ind], j, b));
      }
    }
  }

  /** One past the last file block that `n` bytes at `off` touch. */
  function EndBlock(off: nat, n: nat): (r: nat)
  {
    if n == 0 then off / BSIZE else (off + n - 1) / BSIZE + 1
  }

  lemma Joined(s: seq<byte>, n: nat, m: nat)
    requires n + m <= |s|
    ensures s[..n] + s[n..n + m] == s[..n + m]
  {
  }

  lemma Extended(s: seq<byte>, off: nat, n: nat, m: nat)
    requires off + n + m <= |s|
    ensures s[off..off + n] + s[off + n..off + n + m] == s[off..off + n + m]
  {
  }

  lemma StartSplice(c: seq<byte>, off: nat, src: seq<byte>)
    requires off <= |c|
    ensures Splice(c, off, src[..0]) == c
  {
  }

  /** How much of `left` bytes at `off` goes into the block that holds `off`. */
  function PieceLength(off: nat, left: nat): (m: nat)
    ensures off % BSIZE + m <= BSIZE && m <= left && (left > 0 ==> m > 0)
  {
    if left < BSIZE - off % BSIZE then left else BSIZE - off % BSIZE
  }

  /** The file block the next piece goes to, once `tot` of `n` bytes at `off` are done. */
  function NextBlock(off: nat, n: nat, tot: nat): (r: nat)
  {
    if tot < n || n == 0 then (off + tot) / BSIZE else EndBlock(off, n)
  }

  /** Each piece but the last ends its block. */
  lemma NextPiece(off: nat, n: nat, tot: nat)
    requires tot < n && off + n <= MAXFILE * BSIZE
    ensures (off + tot) / BSIZE == NextBlock(off, n, tot) < EndBlock(off, n) <= MAXFILE
    ensures NextBlock(off, n, tot + PieceLength(off + tot, n - tot)) == NextBlock(off, n, tot) + 1
  {
  }

  /** A byte of a file is in a named block. */
  lemma SoundByte(names: Names, owner: seq<Owner>, marks: seq<bool>, first: nat,
                  inodes: seq<Inode>, data: seq<Block>, files: seq<seq<byte>>, i: nat, o: nat)
    requires Sound(names, owner, marks, first, inodes, data, files)
    requires Sizes(names, inodes) && i < |names| == |files| && o < |files[i]|
    ensures o / BSIZE < MAXFILE
    ensures var b := names[i][SlotOf(o / BSIZE)]; 0 < b < |data| && data[b][o % BSIZE] == files[i][o]
  {
    assert Unfold(0);
    assert Spells(names[i], data, files[i]);
    assert Holds(names[i], data, o, files[i][o]);
  }

  /** The blocks that are not marked, and those below `first`, do not matter. */
  lemma SoundAlike(names: Names, owner: seq<Owner>, marks: seq<bool>, first: nat, inodes: seq<Inode>,
                   data: seq<Block>, after: seq<Block>, files: seq<seq<byte>>)
    requires Sound(names, owner, marks, first, inodes, data, files) && |after| == |data|
    requires forall b :: first <= b < |data| && b < |marks| && marks[b] ==> after[b] == data[b]
    ensures Sound(names, owner, marks, first, inodes, after, files)
  {
    assert Unfold(0);
    forall i | 0 <= i < |inodes|
      ensures Linked(names[i], inodes[i].addrs, after) && Spells(names[i], after, files[i])
    {
      forall k | 0 <= k < NSLOTS && names[i][k] != 0 ensures after[names[i][k]] == data[names[i][k]] {
        NamedOnce(names, owner, marks, first, i, k, i, k);
      }
      assert Linked(names[i], inodes[i].addrs, data) && names[i][NDIRECT] == names[i][..NDIRECT + 1][NDIRECT];
      SpellsKept(names[i], data, names[i], after, files[i]);
    }
  }

  lemma SoundResize(names: Names, owner: seq<Owner>, marks: seq<bool>, first: nat,
                    inodes: seq<Inode>, data: seq<Block>, files: seq<seq<byte>>, i: nat, size: uint)
    requires Sound(names, owner, marks, first, inodes, data, files) && i < |inodes|
    ensures Sound(names, owner, marks, first, inodes[i := inodes[i].(size := size)], data, files)
  {
    assert Unfold(0);
  }

  /** The sectors one writei may log. */
  ghost function WriteSectors(ns: seq<nat>, off: nat, n: nat, i: nat, nb: nat): (r: set<Sector>)
    requires |ns| == NSLOTS && off + n <= MAXFILE * BSIZE
  {
    Bitmaps(nb) + DataSectors(ns, off / BSIZE, EndBlock(off, n)) + IndirectSector(ns) + {InodesAt(i / IPB)}
  }

  lemma WroteSectors(v: View, w: View, i: nat, off0: nat, s: seq<byte>, nb: nat)
    requires Wrote(v, w, i, off0, s, EndBlock(off0, |s|), nb) && off0 + |s| <= MAXFILE * BSIZE
    ensures ViewOk(w, i) && w.logged + {InodesAt(i / IPB)} <= v.logged + WriteSectors(w.names[i], off0, |s|, i, nb)
  {
    assert Unfold(1);
  }

  lemma SoundLimit(names: Names, owner: seq<Owner>, marks: seq<bool>, first: nat,
                   inodes: seq<Inode>, data: seq<Block>, files: seq<seq<byte>>, i: nat)
    requires Sound(names, owner, marks, first, inodes, data, files) && i < |files|
    ensures |files[i]| <= MAXFILE * BSIZE
  {
    assert Unfold(0);
    assert Spells(names[i], data, files[i]);
  }

  /** A run of bytes within one block of a file. */
  lemma SoundPiece(names: Names, owner: seq<Owner>, marks: seq<bool>, first: nat,
                   inodes: seq<Inode>, data: seq<Block>, files: seq<seq<byte>>, i: nat, off: nat, m: nat)
    requires Sound(names, owner, marks, first, inodes, data, files)
    requires Sizes(names, inodes) && i < |names| == |files| && 0 < m && off + m <= |files[i]|
    requires off % BSIZE + m <= BSIZE
    ensures off / BSIZE < MAXFILE && 0 < names[i][SlotOf(off / BSIZE)] < |data|
    ensures data[names[i][SlotOf(off / BSIZE)]][off % BSIZE..off % BSIZE + m] == files[i][off..off + m]
  {
    SoundByte(names, owner, marks, first, inodes, data, files, i, off);
    var b := names[i][SlotOf(off / BSIZE)];
    var s, t := data[b][off % BSIZE..off % BSIZE + m], files[i][off..off + m];
    forall x | 0 <= x < m ensures s[x] == t[x] {
      SoundByte(names, owner, marks, first, inodes, data, files, i, off + x);
    }
  }

  // ---------------------------------------------------------------------------
  // Truncation

  function NoAddrs(): (r: seq<uint>)
    ensures |r| == NDIRECT + 1
  {
    seq(NDIRECT + 1, k => 0)
  }

  predicate NoDirect(addrs: seq<uint>, n: nat)
  {
    n <= |addrs| && forall k :: 0 <= k < n ==> addrs[k] == 0
  }

  /** Since `names0` and `owner0`, only inode `i` has given up blocks. */
  ghost predicate Dropped(names0: Names, owner0: seq<Owner>, names: Names, owner: seq<Owner>, i: nat)
  {
    && |names| == |names0| && |owner| == |owner0|
    && (forall j :: 0 <= j < |names| && j != i ==> names[j] == names0[j])
    && (forall b :: 0 <= b < |owner| ==>
          owner[b] == owner0[b] || (owner0[b].At? && owner0[b].i == i && owner[b] == NoOne))
  }

  lemma DroppedMore(names0: Names, owner0: seq<Owner>, names: Names, owner: seq<Owner>, i: nat, k: nat)
    requires Dropped(names0, owner0, names, owner, i) && Shaped(names) && i < |names| && k < NSLOTS
    requires 0 < names[i][k] < |owner| && owner[names[i][k]] == At(i, k)
    ensures Dropped(names0, owner0, WithName(names, i, k, 0), owner[names[i][k] := NoOne], i)
  {
  }

  lemma SoundEmpty(names: Names, owner: seq<Owner>, marks: seq<bool>, first: nat,
                   inodes: seq<Inode>, data: seq<Block>, files: seq<seq<byte>>, i: nat)
    requires Sound(names, owner, marks, first, inodes, data, files) && i < |files|
    ensures Sound(names, owner, marks, first, inodes, data, files[i := []])
  {
    assert Unfold(0);
  }

  lemma FilesFreed(names: Names, data: seq<Block>, files: seq<seq<byte>>, i: nat, k: nat)
    requires FilesOk(names, data, files) && Shaped(names) && i < |files| && files[i] == [] && k < NSLOTS
    ensures FilesOk(WithName(names, i, k, 0), data, files)
  {
  }

  lemma SoundFreeDirect(names: Names, owner: seq<Owner>, marks: seq<bool>, first: nat,
                        inodes: seq<Inode>, data: seq<Block>, files: seq<seq<byte>>, i: nat, k: nat)
    requires Sound(names, owner, marks, first, inodes, data, files) && Sizes(names, inodes) && |files| == |names|
    requires i < |inodes| && k < NDIRECT && inodes[i].addrs[k] != 0 && files[i] == []
    ensures var b := inodes[i].addrs[k]; names[i][k] == b < |owner| == |marks| && marks[b] && owner[b] == At(i, k)
    ensures var b := inodes[i].addrs[k];
      Sound(WithName(names, i, k, 0), owner[b := NoOne], marks[b := false], first,
            inodes[i := inodes[i].(addrs := inodes[i].addrs[k := 0])], data, files)
  {
    SoundNames(names, owner, marks, first, inodes, data, files, i);
    assert Unfold(0);
    OwnsFree(names, owner, marks, first, i, k);
    FilesFreed(names, data, files, i, k);
    assert Linked(names[i], inodes[i].addrs, data);
    LinkedDirect(names[i], inodes[i].addrs, data, k, 0);
  }

  /** While the blocks named in the indirect block of inode `i` are freed, `j` entries done. */
  ghost predicate Emptying(names: Names, owner: seq<Owner>, marks: seq<bool>, first: nat,
                           inodes: seq<Inode>, data: seq<Block>, files: seq<seq<byte>>, i: nat, j: nat)
  {
    forall u: int {:trigger Unfold(u)} :: Unfold(u) && u == 2 ==>
      && Owns(names, owner, marks, first, -1) && |data| == |marks| && |names| == |inodes|
      && FilesOk(names, data, files)
      && (forall l :: 0 <= l < |inodes| && l != i ==> Linked(names[l], inodes[l].addrs, data))
      && i < |inodes| && files[i] == [] && HalfEmpty(names[i], inodes[i].addrs, data, j)
  }

  predicate HalfEmpty(ns: seq<nat>, addrs: seq<uint>, data: seq<Block>, j: nat)
  {
    && |ns| == NSLOTS && |addrs| == NDIRECT + 1 && j <= NINDIRECT
    && NoDirect(addrs, NDIRECT) && 0 < addrs[NDIRECT] < |data|
    && (forall k :: 0 <= k < NDIRECT ==> ns[k] == 0) && ns[NDIRECT] == addrs[NDIRECT]
    && (forall k :: NDIRECT < k < NDIRECT + 1 + j ==> ns[k] == 0)
    && (forall k :: NDIRECT + 1 + j <= k < NSLOTS ==> ns[k] == Entries(data[addrs[NDIRECT]])[k - NDIRECT - 1])
  }

  lemma EmptyStart(names: Names, owner: seq<Owner>, marks: seq<bool>, first: nat,
                   inodes: seq<Inode>, data: seq<Block>, files: seq<seq<byte>>, i: nat)
    requires Sound(names, owner, marks, first, inodes, data, files) && Sizes(names, inodes) && |files| == |names|
    requires i < |inodes| && files[i] == [] && NoDirect(inodes[i].addrs, NDIRECT) && inodes[i].addrs[NDIRECT] != 0
    ensures inodes[i].addrs[NDIRECT] < |data|
    ensures Emptying(names, owner, marks, first, inodes, data, files, i, 0)
  {
    SoundNames(names, owner, marks, first, inodes, data, files, i);
    assert Unfold(0);
    var es := Entries(data[inodes[i].addrs[NDIRECT]]);
    forall k | NDIRECT + 1 <= k < NSLOTS ensures names[i][k] == es[k - NDIRECT - 1] {
      assert names[i][k] == names[i][NDIRECT + 1..][k - NDIRECT - 1];
    }
  }

  lemma HalfEmptyStep(ns: seq<nat>, addrs: seq<uint>, data: seq<Block>, j: nat)
    requires HalfEmpty(ns, addrs, data, j) && j < NINDIRECT
    ensures ns[NDIRECT + 1 + j] == Entries(data[addrs[NDIRECT]])[j]
    ensures ns[NDIRECT + 1 + j] == 0 ==> HalfEmpty(ns, addrs, data, j + 1)
    ensures HalfEmpty(ns[NDIRECT + 1 + j := 0], addrs, data, j + 1)
  {
  }

  lemma EmptyStep(names: Names, owner: seq<Owner>, marks: seq<bool>, first: nat,
                  inodes: seq<Inode>, data: seq<Block>, files: seq<seq<byte>>, i: nat, j: nat)
    requires Emptying(names, owner, marks, first, inodes, data, files, i, j) && j < NINDIRECT
    requires Sizes(names, inodes) && i < |names| && 0 < inodes[i].addrs[NDIRECT] < |data|
    ensures var b := Entries(data[inodes[i].addrs[NDIRECT]])[j]; var k := NDIRECT + 1 + j;
      if b == 0 then Emptying(names, owner, marks, first, inodes, data, files, i, j + 1)
      else
        && names[i][k] == b < |owner| == |marks| && marks[b] && owner[b] == At(i, k)
        && Emptying(WithName(names, i, k, 0), owner[b := NoOne], marks[b := false], first, inodes, data, files,
                    i, j + 1)
  {
    assert Unfold(2);
    HalfEmptyStep(names[i], inodes[i].addrs, data, j);
    var k := NDIRECT + 1 + j;
    if names[i][k] != 0 {
      OwnsFree(names, owner, marks, first, i, k);
      FilesFreed(names, data, files, i, k);
      assert Emptying(WithName(names, i, k, 0), owner[names[i][k] := NoOne], marks[names[i][k] := false], first,
                      inodes, data, files, i, j + 1);
    }
  }

  lemma EmptyEnd(names: Names, owner: seq<Owner>, marks: seq<bool>, first: nat,
                 inodes: seq<Inode>, data: seq<Block>, files: seq<seq<byte>>, i: nat)
    requires Emptying(names, owner, marks, first, inodes, data, files, i, NINDIRECT)
    requires Sizes(names, inodes) && i < |names|
    ensures var b := inodes[i].addrs[NDIRECT];
      && names[i][NDIRECT] == b && 0 < b < |owner| == |marks| && marks[b] && owner[b] == At(i, NDIRECT)
      && Sound(WithName(names, i, NDIRECT, 0), owner[b := NoOne], marks[b := false], first,
               inodes[i := inodes[i].(addrs := inodes[i].addrs[NDIRECT := 0])], data, files)
  {
    assert Unfold(2);
    OwnsFree(names, owner, marks, first, i, NDIRECT);
    FilesFreed(names, data, files, i, NDIRECT);
    var ms := WithName(names, i, NDIRECT, 0);
    var addrs := inodes[i].addrs[NDIRECT := 0];
    assert ms[i][..NDIRECT + 1] == addrs;
    assert ms[i][NDIRECT + 1..] == Zeros();
    assert Linked(ms[i], addrs, data);
  }

  /** The blocks that have become free are those inode `i` named. */
  lemma DropExact(names0: Names, owner0: seq<Owner>, marks0: seq<bool>, names: Names, owner: seq<Owner>,
                  marks: seq<bool>, first: nat, i: nat, inodes0: seq<Inode>, data0: seq<Block>,
                  files0: seq<seq<byte>>, inodes: seq<Inode>, data: seq<Block>, files: seq<seq<byte>>)
    requires Sound(names0, owner0, marks0, first, inodes0, data0, files0)
    requires Sound(names, owner, marks, first, inodes, data, files)
    requires Sizes(names0, inodes0) && Sizes(names, inodes)
    requires Dropped(names0, owner0, names, owner, i) && i < |names| && inodes[i].addrs == NoAddrs()
    ensures |marks| == |marks0|
    ensures forall b :: 0 < b < |marks| ==> (marks[b] <==> marks0[b] && b !in names0[i])
  {
    SoundNames(names, owner, marks, first, inodes, data, files, i);
    assert Unfold(0);
    forall k | 0 <= k < NSLOTS ensures names[i][k] == 0 {
      if k > NDIRECT {
        assert names[i][k] == names[i][NDIRECT + 1..][k - NDIRECT - 1];
      }
    }
    forall b | 0 < b < |marks| ensures marks[b] <==> marks0[b] && b !in names0[i] {
      if b in names0[i] {
        var k :| 0 <= k < NSLOTS && names0[i][k] == b;
        assert owner0[b] == At(i, k);
      }
    }
  }

  // ---------------------------------------------------------------------------
  // An empty file system

  function BlankInode(): (r: Inode)
  {
    Inode(0, 0, 0, 0, 0, NoAddrs())
  }

  function NoNames(): (r: seq<nat>)
    ensures |r| == NSLOTS && forall k :: 0 <= k < NSLOTS ==> r[k] == 0
  {
    seq(NSLOTS, k => 0)
  }

  lemma BlankSound(marks: seq<bool>, first: nat, n: nat)
    requires 0 < first <= |marks| && forall b :: 0 <= b < |marks| ==> (marks[b] <==> b < first)
    ensures Sound(seq(n, i => NoNames()), seq(|marks|, b => NoOne), marks, first, seq(n, i => BlankInode()),
                  seq(|marks|, b => ZeroBlock()), seq(n, i => []))
  {
    var data := seq(|marks|, b => ZeroBlock());
    assert Linked(NoNames(), NoAddrs(), data) by {
      assert NoNames()[..NDIRECT + 1] == NoAddrs();
      assert NoNames()[NDIRECT + 1..] == Zeros();
    }
  }
}
