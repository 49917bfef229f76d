/** How bitmap, inodes and blocks lie on the disk (fs.h), and how they are read off it. */
module DiskLayout {
  import opened Common
  import opened Bytes
  import opened BlockMap
  import opened Fs
  import Bitmap

  // ---------------------------------------------------------------------------
  // Disk inodes

  /** A disk inode takes 16 words: type and major number, minor number and link count, size, addresses. */
  const IWORDS := 16

  function Pair(lo: short, hi: short): (w: uint)
  {
    lo % 0x1_0000 + 0x1_0000 * (hi % 0x1_0000)
  }

  function Signed(x: int): (r: short)
    requires 0 <= x < 0x1_0000
  {
    if x < 0x8000 then x else x - 0x1_0000
  }

  function LowShort(w: uint): (r: short)
  {
    Signed(w % 0x1_0000)
  }

  function HighShort(w: uint): (r: short)
  {
    Signed(w / 0x1_0000)
  }

  lemma PairRoundTrip(lo: short, hi: short)
    ensures LowShort(Pair(lo, hi)) == lo && HighShort(Pair(lo, hi)) == hi
  {
    var a, b := lo % 0x1_0000, hi % 0x1_0000;
    assert (a + 0x1_0000 * b) % 0x1_0000 == a && (a + 0x1_0000 * b) / 0x1_0000 == b;
  }

  /** The words of an inode. */
  function InodeWords(ino: Inode): (ws: seq<uint>)
    ensures |ws| == IWORDS
  {
    [Pair(ino.kind, ino.major), Pair(ino.minor, ino.nlink), ino.size]
    + if |ino.addrs| == NDIRECT + 1 then ino.addrs else NoAddrs()
  }

  function AllWords(ds: seq<Inode>): (ws: seq<uint>)
    ensures |ws| == IWORDS * |ds|
  {
    if ds == [] then [] else AllWords(ds[..|ds| - 1]) + InodeWords(ds[|ds| - 1])
  }

  lemma {:induction false} AllWordsAt(ds: seq<Inode>, k: nat, j: nat)
    requires k < |ds| && j < IWORDS
    ensures AllWords(ds)[IWORDS * k + j] == InodeWords(ds[k])[j]
  {
    if k < |ds| - 1 {
      AllWordsAt(ds[..|ds| - 1], k, j);
    }
  }

  /** A block that begins with the words `ws`. */
  function WordsBlock(ws: seq<uint>): (b: Block)
    requires |ws| <= WORDS
    ensures forall j: nat :: j < |ws| ==> Word(b, j) == ws[j]
  {
    if ws == [] then ZeroBlock() else PutWord(WordsBlock(ws[..|ws| - 1]), |ws| - 1, ws[|ws| - 1])
  }

  /** The words of a block from `lo` on. */
  function WordsAt(b: Block, lo: nat, n: nat): (ws: seq<uint>)
    requires lo + n <= WORDS
    ensures |ws| == n && forall j :: 0 <= j < n ==> ws[j] == Word(b, lo + j)
  {
    if n == 0 then [] else WordsAt(b, lo, n - 1) + [Word(b, lo + n - 1)]
  }

  /** An inode block, and the `k`-th inode in one. */
  function InodeBlock(ds: seq<Inode>): (b: Block)
  {
    if |ds| <= IPB then WordsBlock(AllWords(ds)) else ZeroBlock()
  }

  function InodeAt(b: Block, k: nat): (ino: Inode)
    requires k < IPB
    ensures |ino.addrs| == NDIRECT + 1
  {
    var lo := IWORDS * k;
    Inode(LowShort(Word(b, lo)), HighShort(Word(b, lo)), LowShort(Word(b, lo + 1)), HighShort(Word(b, lo + 1)),
          Word(b, lo + 2), WordsAt(b, lo + 3, NDIRECT + 1))
  }

  /** What iupdate stores, ilock reads back. */
  lemma InodeRoundTrip(ds: seq<Inode>, k: nat)
    requires k < |ds| <= IPB && |ds[k].addrs| == NDIRECT + 1
    ensures InodeAt(InodeBlock(ds), k) == ds[k]
  {
    var b, ws := InodeBlock(ds), InodeWords(ds[k]);
    forall j: nat | j < IWORDS ensures Word(b, IWORDS * k + j) == ws[j] {
      AllWordsAt(ds, k, j);
    }
    PairRoundTrip(ds[k].kind, ds[k].major);
    PairRoundTrip(ds[k].minor, ds[k].nlink);
    assert Word(b, IWORDS * k + 0) == ws[0] && Word(b, IWORDS * k + 1) == ws[1] && Word(b, IWORDS * k + 2) == ws[2];
    var addrs := InodeAt(b, k).addrs;
    forall j | 0 <= j <= NDIRECT ensures addrs[j] == ds[k].addrs[j] {
      assert addrs[j] == Word(b, IWORDS * k + 3 + j) == Word(b, IWORDS * k + (3 + j)) == ws[3 + j];
    }
  }

  // ---------------------------------------------------------------------------
  // Bitmap blocks

  function MapBlock(row: seq<bv8>): (b: Block)
  {
    if |row| == BSIZE then seq(BSIZE, i requires 0 <= i < BSIZE => row[i] as int) else ZeroBlock()
  }

  function RowOf(b: Block): (row: seq<bv8>)
    ensures |row| == BSIZE
  {
    seq(BSIZE, i requires 0 <= i < BSIZE => b[i] as bv8)
  }

  lemma RowRoundTrip(row: seq<bv8>)
    requires |row| == BSIZE
    ensures RowOf(MapBlock(row)) == row
  {
  }

  // ---------------------------------------------------------------------------
  // The sectors

  /** The numbers of blocks, inodes and bitmap blocks. */
  datatype Geometry = Geometry(size: nat, ninodes: nat, nbitmap: nat) {
    /** The first bitmap block, and the first block behind the bitmap. */
    function Bits(): (s: nat) { ninodes / IPB + 3 }

    function First(): (s: nat) { Bits() + nbitmap }
  }

  /** The number of a sector, on a disk with `n` inodes: IBLOCK and BBLOCK of fs.h. */
  function Number(x: Sector, n: nat): (s: nat)
  {
    match x
    case InodesAt(q) => q + 2
    case BitmapAt(q) => q + n / IPB + 3
    case DataAt(b) => b
  }

  /** The disk inodes in inode block `q`. */
  function Group(ds: seq<Inode>, q: nat): (r: seq<Inode>)
    ensures |r| <= IPB
  {
    if |ds| <= IPB * q then [] else if |ds| <= IPB * q + IPB then ds[IPB * q..] else ds[IPB * q..IPB * q + IPB]
  }

  /** What is in sector `s`: the boot block and the superblock, inodes, bitmap, data. */
  function SectorOf(st: Stored, boot: seq<Block>, s: nat): (b: Block)
    requires |boot| == 2
  {
    var bits := |st.dinodes| / IPB + 3;
    if s < 2 then boot[s]
    else if s < bits then InodeBlock(Group(st.dinodes, s - 2))
    else if s < bits + |st.bitmap| then MapBlock(st.bitmap[s - bits])
    else if s < |st.data| then st.data[s]
    else ZeroBlock()
  }

  /** The home sectors. */
  function Image(st: Stored, boot: seq<Block>, start: nat): (h: seq<Block>)
    requires |boot| == 2
    ensures |h| == start && forall s :: 0 <= s < start ==> h[s] == SectorOf(st, boot, s)
  {
    seq(start, s requires 0 <= s < start => SectorOf(st, boot, s))
  }

  /** The inodes before group `q` and after do not matter to it. */
  lemma GroupKept(a: seq<Inode>, b: seq<Inode>, q: nat)
    requires |a| == |b| && forall i :: 0 <= i < |a| && i / IPB == q ==> a[i] == b[i]
    ensures Group(a, q) == Group(b, q)
  {
    var g, h := Group(a, q), Group(b, q);
    forall k | 0 <= k < |g| ensures g[k] == h[k] {
      assert (IPB * q + k) / IPB == q;
      assert g[k] == a[IPB * q + k] && h[k] == b[IPB * q + k];
    }
  }

  /** A sector that was not passed to log_write has not changed. */
  lemma SectorKept(a: Stored, b: Stored, logged: set<Sector>, boot: seq<Block>, s: nat)
    requires Covered(a, b, logged) && |boot| == 2 && forall x :: x in logged ==> Number(x, |a.dinodes|) != s
    ensures SectorOf(b, boot, s) == SectorOf(a, boot, s)
  {
    assert Unfold(15);
    var bits := |a.dinodes| / IPB + 3;
    if 2 <= s < bits {
      assert Number(InodesAt(s - 2), |a.dinodes|) == s;
      GroupKept(a.dinodes, b.dinodes, s - 2);
    } else if bits <= s < bits + |a.bitmap| {
      assert Number(BitmapAt(s - bits), |a.dinodes|) == s;
    } else {
      assert Number(DataAt(s), |a.dinodes|) == s;
    }
  }

  // ---------------------------------------------------------------------------
  // Reading the disk

  /** Inode `i`, as ilock finds it in its block. */
  function InodeOn(h: seq<Block>, i: nat): (ino: Inode)
    requires i / IPB + 2 < |h|
    ensures |ino.addrs| == NDIRECT + 1
  {
    InodeAt(h[i / IPB + 2], i % IPB)
  }

  /** The block that file block `bn` of an inode is in. */
  function AddrOn(h: seq<Block>, ino: Inode, bn: nat): (b: nat)
    requires |ino.addrs| == NDIRECT + 1
  {
    if bn < NDIRECT then ino.addrs[bn]
    else if 0 < ino.addrs[NDIRECT] < |h| && bn < MAXFILE then Word(h[ino.addrs[NDIRECT]], bn - NDIRECT)
    else 0
  }

  function ByteOn(h: seq<Block>, ino: Inode, o: nat): (x: byte)
    requires |ino.addrs| == NDIRECT + 1
  {
    var b := AddrOn(h, ino, o / BSIZE);
    if b < |h| then h[b][o % BSIZE] else 0
  }

  /** The contents of file `i`, read off the sectors: its inode block, its addresses, its indirect block, its data
      blocks. */
  function FileOn(h: seq<Block>, i: nat): (c: seq<byte>)
    requires i / IPB + 2 < |h|
  {
    var ino := InodeOn(h, i);
    seq(ino.size, o requires 0 <= o < ino.size => ByteOn(h, ino, o))
  }

  function FilesOn(h: seq<Block>, n: nat): (files: seq<seq<byte>>)
    requires n / IPB + 2 < |h|
  {
    seq(n, i requires 0 <= i < n => FileOn(h, i))
  }

  /** Everything that is on the disk. Blocks behind the home sectors are none of the file system's. */
  function Loaded(h: seq<Block>, g: Geometry): (st: Stored)
    requires g.First() <= |h| <= g.size
  {
    Stored(seq(g.nbitmap, q requires 0 <= q < g.nbitmap => RowOf(h[g.Bits() + q])),
           seq(g.ninodes, i requires 0 <= i < g.ninodes => InodeOn(h, i)),
           h + seq(g.size - |h|, b => ZeroBlock()))
  }

  /** `st` has the geometry `g`. */
  predicate Fits(st: Stored, g: Geometry)
  {
    && |st.bitmap| == g.nbitmap && |st.dinodes| == g.ninodes && |st.data| == g.size
    && Bitmap.Covers(st.bitmap, g.size)
    && forall i :: 0 <= i < |st.dinodes| ==> |st.dinodes[i].addrs| == NDIRECT + 1
  }

  /** The same bitmap and inodes, and the same blocks from `lo` to `hi`. */
  predicate Alike(a: Stored, b: Stored, lo: nat, hi: nat)
  {
    && a.bitmap == b.bitmap && a.dinodes == b.dinodes && |a.data| == |b.data|
    && forall x :: lo <= x < hi && x < |a.data| ==> a.data[x] == b.data[x]
  }

  lemma InodeLoaded(st: Stored, boot: seq<Block>, start: nat, g: Geometry, i: nat)
    requires Fits(st, g) && |boot| == 2 && g.First() <= start && i < g.ninodes
    ensures InodeOn(Image(st, boot, start), i) == st.dinodes[i]
  {
    var q := i / IPB;
    var grp := Group(st.dinodes, q);
    assert i == IPB * q + i % IPB && q <= g.ninodes / IPB;
    assert grp[i % IPB] == st.dinodes[i];
    InodeRoundTrip(grp, i % IPB);
  }

  /** What is stored on a disk is read back from it. */
  lemma LoadedImage(st: Stored, boot: seq<Block>, start: nat, g: Geometry)
    requires Fits(st, g) && |boot| == 2 && g.First() <= start <= g.size
    ensures Alike(Loaded(Image(st, boot, start), g), st, g.First(), start)
  {
    var h := Image(st, boot, start);
    var r := Loaded(h, g);
    forall i: nat | i < g.ninodes ensures r.dinodes[i] == st.dinodes[i] {
      InodeLoaded(st, boot, start, g, i);
    }
    forall q | 0 <= q < g.nbitmap ensures r.bitmap[q] == st.bitmap[q] {
      RowRoundTrip(st.bitmap[q]);
    }
  }

  /** And stored again it gives the same sectors. */
  lemma ImageAlike(a: Stored, b: Stored, boot: seq<Block>, start: nat)
    requires |boot| == 2 && Alike(a, b, |a.dinodes| / IPB + 3 + |a.bitmap|, start)
    ensures Image(a, boot, start) == Image(b, boot, start)
  {
    forall s: nat | s < start ensures SectorOf(a, boot, s) == SectorOf(b, boot, s) {
    }
  }

  // ---------------------------------------------------------------------------
  // A file system on the disk

  /** No block from `start` on is marked. */
  predicate Below(marks: seq<bool>, start: nat)
  {
    forall b :: start <= b < |marks| ==> !marks[b]
  }

  /** Ownership, links and contents as `Fs` has them between operations, with every inode as it is on disk. */
  ghost predicate HeldBy(st: Stored, names: Names, owner: seq<Owner>, first: nat, files: seq<seq<byte>>, start: nat)
  {
    && Bitmap.Covers(st.bitmap, |st.data|) && SizesOk(st.dinodes, files)
    && Sound(names, owner, Bitmap.Marks(st.bitmap, |st.data|), first, st.dinodes, st.data, files)
    && Below(Bitmap.Marks(st.bitmap, |st.data|), start)
  }

  /** The home sectors `h` have a sound file system with these files: what is read off them is sound and, stored
      again, gives them back. */
  ghost predicate HasFiles(h: seq<Block>, g: Geometry, files: seq<seq<byte>>)
  {
    && g.First() <= |h| <= g.size
    && Image(Loaded(h, g), h[..2], |h|) == h
    && exists names: Names, owner: seq<Owner> :: HeldBy(Loaded(h, g), names, owner, g.First(), files, |h|)
  }

  /** Blocks that no file owns do not matter. */
  lemma HeldAlike(a: Stored, b: Stored, names: Names, owner: seq<Owner>, first: nat, files: seq<seq<byte>>, start: nat)
    requires HeldBy(a, names, owner, first, files, start) && Alike(a, b, first, start)
    ensures HeldBy(b, names, owner, first, files, start)
  {
    SoundAlike(names, owner, Bitmap.Marks(a.bitmap, |a.data|), first, a.dinodes, a.data, b.data, files);
  }

  /** The bytes of a file are where a reader of the disk looks for them. */
  lemma ByteHeld(st: Stored, names: Names, owner: seq<Owner>, first: nat, files: seq<seq<byte>>, h: seq<Block>,
                 i: nat, o: nat)
    requires HeldBy(st, names, owner, first, files, |h|) && i < |files| && o < |files[i]|
    requires |st.dinodes[i].addrs| == NDIRECT + 1
    requires forall b :: first <= b < |h| && b < |st.data| ==> h[b] == st.data[b]
    ensures ByteOn(h, st.dinodes[i], o) == files[i][o]
  {
    var marks, ino, bn := Bitmap.Marks(st.bitmap, |st.data|), st.dinodes[i], o / BSIZE;
    SoundSizes(names, owner, marks, first, st.dinodes, st.data, files);
    SoundByte(names, owner, marks, first, st.dinodes, st.data, files, i, o);
    SoundNames(names, owner, marks, first, st.dinodes, st.data, files, i);
    SoundNamed(names, owner, marks, first, st.dinodes, st.data, files, i, SlotOf(bn));
    if bn >= NDIRECT {
      assert names[i][SlotOf(bn)] == names[i][NDIRECT + 1..][bn - NDIRECT];
      SoundNamed(names, owner, marks, first, st.dinodes, st.data, files, i, NDIRECT);
      EntriesAt(st.data[ino.addrs[NDIRECT]]);
    }
  }

  /** The files that a disk holds are those a reader finds on it; so it holds no others. */
  lemma HeldFiles(h: seq<Block>, g: Geometry, files: seq<seq<byte>>)
    requires HasFiles(h, g, files)
    ensures FilesOn(h, g.ninodes) == files
  {
    var st := Loaded(h, g);
    var names, owner :| HeldBy(st, names, owner, g.First(), files, |h|);
    forall i: nat | i < |files| ensures FileOn(h, i) == files[i] {
      assert InodeOn(h, i) == st.dinodes[i];
      forall o: nat | o < |files[i]| ensures FileOn(h, i)[o] == files[i][o] {
        ByteHeld(st, names, owner, g.First(), files, h, i, o);
      }
    }
  }
}
