/** Directories of fs.c: a file of 16-byte entries, an inode number and a name of up to 14 bytes. */
module Directory {
  import opened Bytes
  import opened BlockMap
  import opened Fs

  const T_DIR := 1
  const DIRSIZ := 14
  /** sizeof(struct dirent) */
  const ENTRY := 16

  // ---------------------------------------------------------------------------
  // Names

  /** A C string: the bytes before the terminator. */
  predicate CString(s: seq<byte>)
  {
    0 !in s
  }

  /** The part of a name that a directory can hold. */
  function Cut(name: seq<byte>): (r: seq<byte>)
    ensures |r| <= DIRSIZ
  {
    if |name| <= DIRSIZ then name else name[..DIRSIZ]
  }

  /** The bytes of a fixed-size field up to the first NUL. */
  function NameOf(field: seq<byte>): (r: seq<byte>)
    ensures |r| <= |field| && r == field[..|r|] && CString(r)
    ensures |r| < |field| ==> field[|r|] == 0
  {
    if field == [] || field[0] == 0 then [] else [field[0]] + NameOf(field[1..])
  }

  /** strncmp(name, field, DIRSIZ) == 0. */
  method Namecmp(name: seq<byte>, field: seq<byte>) returns (same: bool)
    requires CString(name) && |field| == DIRSIZ
    ensures same <==> Cut(name) == NameOf(field)
  {
    var n := 0;
    while n < DIRSIZ && n < |name| && name[n] == field[n]
      invariant 0 <= n <= DIRSIZ && n <= |name| && name[..n] == field[..n]
    {
      n := n + 1;
    }
    Compared(name, field, n);
    same := n == DIRSIZ || (if n < |name| then name[n] else 0) == field[n];
  }

  /** The comparison has stopped after `n` equal bytes. */
  lemma Compared(name: seq<byte>, field: seq<byte>, n: nat)
    requires CString(name) && |field| == DIRSIZ && n <= DIRSIZ && n <= |name| && name[..n] == field[..n]
    requires n == DIRSIZ || n == |name| || name[n] != field[n]
    ensures (n == DIRSIZ || (if n < |name| then name[n] else 0) == field[n]) <==> Cut(name) == NameOf(field)
  {
    var q := NameOf(field);
    forall k | 0 <= k < n ensures field[k] != 0 {
      assert name[..n][k] == field[..n][k] && name[k] in name;
    }
    if n < |q| {
      assert q[n] == field[n] && q[n] in q;
    }
    if n == DIRSIZ || n == |name| {
      assert Cut(name) == name[..n] == field[..n];
    } else {
      assert Cut(name)[n] == name[n];
    }
  }

  /** strncpy(field, name, DIRSIZ): the cut name, padded with zeros. */
  function Padded(name: seq<byte>): (r: seq<byte>)
    ensures |r| == DIRSIZ
  {
    Cut(name) + Zeroes(DIRSIZ - |Cut(name)|)
  }

  function Zeroes(n: nat): (r: seq<byte>)
    ensures |r| == n && forall i :: 0 <= i < n ==> r[i] == 0
  {
    if n == 0 then [] else [0] + Zeroes(n - 1)
  }

  lemma {:induction false} NameOfPadded(s: seq<byte>, z: seq<byte>)
    requires CString(s) && (z == [] || z[0] == 0)
    ensures NameOf(s + z) == s
  {
    if s == [] {
      assert s + z == z;
    } else {
      assert (s + z)[1..] == s[1..] + z;
      assert s[0] in s;
      NameOfPadded(s[1..], z);
    }
  }

  lemma PaddedName(name: seq<byte>)
    requires CString(name)
    ensures NameOf(Padded(name)) == Cut(name)
  {
    assert CString(Cut(name));
    NameOfPadded(Cut(name), Zeroes(DIRSIZ - |Cut(name)|));
  }

  // ---------------------------------------------------------------------------
  // Entries

  datatype Dirent = Dirent(inum: nat, name: seq<byte>)

  /** The entry that starts the 16 bytes `b`. */
  function Decode(b: seq<byte>): (d: Dirent)
    requires |b| == ENTRY
  {
    var lo: int, hi: int := b[0], b[1];
    Dirent(lo + 256 * hi, NameOf(b[2..]))
  }

  /** The 16 bytes dirlink writes; the inode number is stored in 16 bits. */
  function Encode(name: seq<byte>, inum: nat): (b: seq<byte>)
    ensures |b| == ENTRY
  {
    [inum % 256, inum / 256 % 256] + Padded(name)
  }

  lemma EntryRoundTrip(name: seq<byte>, inum: nat)
    requires CString(name)
    ensures Decode(Encode(name, inum)) == Dirent(inum % 65536, Cut(name))
  {
    assert Encode(name, inum)[2..] == Padded(name);
    PaddedName(name);
    assert inum % 65536 == inum % 256 + 256 * (inum / 256 % 256);
  }

  /** The `k`th entry of a directory's contents. */
  function EntryAt(c: seq<byte>, k: nat): (d: Dirent)
    requires ENTRY * k + ENTRY <= |c|
  {
    Decode(c[ENTRY * k..ENTRY * k + ENTRY])
  }

  /** The first `n` entries. */
  function EntriesTo(c: seq<byte>, n: nat): (r: seq<Dirent>)
    requires ENTRY * n <= |c|
    ensures |r| == n
  {
    if n == 0 then [] else EntriesTo(c, n - 1) + [EntryAt(c, n - 1)]
  }

  function Listing(c: seq<byte>): (r: seq<Dirent>)
  {
    EntriesTo(c, |c| / ENTRY)
  }

  lemma {:induction false} EntriesToAt(c: seq<byte>, n: nat, k: nat)
    requires ENTRY * n <= |c| && k < n
    ensures EntriesTo(c, n)[k] == EntryAt(c, k)
  {
    if k < n - 1 {
      EntriesToAt(c, n - 1, k);
    }
  }

  /** An entry written at index `k` is read back there, and the others are as before. */
  lemma EntryWrite(c: seq<byte>, k: nat, name: seq<byte>, inum: nat, j: nat)
    requires ENTRY * k <= |c| && CString(name) && ENTRY * j + ENTRY <= |Splice(c, ENTRY * k, Encode(name, inum))|
    requires j == k || ENTRY * j + ENTRY <= |c|
    ensures EntryAt(Splice(c, ENTRY * k, Encode(name, inum)), j)
         == if j == k then Dirent(inum % 65536, Cut(name)) else EntryAt(c, j)
  {
    var after := Splice(c, ENTRY * k, Encode(name, inum));
    EntryRoundTrip(name, inum);
    if j == k {
      assert after[ENTRY * k..ENTRY * k + ENTRY] == Encode(name, inum);
    } else {
      assert after[ENTRY * j..ENTRY * j + ENTRY] == c[ENTRY * j..ENTRY * j + ENTRY];
    }
  }

  /** The listing with `d` over entry `k`, or added at the end. */
  function Linked(es: seq<Dirent>, k: nat, d: Dirent): (r: seq<Dirent>)
    requires k <= |es|
  {
    if k < |es| then es[k := d] else es + [d]
  }

  /** Writing an entry at index `k` replaces or adds that entry and no other. */
  lemma ListingWrite(c: seq<byte>, k: nat, name: seq<byte>, inum: nat)
    requires |c| % ENTRY == 0 && ENTRY * k <= |c| && CString(name)
    ensures var after := Splice(c, ENTRY * k, Encode(name, inum));
      && |after| % ENTRY == 0 && k <= |Listing(c)|
      && Listing(after) == Linked(Listing(c), k, Dirent(inum % 65536, Cut(name)))
  {
    var after := Splice(c, ENTRY * k, Encode(name, inum));
    var want := Linked(Listing(c), k, Dirent(inum % 65536, Cut(name)));
    var n, m := |c| / ENTRY, |after| / ENTRY;
    SpliceLength(c, k, Encode(name, inum));
    forall j | 0 <= j < m ensures Listing(after)[j] == want[j] {
      EntriesToAt(after, m, j);
      EntryWrite(c, k, name, inum, j);
      if j != k {
        EntriesToAt(c, n, j);
      }
    }
  }

  lemma SpliceLength(c: seq<byte>, k: nat, e: seq<byte>)
    requires |c| % ENTRY == 0 && ENTRY * k <= |c| && |e| == ENTRY
    ensures |Splice(c, ENTRY * k, e)| == if k < |c| / ENTRY then |c| else |c| + ENTRY
    ensures |Splice(c, ENTRY * k, e)| % ENTRY == 0 && k <= |c| / ENTRY
    ensures |Splice(c, ENTRY * k, e)| / ENTRY == |c| / ENTRY + if k < |c| / ENTRY then 0 else 1
  {
  }

  // ---------------------------------------------------------------------------
  // The finite map a directory stands for

  predicate Live(d: Dirent)
  {
    d.inum != 0
  }

  /** No name has two live entries. */
  predicate NoTwins(es: seq<Dirent>)
  {
    forall j, k :: 0 <= j < |es| && 0 <= k < |es| && Live(es[j]) && Live(es[k]) && es[j].name == es[k].name ==> j == k
  }

  function MapOf(es: seq<Dirent>): (m: map<seq<byte>, nat>)
  {
    if es == [] then map[]
    else
      var n := |es| - 1;
      if Live(es[n]) then MapOf(es[..n])[es[n].name := es[n].inum] else MapOf(es[..n])
  }

  /** Some live entry has this name. */
  predicate Has(es: seq<Dirent>, name: seq<byte>)
  {
    exists k :: 0 <= k < |es| && Live(es[k]) && es[k].name == name
  }

  lemma {:induction false} MapKeys(es: seq<Dirent>, name: seq<byte>)
    ensures name in MapOf(es) <==> Has(es, name)
  {
    if es != [] {
      var n := |es| - 1;
      MapKeys(es[..n], name);
      if Has(es[..n], name) {
        var k :| 0 <= k < n && Live(es[..n][k]) && es[..n][k].name == name;
        assert es[k].name == name;
      }
      if k :| 0 <= k < n && Live(es[k]) && es[k].name == name {
        assert es[..n][k] == es[k];
      }
    }
  }

  lemma {:induction false} MapValue(es: seq<Dirent>, k: nat)
    requires NoTwins(es) && k < |es| && Live(es[k])
    ensures es[k].name in MapOf(es) && MapOf(es)[es[k].name] == es[k].inum
  {
    var n := |es| - 1;
    if k < n {
      assert es[..n][k] == es[k];
      MapValue(es[..n], k);
    }
  }

  /** The map of `after` is that of `es` with `name` added for `inum`; 0 is no inode and adds nothing. */
  ghost predicate Gains(es: seq<Dirent>, after: seq<Dirent>, name: seq<byte>, inum: nat)
  {
    && NoTwins(after)
    && MapOf(after) == if inum != 0 then MapOf(es)[name := inum] else MapOf(es)
  }

  /** Adding a name that is not there, over a dead entry or at the end, extends the map by it. */
  lemma LinkExtends(es: seq<Dirent>, k: nat, d: Dirent)
    requires NoTwins(es) && k <= |es| && (k < |es| ==> !Live(es[k])) && !Has(es, d.name)
    ensures Gains(es, Linked(es, k, d), d.name, d.inum)
  {
    var r := Linked(es, k, d);
    var m := if Live(d) then MapOf(es)[d.name := d.inum] else MapOf(es);
    assert r[k] == d && forall j :: 0 <= j < |es| && j != k ==> r[j] == es[j];
    assert NoTwins(r);
    forall name ensures name in MapOf(r) <==> name in m {
      LinkKeys(es, k, d, name);
      MapKeys(es, name);
      MapKeys(r, name);
    }
    forall name | name in m ensures name in MapOf(r) && MapOf(r)[name] == m[name] {
      MapKeys(r, name);
      var j :| 0 <= j < |r| && Live(r[j]) && r[j].name == name;
      MapValue(r, j);
      if j != k {
        MapValue(es, j);
        assert Has(es, name);
      }
    }
  }

  lemma LinkKeys(es: seq<Dirent>, k: nat, d: Dirent, name: seq<byte>)
    requires k <= |es| && (k < |es| ==> !Live(es[k]))
    ensures Has(Linked(es, k, d), name) <==> (Has(es, name) || (Live(d) && d.name == name))
  {
    var r := Linked(es, k, d);
    assert r[k] == d;
    if Has(es, name) {
      var j :| 0 <= j < |es| && Live(es[j]) && es[j].name == name;
      assert r[j] == es[j];
    }
  }

  // ---------------------------------------------------------------------------
  // The operations

  /** Outcomes of dirlookup; `NotDir` and `BadRead` are its panics, `Delegated` a device that is a directory, which
      its driver lists. */
  datatype Lookup = Found(inum: nat, off: nat) | Absent | NotDir | BadRead | Delegated

  datatype Link = Done | Exists | Panicked | ToDevice

  /** Entry `k` is the first live one called `name`. */
  predicate FirstAt(es: seq<Dirent>, name: seq<byte>, k: nat)
  {
    && k < |es| && Live(es[k]) && es[k].name == name
    && forall j :: 0 <= j < k ==> !(Live(es[j]) && es[j].name == name)
  }

  /** The bytes of entry `k`, if they are all there. */
  lemma EntryThere(c: seq<byte>, k: nat)
    requires ENTRY * k < |c|
    ensures k < |Listing(c)| <==> ENTRY * k + ENTRY <= |c|
    ensures k < |Listing(c)| ==> Listing(c)[k] == Decode(c[ENTRY * k..ENTRY * k + ENTRY])
  {
    if ENTRY * k + ENTRY <= |c| {
      EntriesToAt(c, |c| / ENTRY, k);
    }
  }

  /** Read the entry of directory `dp` at index `k`; `ok` is false when less than an entry is there. */
  method ReadEntry(fs: Fs, dp: nat, k: nat) returns (ok: bool, inum: nat, field: seq<byte>)
    requires fs.Valid() && dp < |fs.inodes| && fs.inodes[dp].kind != T_DEV && ENTRY * k < |fs.files[dp]|
    modifies fs
    ensures unchanged(fs)
    ensures ok <==> k < |Listing(fs.files[dp])|
    ensures ok ==> |field| == DIRSIZ && Listing(fs.files[dp])[k] == Dirent(inum, NameOf(field))
  {
    SoundLimit(fs.names, fs.owner, fs.Marks(), fs.first, fs.inodes, fs.data, fs.files, dp);
    var r := fs.Readi(dp, ENTRY * k, ENTRY);
    ok, inum, field := |r.s| == ENTRY, 0, [];
    EntryThere(fs.files[dp], k);
    if ok {
      inum, field := Decode(r.s).inum, r.s[2..];
    }
  }

  /** Look `name` up in directory `dp`: what is found is what the directory maps the cut name to. `devDir` is the
      driver's answer, for a device, whether it is a directory. */
  method Dirlookup(fs: Fs, dp: nat, name: seq<byte>, devDir: bool) returns (r: Lookup)
    requires fs.Valid() && dp < |fs.inodes| && CString(name)
    modifies fs
    ensures unchanged(fs)
    ensures r.Delegated? <==> fs.inodes[dp].kind == T_DEV && devDir
    ensures r.NotDir? <==> fs.inodes[dp].kind != T_DIR && !(fs.inodes[dp].kind == T_DEV && devDir)
    ensures r.Found? ==> r.off % ENTRY == 0 && FirstAt(Listing(fs.files[dp]), Cut(name), r.off / ENTRY)
    ensures r.Found? ==> r.inum == Listing(fs.files[dp])[r.off / ENTRY].inum
    ensures r.Absent? ==> |fs.files[dp]| % ENTRY == 0 && !Has(Listing(fs.files[dp]), Cut(name))
    ensures r.BadRead? ==> |fs.files[dp]| % ENTRY != 0 && !Has(Listing(fs.files[dp]), Cut(name))
    ensures r.Found? && NoTwins(Listing(fs.files[dp])) ==>
      Cut(name) in MapOf(Listing(fs.files[dp])) && MapOf(Listing(fs.files[dp]))[Cut(name)] == r.inum
    ensures r.Absent? || r.BadRead? ==> Cut(name) !in MapOf(Listing(fs.files[dp]))
  {
    if fs.inodes[dp].kind != T_DIR && !(fs.inodes[dp].kind == T_DEV && devDir) {
      return NotDir;
    }
    if fs.inodes[dp].kind == T_DEV {
      return Delegated;
    }
    r := Scan(fs, dp, name);
    MapKeys(Listing(fs.files[dp]), Cut(name));
    if r.Found? && NoTwins(Listing(fs.files[dp])) {
      MapValue(Listing(fs.files[dp]), r.off / ENTRY);
    }
  }

  /** The loop of dirlookup. */
  method Scan(fs: Fs, dp: nat, name: seq<byte>) returns (r: Lookup)
    requires fs.Valid() && dp < |fs.inodes| && fs.inodes[dp].kind != T_DEV && CString(name)
    modifies fs
    ensures unchanged(fs) && !r.Delegated? && !r.NotDir?
    ensures r.Found? ==> r.off % ENTRY == 0 && FirstAt(Listing(fs.files[dp]), Cut(name), r.off / ENTRY)
    ensures r.Found? ==> r.inum == Listing(fs.files[dp])[r.off / ENTRY].inum
    ensures r.Absent? ==> |fs.files[dp]| % ENTRY == 0 && !Has(Listing(fs.files[dp]), Cut(name))
    ensures r.BadRead? ==> |fs.files[dp]| % ENTRY != 0 && !Has(Listing(fs.files[dp]), Cut(name))
  {
    ghost var es, cut := Listing(fs.files[dp]), Cut(name);
    var k, size := 0, fs.inodes[dp].size;
    while ENTRY * k < size
      invariant 0 <= k <= |es| && unchanged(fs)
      invariant forall j :: 0 <= j < k ==> !(Live(es[j]) && es[j].name == cut)
    {
      var ok, inum, field := ReadEntry(fs, dp, k);
      if !ok {
        return BadRead;
      }
      var same := Namecmp(name, field);
      if inum != 0 && same {
        return Found(inum, ENTRY * k);
      }
      k := k + 1;
    }
    r := Absent;
  }

  /** The first dead entry, or the end of the directory; None is the panic "dirlink read". */
  method FindSlot(fs: Fs, dp: nat) returns (ok: bool, k: nat)
    requires fs.Valid() && dp < |fs.inodes| && fs.inodes[dp].kind != T_DEV
    modifies fs
    ensures unchanged(fs)
    ensures ok || |fs.files[dp]| % ENTRY != 0
    ensures ok ==> ENTRY * k <= |fs.files[dp]| || |fs.files[dp]| % ENTRY != 0
    ensures ok ==> forall j :: 0 <= j < k && j < |Listing(fs.files[dp])| ==> Live(Listing(fs.files[dp])[j])
    ensures ok && ENTRY * k < |fs.files[dp]| ==> k < |Listing(fs.files[dp])| && !Live(Listing(fs.files[dp])[k])
    ensures ok && ENTRY * k >= |fs.files[dp]| ==> k >= |Listing(fs.files[dp])|
  {
    ghost var es := Listing(fs.files[dp]);
    var size := fs.inodes[dp].size;
    k := 0;
    while ENTRY * k < size
      invariant 0 <= k <= |es| && unchanged(fs)
      invariant forall j :: 0 <= j < k ==> Live(es[j])
    {
      var read, inum, field := ReadEntry(fs, dp, k);
      if !read {
        return false, k;
      }
      if inum == 0 {
        return true, k;
      }
      k := k + 1;
    }
    ok := true;
  }

  predicate SameKinds(inodes: seq<Inode>, after: seq<Inode>)
  {
    |after| == |inodes| && forall j :: 0 <= j < |inodes| ==> after[j].kind == inodes[j].kind
  }

  /** The second half of dirlink: write the entry over the first dead one, or at the end. */
  method AddEntry(fs: Fs, dp: nat, name: seq<byte>, inum: uint) returns (ok: bool, k: nat)
    requires fs.Valid() && dp < |fs.inodes| && fs.inodes[dp].kind == T_DIR && CString(name)
    requires |fs.files[dp]| % ENTRY == 0
    modifies fs
    ensures ok ==> fs.Valid() && |fs.files| == |old(fs.files)| && |fs.files[dp]| % ENTRY == 0
    ensures ok ==> k <= |Listing(old(fs.files)[dp])|
    ensures ok && k < |Listing(old(fs.files)[dp])| ==> !Live(Listing(old(fs.files)[dp])[k])
    ensures ok ==> Listing(fs.files[dp]) == Linked(Listing(old(fs.files)[dp]), k, Dirent(inum % 65536, Cut(name)))
    ensures ok ==> forall j :: 0 <= j < |fs.files| && j != dp ==> fs.files[j] == old(fs.files)[j]
    ensures ok ==> SameKinds(old(fs.inodes), fs.inodes)
    ensures ok <==> !old(NoSpace(Listing(fs.files[dp]), fs.names[dp], |fs.files[dp]|, fs.nfree))
  {
    ok, k := FindSlot(fs, dp);
    ListingWrite(fs.files[dp], k, name, inum);
    SlotCost(fs, dp, k);
    var w := fs.Writei(dp, Encode(name, inum), ENTRY * k);
    ok := w == Count(ENTRY);
  }

  /** Writing an entry into the slot found fails exactly when there is no space. */
  lemma SlotCost(fs: Fs, dp: nat, k: nat)
    requires fs.Valid() && dp < |fs.inodes| && |fs.files[dp]| % ENTRY == 0 && k <= |Listing(fs.files[dp])|
    requires var es := Listing(fs.files[dp]);
      if k < |es| then !Live(es[k]) else forall j :: 0 <= j < |es| ==> Live(es[j])
    ensures ENTRY * k <= |fs.files[dp]| <= MAXFILE * BSIZE
    ensures NoSpace(Listing(fs.files[dp]), fs.names[dp], |fs.files[dp]|, fs.nfree) <==>
      || ENTRY * k + ENTRY > MAXFILE * BSIZE
      || fs.nfree < Needed(fs.names[dp], ENTRY * k / BSIZE, EndBlock(ENTRY * k, ENTRY))
  {
    SoundLimit(fs.names, fs.owner, fs.Marks(), fs.first, fs.inodes, fs.data, fs.files, dp);
    SlotSpace(Listing(fs.files[dp]), fs.names[dp], |fs.files[dp]|, fs.nfree, k);
    if k < |Listing(fs.files[dp])| {
      SoundByte(fs.names, fs.owner, fs.Marks(), fs.first, fs.inodes, fs.data, fs.files, dp, ENTRY * k);
      NothingNeeded(fs.names[dp], ENTRY * k);
    }
  }

  /** No entry is dead, and a new one at the end is beyond the largest file or needs more blocks than are free. */
  predicate NoSpace(es: seq<Dirent>, ns: seq<nat>, size: nat, nfree: nat)
    requires |ns| == NSLOTS
  {
    && (forall k :: 0 <= k < |es| ==> Live(es[k]))
    && (size + ENTRY > MAXFILE * BSIZE || nfree < Needed(ns, size / BSIZE, EndBlock(size, ENTRY)))
  }

  /** Entry `k` is the slot found: a dead one, which costs nothing, or the end. */
  lemma SlotSpace(es: seq<Dirent>, ns: seq<nat>, size: nat, nfree: nat, k: nat)
    requires |ns| == NSLOTS && size % ENTRY == 0 && |es| == size / ENTRY && k <= |es|
    requires if k < |es| then !Live(es[k]) else forall j :: 0 <= j < |es| ==> Live(es[j])
    ensures k == |es| ==> ENTRY * k == size
    ensures k < |es| ==> !NoSpace(es, ns, size, nfree)
  {
  }

  /** An entry lies in one block. */
  lemma NothingNeeded(ns: seq<nat>, off: nat)
    requires |ns| == NSLOTS && off % ENTRY == 0 && off < MAXFILE * BSIZE && ns[SlotOf(off / BSIZE)] != 0
    ensures EndBlock(off, ENTRY) == off / BSIZE + 1 <= MAXFILE && Needed(ns, off / BSIZE, EndBlock(off, ENTRY)) == 0
  {
    var lo := off / BSIZE;
    assert Needed(ns, lo, lo + 1) == Needed(ns, lo, lo) + NeedAt(ns, lo, lo);
  }

  /** Link `name` to `inum` in directory `dp`: the directory's map gains the cut name, unless it is
      there already or the number's low 16 bits are zero. */
  method Dirlink(fs: Fs, dp: nat, name: seq<byte>, inum: uint, devDir: bool) returns (r: Link)
    requires fs.Valid() && dp < |fs.inodes| && CString(name)
    requires fs.inodes[dp].kind == T_DIR ==> NoTwins(Listing(fs.files[dp]))
    modifies fs
    ensures r.ToDevice? <==> old(fs.inodes)[dp].kind == T_DEV && devDir
    ensures r.Exists? ==> unchanged(fs) && old(fs.inodes)[dp].kind == T_DIR && Has(Listing(fs.files[dp]), Cut(name))
    ensures r.Done? ==> !Has(Listing(old(fs.files)[dp]), Cut(name)) && old(fs.inodes)[dp].kind == T_DIR
    ensures r.Done? ==> fs.Valid() && |fs.files| == |old(fs.files)| && |fs.files[dp]| % ENTRY == 0
    ensures r.Done? ==> Gains(Listing(old(fs.files)[dp]), Listing(fs.files[dp]), Cut(name), inum % 65536)
    ensures r.Done? ==> forall j :: 0 <= j < |fs.files| && j != dp ==> fs.files[j] == old(fs.files)[j]
    ensures r.Done? ==> SameKinds(old(fs.inodes), fs.inodes)
    ensures r.Panicked? <==>
      if old(fs.inodes)[dp].kind != T_DIR then !(old(fs.inodes)[dp].kind == T_DEV && devDir)
      else
        && !Has(Listing(old(fs.files)[dp]), Cut(name))
        && (|old(fs.files)[dp]| % ENTRY != 0
            || old(NoSpace(Listing(fs.files[dp]), fs.names[dp], |fs.files[dp]|, fs.nfree)))
  {
    var l := Dirlookup(fs, dp, name, devDir);
    match l {
      case Found(_, off) =>
        assert Has(Listing(fs.files[dp]), Cut(name));
        return Exists;
      case Delegated =>
        return ToDevice;
      case NotDir =>
        return Panicked;
      case BadRead =>
        return Panicked;
      case Absent =>
    }
    ghost var es := Listing(fs.files[dp]);
    var ok, k := AddEntry(fs, dp, name, inum);
    if !ok {
      return Panicked;
    }
    LinkExtends(es, k, Dirent(inum % 65536, Cut(name)));
    r := Done;
  }
}
