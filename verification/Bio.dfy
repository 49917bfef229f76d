/** The buffer cache of bio.c: NBUF buffers on a doubly linked list in release order. */
module Bio {
  import opened Common
  import opened Bytes
  import opened LogCrash
  import opened MemIde

  const NBUF := 3 * MAXOPBLOCKS
  const HEAD := NBUF   // list node of `bcache.head`; node i < NBUF is `bcache.buf[i]`

  // ---------------------------------------------------------------------------
  // The circular doubly linked list

  /** The nodes met when walking once around the ring, from the head back to the head. */
  function Cycle(order: seq<nat>): (c: seq<nat>)
  {
    [HEAD] + order + [HEAD]
  }

  /** `next` and `prev` link the head and exactly the buffers of `order`, in that order. */
  predicate Ring(next: seq<nat>, prev: seq<nat>, order: seq<nat>)
  {
    && |next| == |prev| == NBUF + 1
    && Distinct(order)
    && (forall i :: 0 <= i < |order| ==> order[i] < NBUF)
    && (forall i :: 0 <= i <= |order| ==>
          var x, y := Cycle(order)[i], Cycle(order)[i + 1];
          next[x] == y && prev[y] == x)
  }

  function Without(order: seq<nat>, p: nat): (r: seq<nat>)
    requires p < |order|
  {
    order[..p] + order[p + 1..]
  }

  /** Every buffer is on the list. */
  predicate AllLinked(order: seq<nat>)
  {
    |order| == NBUF && forall b: nat :: b < NBUF ==> b in order
  }

  /** The list is in release order, the latest release first; no release lies in the future. */
  predicate ByStamp(order: seq<nat>, stamps: seq<nat>, clock: nat)
  {
    && |stamps| == NBUF
    && (forall b :: 0 <= b < NBUF ==> stamps[b] <= clock)
    && (forall i :: 0 <= i < |order| ==> order[i] < NBUF)
    && (forall i, j :: 0 <= i < j < |order| ==> stamps[order[i]] >= stamps[order[j]])
  }

  lemma Reordered(order: seq<nat>, stamps: seq<nat>, clock: nat, p: nat)
    requires AllLinked(order) && Distinct(order) && ByStamp(order, stamps, clock) && p < NBUF
    ensures var b := order[p];
      && AllLinked([b] + Without(order, p))
      && ByStamp([b] + Without(order, p), stamps[b := clock + 1], clock + 1)
  {
    var moved := [order[p]] + Without(order, p);
    forall b: nat | b < NBUF
      ensures b in moved
    {
      assert b in order;
      var k :| 0 <= k < NBUF && order[k] == b;
      assert moved[if k < p then k + 1 else if k == p then 0 else k] == b;
    }
    assert forall i :: 1 <= i < NBUF ==> moved[i] == order[if i <= p then i - 1 else i];
  }

  lemma Unlinks(next: seq<nat>, prev: seq<nat>, order: seq<nat>, p: nat)
    requires Ring(next, prev, order) && p < |order|
    ensures var b := order[p];
      && next[b] <= NBUF && prev[b] <= NBUF
      && Ring(next[prev[b] := next[b]], prev[next[b] := prev[b]], Without(order, p))
  {
    var b, c := order[p], Cycle(order);
    assert c[p + 1] == b && prev[b] == c[p] && next[b] == c[p + 2];
    var rest, next', prev' := Without(order, p), next[c[p] := c[p + 2]], prev[c[p + 2] := c[p]];
    var c' := Cycle(rest);
    forall i | 0 <= i <= |rest|
      ensures next'[c'[i]] == c'[i + 1] && prev'[c'[i + 1]] == c'[i]
    {
      var k := if i < p then i else i + 1;
      assert k != p ==> next[c[k]] == c[k + 1] && prev[c[k + 1]] == c[k];
    }
  }

  lemma PushesFront(next: seq<nat>, prev: seq<nat>, order: seq<nat>, b: nat)
    requires Ring(next, prev, order) && b < NBUF && b !in order
    ensures next[HEAD] <= NBUF
    ensures Ring(next[b := next[HEAD]][HEAD := b], prev[b := HEAD][next[HEAD] := b], [b] + order)
  {
    var c, c' := Cycle(order), Cycle([b] + order);
    assert next[c[0]] == c[1];
    var next', prev' := next[b := c[1]][HEAD := b], prev[b := HEAD][c[1] := b];
    forall i | 0 <= i <= |order| + 1
      ensures next'[c'[i]] == c'[i + 1] && prev'[c'[i + 1]] == c'[i]
    {
      if i >= 2 {
        assert next[c[i - 1]] == c[i] && prev[c[i]] == c[i - 1];
      }
    }
  }

  // ---------------------------------------------------------------------------
  // Cache contents

  predicate Matches(b: Buf, dev: uint, sector: uint)
  {
    b.dev == dev && b.sector == sector
  }

  /** A buffer `bget` may recycle: not in use, and not pinned by the log. */
  predicate Recyclable(b: Buf)
  {
    !b.busy && !b.dirty
  }

  /** No two buffers cache the same sector. */
  predicate NoTwins(bufs: seq<Buf>)
  {
    forall i, j :: 0 <= i < j < |bufs| && Matches(bufs[i], bufs[j].dev, bufs[j].sector) ==> bufs[i].dev == NODEV
  }

  /** A buffer at rest that is not dirty equals its sector. */
  predicate Agrees(b: Buf, sectors: Disk)
  {
    && (b.valid ==> b.dev == DISKDEV && b.sector < |sectors|)
    && (b.dirty ==> b.valid)
    && (!b.busy ==> b.valid || b.dev == NODEV)
    && (!b.busy && b.valid && !b.dirty ==> b.data == sectors[b.sector])
  }

  /** The number of buffers no process holds. */
  function FreeCount(bufs: seq<Buf>): (n: nat)
  {
    if bufs == [] then 0
    else FreeCount(bufs[..|bufs| - 1]) + if bufs[|bufs| - 1].busy then 0 else 1
  }

  lemma {:induction false} FreeUpdate(bufs: seq<Buf>, b: nat, x: Buf)
    requires b < |bufs|
    ensures FreeCount(bufs[b := x]) == FreeCount(bufs) + (if x.busy then 0 else 1) - (if bufs[b].busy then 0 else 1)
  {
    var n := |bufs| - 1;
    if b == n {
      assert bufs[b := x][..n] == bufs[..n];
    } else {
      assert bufs[b := x][..n] == bufs[..n][b := x];
      FreeUpdate(bufs[..n], b, x);
    }
  }

  predicate Holds(b: Buf, s: nat)
  {
    b.valid && b.dev == DISKDEV && b.sector == s
  }

  /** The contents of sector `s` as `bread` sees them: the cached copy if there is one. */
  ghost function Logical(bufs: seq<Buf>, sectors: Disk, s: nat): (data: Block)
    requires s < |sectors|
  {
    if exists i :: 0 <= i < |bufs| && Holds(bufs[i], s) then
      var i :| 0 <= i < |bufs| && Holds(bufs[i], s);
      bufs[i].data
    else
      sectors[s]
  }

  /** The coherence invariant of the cache. */
  predicate Coherent(bufs: seq<Buf>, sectors: Disk)
  {
    && |bufs| == NBUF
    && NoTwins(bufs)
    && forall i :: 0 <= i < NBUF ==> Agrees(bufs[i], sectors)
  }

  lemma LogicalCached(bufs: seq<Buf>, sectors: Disk, i: nat)
    requires NoTwins(bufs) && i < |bufs| && bufs[i].valid && bufs[i].dev == DISKDEV && bufs[i].sector < |sectors|
    ensures Logical(bufs, sectors, bufs[i].sector) == bufs[i].data
  {
    assert Holds(bufs[i], bufs[i].sector);
  }

  /** Replacing a buffer that does not hold `s` by another that does not hold `s`, or one that holds
      it by one with the same data, keeps the logical contents of `s`. */
  lemma LogicalUpdate(bufs: seq<Buf>, sectors: Disk, i: nat, b: Buf, s: nat)
    requires NoTwins(bufs) && i < |bufs| && s < |sectors| && NoTwins(bufs[i := b])
    requires Holds(bufs[i], s) ==> if Holds(b, s) then b.data == bufs[i].data else bufs[i].data == sectors[s]
    requires !Holds(bufs[i], s) && Holds(b, s) ==>
      b.data == sectors[s] && forall j :: 0 <= j < |bufs| ==> !Holds(bufs[j], s)
    ensures Logical(bufs[i := b], sectors, s) == Logical(bufs, sectors, s)
  {
    var after := bufs[i := b];
    if j :| 0 <= j < |after| && Holds(after[j], s) {
      LogicalCached(after, sectors, j);
      if Holds(bufs[i], s) {
        LogicalCached(bufs, sectors, i);
        assert j == i;
      } else if j != i {
        LogicalCached(bufs, sectors, j);
      }
    } else if Holds(bufs[i], s) {
      LogicalCached(bufs, sectors, i);
      assert !Holds(after[i], s);
    } else {
      assert forall j :: 0 <= j < |bufs| && j != i ==> after[j] == bufs[j];
    }
  }

  /** Writing one buffer and its sector leaves the logical contents of every other sector. */
  lemma LogicalElsewhere(bufs: seq<Buf>, sectors: Disk, i: nat, b: Buf, s: nat)
    requires i < |bufs| && NoTwins(bufs) && NoTwins(bufs[i := b]) && s < |sectors|
    requires Matches(b, bufs[i].dev, bufs[i].sector) && b.sector != s && b.sector < |sectors|
    ensures Logical(bufs[i := b], sectors[b.sector := b.data], s) == Logical(bufs, sectors, s)
  {
    var after := bufs[i := b];
    assert forall j :: 0 <= j < |bufs| ==> Holds(after[j], s) == Holds(bufs[j], s);
    if j :| 0 <= j < |bufs| && Holds(bufs[j], s) {
      LogicalCached(after, sectors[b.sector := b.data], j);
      LogicalCached(bufs, sectors, j);
    }
  }

  // ---------------------------------------------------------------------------
  // The cache as its clients see it

  /** The sectors whose buffers are dirty: changed, and not yet written by the log. */
  ghost function PinnedSet(bufs: seq<Buf>): (p: set<uint>)
  {
    set i | 0 <= i < |bufs| && bufs[i].dirty :: bufs[i].sector
  }

  /** The sectors whose buffers are in use. */
  ghost function HeldSet(bufs: seq<Buf>): (h: set<uint>)
  {
    set i | 0 <= i < |bufs| && bufs[i].busy :: bufs[i].sector
  }

  /** The contents of every sector as readers see them. */
  ghost function Views(bufs: seq<Buf>, sectors: Disk): (v: seq<Block>)
    ensures |v| == |sectors|
  {
    seq(|sectors|, s requires 0 <= s < |sectors| => Logical(bufs, sectors, s))
  }

  /** Handing out a buffer, whether found or recycled, hides no contents. */
  lemma Take(bufs: seq<Buf>, sectors: Disk, b: nat, x: Buf)
    requires Coherent(bufs, sectors) && b < NBUF && !bufs[b].busy && x.busy && x.dev == DISKDEV
    requires x == bufs[b].(busy := true)
          || (Recyclable(bufs[b]) && !x.valid && !x.dirty
              && forall k :: 0 <= k < NBUF ==> !Matches(bufs[k], x.dev, x.sector))
    ensures Coherent(bufs[b := x], sectors)
    ensures Views(bufs[b := x], sectors) == Views(bufs, sectors)
    ensures PinnedSet(bufs[b := x]) == PinnedSet(bufs) && HeldSet(bufs[b := x]) == HeldSet(bufs) + {x.sector}
  {
    var after := bufs[b := x];
    assert Agrees(bufs[b], sectors);
    forall s: nat | s < |sectors|
      ensures Logical(after, sectors, s) == Logical(bufs, sectors, s)
    {
      LogicalUpdate(bufs, sectors, b, x, s);
    }
    SetsUpdate(bufs, b, x);
  }

  /** Reading the sector into an invalid buffer shows nothing new. */
  lemma Fill(bufs: seq<Buf>, sectors: Disk, b: nat, x: Buf)
    requires Coherent(bufs, sectors) && b < NBUF && bufs[b].busy && !bufs[b].valid
    requires bufs[b].dev == DISKDEV && bufs[b].sector < |sectors|
    requires x == bufs[b].(valid := true, data := sectors[bufs[b].sector])
    ensures Coherent(bufs[b := x], sectors)
    ensures Views(bufs[b := x], sectors) == Views(bufs, sectors)
    ensures PinnedSet(bufs[b := x]) == PinnedSet(bufs) && HeldSet(bufs[b := x]) == HeldSet(bufs)
  {
    forall s: nat | s < |sectors|
      ensures Logical(bufs[b := x], sectors, s) == Logical(bufs, sectors, s)
    {
      LogicalUpdate(bufs, sectors, b, x, s);
    }
    SetsUpdate(bufs, b, x);
  }

  /** Changing the data of a held buffer changes the view of its sector only. */
  lemma Change(bufs: seq<Buf>, sectors: Disk, b: nat, data: Block)
    requires Coherent(bufs, sectors) && b < NBUF && bufs[b].busy && bufs[b].valid
    ensures var after := bufs[b := bufs[b].(data := data)];
      && Coherent(after, sectors)
      && Views(after, sectors) == Views(bufs, sectors)[bufs[b].sector := data]
      && PinnedSet(after) == PinnedSet(bufs) && HeldSet(after) == HeldSet(bufs)
  {
    var x := bufs[b].(data := data);
    var after := bufs[b := x];
    LogicalCached(after, sectors, b);
    forall s: nat | s < |sectors| && s != x.sector
      ensures Logical(after, sectors, s) == Logical(bufs, sectors, s)
    {
      LogicalUpdate(bufs, sectors, b, x, s);
    }
    SetsUpdate(bufs, b, x);
  }

  /** Writing a held buffer through makes its sector clean and its view current. */
  lemma Flush(bufs: seq<Buf>, sectors: Disk, b: nat, x: Buf)
    requires Coherent(bufs, sectors) && b < NBUF && bufs[b].busy && bufs[b].dev == DISKDEV && bufs[b].sector < |sectors|
    requires x == bufs[b].(valid := true, dirty := false)
    ensures var after, image := bufs[b := x], sectors[x.sector := x.data];
      && Coherent(after, image)
      && Views(after, image) == Views(bufs, sectors)[x.sector := x.data]
      && PinnedSet(after) == PinnedSet(bufs) - {x.sector} && HeldSet(after) == HeldSet(bufs)
  {
    var after, image := bufs[b := x], sectors[x.sector := x.data];
    forall i | 0 <= i < NBUF
      ensures Agrees(after[i], image)
    {
      assert Agrees(bufs[i], sectors);
      assert i != b && bufs[i].valid ==> !Matches(bufs[i], x.dev, x.sector);
    }
    LogicalCached(after, image, b);
    forall s: nat | s < |sectors| && s != x.sector
      ensures Logical(after, image, s) == Logical(bufs, sectors, s)
    {
      LogicalElsewhere(bufs, sectors, b, x, s);
    }
    SetsUpdate(bufs, b, x);
    assert x.sector !in PinnedSet(after) by {
      if i :| 0 <= i < |after| && after[i].dirty && after[i].sector == x.sector {
        assert i != b && Agrees(bufs[i], sectors) && Matches(bufs[i], bufs[b].dev, bufs[b].sector);
      }
    }
  }

  /** Pinning a held buffer changes no contents. */
  lemma Pin(bufs: seq<Buf>, sectors: Disk, b: nat)
    requires Coherent(bufs, sectors) && b < NBUF && bufs[b].busy && bufs[b].valid
    ensures var after := bufs[b := bufs[b].(dirty := true)];
      && Coherent(after, sectors)
      && Views(after, sectors) == Views(bufs, sectors)
      && PinnedSet(after) == PinnedSet(bufs) + {bufs[b].sector} && HeldSet(after) == HeldSet(bufs)
  {
    var x := bufs[b].(dirty := true);
    forall s: nat | s < |sectors|
      ensures Logical(bufs[b := x], sectors, s) == Logical(bufs, sectors, s)
    {
      LogicalUpdate(bufs, sectors, b, x, s);
    }
    SetsUpdate(bufs, b, x);
  }

  /** Giving back a buffer whose data is on disk or pinned changes no contents. */
  lemma Give(bufs: seq<Buf>, sectors: Disk, b: nat)
    requires Coherent(bufs, sectors) && b < NBUF && bufs[b].busy && bufs[b].valid
    requires forall i :: 0 <= i < NBUF && bufs[i].busy ==> bufs[i].dev == DISKDEV
    requires bufs[b].dirty || bufs[b].data == sectors[bufs[b].sector]
    ensures var after := bufs[b := bufs[b].(busy := false)];
      && Coherent(after, sectors)
      && Views(after, sectors) == Views(bufs, sectors)
      && PinnedSet(after) == PinnedSet(bufs) && HeldSet(after) == HeldSet(bufs) - {bufs[b].sector}
  {
    var x := bufs[b].(busy := false);
    var after := bufs[b := x];
    forall s: nat | s < |sectors|
      ensures Logical(after, sectors, s) == Logical(bufs, sectors, s)
    {
      LogicalUpdate(bufs, sectors, b, x, s);
    }
    SetsUpdate(bufs, b, x);
    assert x.sector !in HeldSet(after) by {
      if i :| 0 <= i < |after| && after[i].busy && after[i].sector == x.sector {
        assert i != b && Matches(bufs[i], bufs[b].dev, bufs[b].sector);
      }
    }
  }

  /** Replacing buffer `b` by one of the same sector, or a recyclable one by any other, changes the
      membership of the two sectors involved and of no other. */
  lemma SetsUpdate(bufs: seq<Buf>, b: nat, x: Buf)
    requires b < |bufs|
    ensures forall s :: s in PinnedSet(bufs[b := x]) ==> s in PinnedSet(bufs) || (x.dirty && s == x.sector)
    ensures forall s :: s in PinnedSet(bufs) ==> s in PinnedSet(bufs[b := x]) || (bufs[b].dirty && s == bufs[b].sector)
    ensures forall s :: s in HeldSet(bufs[b := x]) ==> s in HeldSet(bufs) || (x.busy && s == x.sector)
    ensures forall s :: s in HeldSet(bufs) ==> s in HeldSet(bufs[b := x]) || (bufs[b].busy && s == bufs[b].sector)
    ensures x.dirty ==> x.sector in PinnedSet(bufs[b := x])
    ensures bufs[b].dirty ==> bufs[b].sector in PinnedSet(bufs)
    ensures x.busy ==> x.sector in HeldSet(bufs[b := x])
    ensures bufs[b].busy ==> bufs[b].sector in HeldSet(bufs)
  {
    var after := bufs[b := x];
    assert forall i :: 0 <= i < |bufs| && i != b ==> after[i] == bufs[i];
    assert after[b] == x;
  }

  /** The number of buffers that cannot be recycled. */
  function UsedCount(bufs: seq<Buf>): (n: nat)
    ensures n <= |bufs|
  {
    if bufs == [] then 0
    else UsedCount(bufs[..|bufs| - 1]) + if Recyclable(bufs[|bufs| - 1]) then 0 else 1
  }

  lemma {:induction false} UsedUpdate(bufs: seq<Buf>, b: nat, x: Buf)
    requires b < |bufs|
    ensures UsedCount(bufs[b := x])
         == UsedCount(bufs) + (if Recyclable(x) then 0 else 1) - (if Recyclable(bufs[b]) then 0 else 1)
  {
    var n := |bufs| - 1;
    if b == n {
      assert bufs[b := x][..n] == bufs[..n];
    } else {
      assert bufs[b := x][..n] == bufs[..n][b := x];
      UsedUpdate(bufs[..n], b, x);
    }
  }

  /** A buffer is left exactly when fewer than all are in use or pinned. */
  lemma {:induction false} Occupancy(bufs: seq<Buf>)
    ensures UsedCount(bufs) < |bufs| <==> exists i :: 0 <= i < |bufs| && Recyclable(bufs[i])
  {
    if bufs != [] {
      var n := |bufs| - 1;
      Occupancy(bufs[..n]);
      if i :| 0 <= i < n && Recyclable(bufs[i]) {
        assert Recyclable(bufs[..n][i]);
      }
    }
  }

  /** The sectors of the buffers that cannot be recycled. */
  ghost function UsedSectors(bufs: seq<Buf>): (u: set<uint>)
  {
    set i | 0 <= i < |bufs| && !Recyclable(bufs[i]) :: bufs[i].sector
  }

  lemma {:induction false} UsedSectorsCount(bufs: seq<Buf>)
    requires NoTwins(bufs)
    requires forall i :: 0 <= i < |bufs| && !Recyclable(bufs[i]) ==> bufs[i].dev == DISKDEV
    ensures |UsedSectors(bufs)| == UsedCount(bufs)
  {
    if bufs == [] {
      assert UsedSectors(bufs) == {};
    } else {
      UsedSectorsCount(bufs[..|bufs| - 1]);
      UsedSectorsLast(bufs);
    }
  }

  lemma UsedSectorsLast(bufs: seq<Buf>)
    requires bufs != [] && NoTwins(bufs)
    requires forall i :: 0 <= i < |bufs| && !Recyclable(bufs[i]) ==> bufs[i].dev == DISKDEV
    ensures var n := |bufs| - 1;
      if Recyclable(bufs[n]) then UsedSectors(bufs) == UsedSectors(bufs[..n])
      else UsedSectors(bufs) == UsedSectors(bufs[..n]) + {bufs[n].sector} && bufs[n].sector !in UsedSectors(bufs[..n])
  {
    var n := |bufs| - 1;
    var rest := bufs[..n];
    assert forall i :: 0 <= i < n ==> rest[i] == bufs[i];
    assert forall i :: 0 <= i < n && !Recyclable(bufs[i]) && !Recyclable(bufs[n]) ==>
      !Matches(bufs[i], bufs[n].dev, bufs[n].sector);
  }

  // ---------------------------------------------------------------------------
  // The cache

  function UnusedBuf(): (b: Buf)
  {
    Buf(NODEV, 0, false, false, false, ZeroBlock())
  }

  lemma {:induction false} AllUnused(bufs: seq<Buf>)
    requires forall i :: 0 <= i < |bufs| ==> bufs[i] == UnusedBuf()
    ensures FreeCount(bufs) == |bufs| && UsedCount(bufs) == 0
  {
    if bufs != [] {
      AllUnused(bufs[..|bufs| - 1]);
    }
  }

  datatype Got = Hit(b: nat) | Recycled(b: nat) | Sleep(b: nat) | NoBuffers

  datatype Read = Ready(b: nat) | Asleep(b: nat) | Panic

  // ---------------------------------------------------------------------------
  // The invariant, and what each operation does to it

  /** The list part of the cache. */
  ghost predicate ListInv(next: seq<nat>, prev: seq<nat>, order: seq<nat>, stamps: seq<nat>, clock: nat)
  {
    Ring(next, prev, order) && AllLinked(order) && ByStamp(order, stamps, clock)
  }

  ghost predicate ListOk(next: seq<nat>, prev: seq<nat>, order: seq<nat>, stamps: seq<nat>, clock: nat)
  {
    forall u: int {:trigger Unfold(u)} :: Unfold(u) && u == 1 ==> ListInv(next, prev, order, stamps, clock)
  }

  /** The contents of cache and disk, with what clients see of them and the counts. */
  datatype Contents = Contents(bufs: seq<Buf>, sectors: Disk, view: seq<Block>, pinned: set<uint>, held: set<uint>,
                               used: nat, free: int)

  ghost predicate CacheInv(c: Contents)
  {
    && Coherent(c.bufs, c.sectors)
    && (forall i :: 0 <= i < NBUF && c.bufs[i].busy ==> c.bufs[i].dev == DISKDEV)
    && c.view == Views(c.bufs, c.sectors)
    && c.pinned == PinnedSet(c.bufs) && c.held == HeldSet(c.bufs)
    && c.used == UsedCount(c.bufs) && c.free == FreeCount(c.bufs)
  }

  ghost predicate CacheOk(c: Contents)
  {
    forall u: int {:trigger Unfold(u)} :: Unfold(u) && u == 0 ==> CacheInv(c)
  }

  lemma CountsUpdate(bufs: seq<Buf>, b: nat, x: Buf)
    requires b < |bufs|
    ensures UsedCount(bufs[b := x])
         == UsedCount(bufs) + (if Recyclable(x) then 0 else 1) - (if Recyclable(bufs[b]) then 0 else 1)
    ensures FreeCount(bufs[b := x]) == FreeCount(bufs) + (if x.busy then 0 else 1) - (if bufs[b].busy then 0 else 1)
  {
    UsedUpdate(bufs, b, x);
    FreeUpdate(bufs, b, x);
  }

  lemma TakeOk(c: Contents, b: nat, x: Buf)
    requires CacheOk(c) && b < |c.bufs| == NBUF && !c.bufs[b].busy && x.busy && x.dev == DISKDEV
    requires x == c.bufs[b].(busy := true)
          || (Recyclable(c.bufs[b]) && !x.valid && !x.dirty
              && forall k :: 0 <= k < NBUF ==> !Matches(c.bufs[k], x.dev, x.sector))
    ensures CacheOk(c.(bufs := c.bufs[b := x], held := c.held + {x.sector},
                       used := c.used + if c.bufs[b].dirty then 0 else 1, free := c.free - 1))
  {
    assert Unfold(0);
    Take(c.bufs, c.sectors, b, x);
    CountsUpdate(c.bufs, b, x);
  }

  lemma FillOk(c: Contents, b: nat)
    requires CacheOk(c) && b < |c.bufs| && c.bufs[b].busy && !c.bufs[b].valid
    requires c.bufs[b].dev == DISKDEV && c.bufs[b].sector < |c.sectors|
    ensures CacheOk(c.(bufs := c.bufs[b := c.bufs[b].(valid := true, data := c.sectors[c.bufs[b].sector])]))
  {
    assert Unfold(0);
    var x := c.bufs[b].(valid := true, data := c.sectors[c.bufs[b].sector]);
    Fill(c.bufs, c.sectors, b, x);
    CountsUpdate(c.bufs, b, x);
  }

  lemma ChangeOk(c: Contents, b: nat, data: Block)
    requires CacheOk(c) && b < |c.bufs| && c.bufs[b].busy && c.bufs[b].valid
    ensures c.bufs[b].sector < |c.view|
    ensures CacheOk(c.(bufs := c.bufs[b := c.bufs[b].(data := data)], view := c.view[c.bufs[b].sector := data]))
  {
    assert Unfold(0);
    assert Agrees(c.bufs[b], c.sectors);
    Change(c.bufs, c.sectors, b, data);
    CountsUpdate(c.bufs, b, c.bufs[b].(data := data));
  }

  lemma PinOk(c: Contents, b: nat)
    requires CacheOk(c) && b < |c.bufs| && c.bufs[b].busy && c.bufs[b].valid
    ensures CacheOk(c.(bufs := c.bufs[b := c.bufs[b].(dirty := true)], pinned := c.pinned + {c.bufs[b].sector}))
  {
    assert Unfold(0);
    Pin(c.bufs, c.sectors, b);
    CountsUpdate(c.bufs, b, c.bufs[b].(dirty := true));
  }

  lemma FlushOk(c: Contents, b: nat)
    requires CacheOk(c) && b < |c.bufs| && c.bufs[b].busy && c.bufs[b].sector < |c.sectors|
    ensures |c.view| == |c.sectors|
    ensures var x := c.bufs[b].(valid := true, dirty := false);
      CacheOk(c.(bufs := c.bufs[b := x], sectors := c.sectors[x.sector := x.data],
                 view := c.view[x.sector := x.data], pinned := c.pinned - {x.sector}))
  {
    assert Unfold(0);
    var x := c.bufs[b].(valid := true, dirty := false);
    Flush(c.bufs, c.sectors, b, x);
    CountsUpdate(c.bufs, b, x);
  }

  lemma BusyUsed(c: Contents, b: nat)
    requires CacheOk(c) && b < |c.bufs| && c.bufs[b].busy
    ensures c.used > 0
  {
    assert Unfold(0);
    CountsUpdate(c.bufs, b, c.bufs[b].(busy := false, dirty := false));
  }

  lemma GiveOk(c: Contents, b: nat)
    requires CacheOk(c) && b < |c.bufs| && c.bufs[b].busy && c.bufs[b].valid && c.bufs[b].sector < |c.sectors|
    requires c.bufs[b].dirty || c.bufs[b].data == c.sectors[c.bufs[b].sector]
    ensures c.used > 0 || c.bufs[b].dirty
    ensures CacheOk(c.(bufs := c.bufs[b := c.bufs[b].(busy := false)], held := c.held - {c.bufs[b].sector},
                       used := c.used - if c.bufs[b].dirty then 0 else 1, free := c.free + 1))
  {
    assert Unfold(0);
    Give(c.bufs, c.sectors, b);
    CountsUpdate(c.bufs, b, c.bufs[b].(busy := false));
  }

  class Bcache {
    const disk: MemDisk
    var bufs: seq<Buf>
    var next: seq<nat>
    var prev: seq<nat>
    var freeBlocks: int   // free_block_number
    var hits: int         // number_of_hits
    var accesses: int     // number_of_block_acsses

    ghost var order: seq<nat>      // the list, most recently released first
    ghost var clock: nat           // releases so far
    ghost var stamps: seq<nat>     // when each buffer was last released; 0 for never
    ghost var waiting: nat         // calls of bget asleep on a busy buffer

    // What clients see
    ghost var view: seq<Block>     // contents of every sector
    ghost var pinned: set<uint>    // sectors in dirty buffers
    ghost var held: set<uint>      // sectors in busy buffers
    ghost var used: nat            // buffers that cannot be recycled

    ghost function Now(): (c: Contents)
      reads this, disk
    {
      Contents(bufs, disk.sectors, view, pinned, held, used, freeBlocks)
    }

    ghost predicate Valid()
      reads this, disk
    {
      && ListOk(next, prev, order, stamps, clock)
      && CacheOk(Now())
      && |bufs| == |stamps| == NBUF && |view| == |disk.sectors|
      && 0 <= hits && hits + waiting <= accesses
    }

    /** binit: every buffer unused, linked in the order of the scan. */
    constructor (d: MemDisk)
      ensures Valid() && disk == d
      ensures freeBlocks == NBUF && hits == 0 && accesses == 0 && waiting == 0
      ensures |bufs| == NBUF && forall i :: 0 <= i < NBUF ==> bufs[i] == UnusedBuf()
      ensures view == d.sectors && pinned == {} && held == {} && used == 0
    {
      disk := d;
      var empty := seq(NBUF, i => UnusedBuf());
      AllUnused(empty);
      bufs := empty;
      var nx, pv;
      ghost var ord;
      nx, pv, ord := LinkAll();
      next, prev, order := nx, pv, ord;
      freeBlocks := NBUF;
      accesses := 0;
      hits := 0;
      clock, stamps, waiting := 0, seq(NBUF, i => 0), 0;
      view, pinned, held, used := d.sectors, {}, {}, 0;
    }

    /** The list as `binit` builds it, every buffer inserted at the front. */
    static method LinkAll() returns (nx: seq<nat>, pv: seq<nat>, ghost ord: seq<nat>)
      ensures Ring(nx, pv, ord) && |ord| == NBUF
      ensures forall i :: 0 <= i < NBUF ==> ord[i] == NBUF - 1 - i
      ensures forall b: nat :: b < NBUF ==> b in ord
    {
      nx := seq(NBUF + 1, i => HEAD);
      pv := seq(NBUF + 1, i => HEAD);
      ord := [];
      var b := 0;
      while b < NBUF
        invariant 0 <= b <= NBUF
        invariant Ring(nx, pv, ord) && |ord| == b
        invariant forall i :: 0 <= i < b ==> ord[i] == b - 1 - i
      {
        PushesFront(nx, pv, ord, b);
        var first := nx[HEAD];
        nx := nx[b := first];
        pv := pv[b := HEAD];
        pv := pv[first := b];
        nx := nx[HEAD := b];
        ord := [b] + ord;
        b := b + 1;
      }
      forall c: nat | c < NBUF ensures c in ord {
        assert ord[NBUF - 1 - c] == c;
      }
    }

    /** The first scan of `bget`: the buffer that caches the sector, or the head. */
    method FindCached(dev: uint, sector: uint) returns (b: nat)
      requires Valid()
      ensures b <= NBUF == |bufs| == |stamps|
      ensures b < NBUF ==> Matches(bufs[b], dev, sector)
      ensures b == HEAD ==> forall i :: 0 <= i < NBUF ==> !Matches(bufs[i], dev, sector)
    {
      assert Unfold(1);
      ghost var c, i := Cycle(order), 0;
      b := next[HEAD];
      assert b == c[1] by { assert next[c[0]] == c[1]; }
      while b != HEAD
        invariant 0 <= i <= NBUF && b == c[i + 1]
        invariant forall k :: 0 <= k < i ==> !Matches(bufs[order[k]], dev, sector)
        decreases NBUF - i
      {
        if bufs[b].dev == dev && bufs[b].sector == sector {
          return;
        }
        assert next[c[i + 1]] == c[i + 2];
        b := next[b];
        i := i + 1;
      }
      forall k | 0 <= k < NBUF ensures !Matches(bufs[k], dev, sector) {
        assert k in order;
      }
    }

    /** What it means that the scan found the sector in `b`, or found the head. */
    lemma ScanResult(b: nat, dev: uint, sector: uint)
      requires Valid() && dev != NODEV && b <= |bufs| == NBUF
      requires b < NBUF ==> Matches(bufs[b], dev, sector)
      requires b == HEAD ==> forall i :: 0 <= i < NBUF ==> !Matches(bufs[i], dev, sector)
      ensures b < NBUF ==> dev == DISKDEV
      ensures b < NBUF ==> bufs[b].busy == (sector in held) && bufs[b].dirty == (sector in pinned)
      ensures b < NBUF && !bufs[b].busy ==> bufs[b].valid && sector < |disk.sectors|
      ensures b < NBUF && Recyclable(bufs[b]) ==> used < NBUF
      ensures b == HEAD && dev == DISKDEV ==> sector !in held && sector !in pinned
    {
      assert Unfold(0);
      if b < NBUF { assert Agrees(bufs[b], disk.sectors); }
      Occupancy(bufs);
    }

    /** The second scan of `bget`: the least recently released buffer that is neither in use nor
        pinned, or the head. */
    method FindRecyclable() returns (b: nat)
      requires Valid()
      ensures b <= NBUF == |bufs| == |stamps|
      ensures b < NBUF ==> Recyclable(bufs[b])
      ensures b < NBUF ==> forall i :: 0 <= i < NBUF && Recyclable(bufs[i]) ==> stamps[b] <= stamps[i]
      ensures b == HEAD <==> used >= NBUF
      ensures b == HEAD ==> forall i :: 0 <= i < NBUF ==> !Recyclable(bufs[i])
    {
      assert used == UsedCount(bufs) by { assert Unfold(0); }
      assert Unfold(1);
      Occupancy(bufs);
      ghost var c, i := Cycle(order), NBUF;
      b := prev[HEAD];
      assert b == c[NBUF] by { assert prev[c[NBUF + 1]] == c[NBUF]; }
      while b != HEAD
        invariant 0 <= i <= NBUF && b == c[i]
        invariant forall k :: i <= k < NBUF ==> !Recyclable(bufs[order[k]])
        decreases i
      {
        if !bufs[b].busy && !bufs[b].dirty {
          LeastRecentlyReleased(i - 1);
          return;
        }
        assert prev[c[i]] == c[i - 1];
        b := prev[b];
        i := i - 1;
      }
      forall k | 0 <= k < NBUF ensures !Recyclable(bufs[k]) {
        assert k in order;
      }
    }

    /** One pass of `bget` under the cache lock. `first` tells a new call from one that was woken
        up and jumps back to `loop`. `Sleep(b)` means the sector is cached in `b` and busy. */
    method Bget(dev: uint, sector: uint, first: bool) returns (r: Got)
      requires Valid() && dev != NODEV && (!first ==> waiting > 0)
      modifies this
      ensures dev == DISKDEV || r.Sleep? || r.NoBuffers? ==> Valid()
      ensures unchanged(`next, `prev, `order, `clock, `stamps)
      ensures accesses == old(accesses) + if first then 1 else 0
      ensures hits == old(hits) + if r.Hit? then 1 else 0
      ensures waiting == old(waiting) + (if r.Sleep? then 1 else 0) - (if first then 0 else 1)
      ensures |bufs| == |old(bufs)| == |stamps| == NBUF && (!r.NoBuffers? ==> r.b < NBUF)
      // Which case it is
      ensures r.Hit? || r.Sleep? ==>
        Matches(old(bufs)[r.b], dev, sector) && dev == DISKDEV && old(bufs)[r.b].busy == r.Sleep?
      ensures r.Recycled? || r.NoBuffers? ==> forall i :: 0 <= i < NBUF ==> !Matches(old(bufs)[i], dev, sector)
      ensures r.NoBuffers? ==> old(used) >= NBUF
      ensures r.Recycled? ==> old(used) < NBUF
      ensures dev == DISKDEV ==> (r.Sleep? <==> sector in old(held))
      ensures dev == DISKDEV && (r.Recycled? || r.NoBuffers?) ==> sector !in old(pinned)
      // The least recently released buffer that may be recycled
      ensures r.Recycled? ==> Recyclable(old(bufs)[r.b])
      ensures r.Recycled? ==> forall i :: 0 <= i < NBUF && Recyclable(old(bufs)[i]) ==> stamps[r.b] <= stamps[i]
      // The new state
      ensures r.Hit? ==> bufs == old(bufs)[r.b := old(bufs)[r.b].(busy := true)]
      ensures r.Hit? ==> bufs[r.b].valid && sector < |disk.sectors| && bufs[r.b].dirty == (sector in old(pinned))
      ensures r.Hit? && !bufs[r.b].dirty ==> old(used) < NBUF
      ensures r.Recycled? ==> bufs == old(bufs)[r.b := Buf(dev, sector, true, false, false, old(bufs)[r.b].data)]
      ensures r.Sleep? || r.NoBuffers? ==> bufs == old(bufs)
      ensures view == old(view) && pinned == old(pinned)
      ensures held == if r.Hit? || r.Recycled? then old(held) + {sector} else old(held)
      ensures used == old(used) + if r.Recycled? || (r.Hit? && !bufs[r.b].dirty) then 1 else 0
    {
      CountAccess(first);
      var b := FindCached(dev, sector);
      ScanResult(b, dev, sector);
      if b != HEAD {
        if !bufs[b].busy {
          HandOutCached(b);
          return Hit(b);
        }
        NoteSleeper();
        return Sleep(b);
      }
      r := Recycle(dev, sector);
    }

    /** The rest of `bget` for a sector that is not cached: hand out the least recently released free buffer. */
    method Recycle(dev: uint, sector: uint) returns (r: Got)
      requires Valid() && dev != NODEV && forall i :: 0 <= i < NBUF ==> !Matches(bufs[i], dev, sector)
      modifies `bufs, `held, `used, `freeBlocks
      ensures r.Recycled? || r.NoBuffers?
      ensures dev == DISKDEV || r.NoBuffers? ==> Valid()
      ensures r.NoBuffers? <==> old(used) >= NBUF
      ensures r.NoBuffers? ==> unchanged(this)
      ensures r.Recycled? ==> r.b < NBUF == |old(bufs)| && Recyclable(old(bufs)[r.b])
      ensures r.Recycled? ==> forall i :: 0 <= i < NBUF && Recyclable(old(bufs)[i]) ==> stamps[r.b] <= stamps[i]
      ensures r.Recycled? ==> bufs == old(bufs)[r.b := Buf(dev, sector, true, false, false, old(bufs)[r.b].data)]
      ensures r.Recycled? ==> held == old(held) + {sector} && used == old(used) + 1
    {
      var b := FindRecyclable();
      if b == HEAD {
        return NoBuffers;
      }
      var x := Buf(dev, sector, true, false, false, bufs[b].data);
      if dev == DISKDEV {
        HandOutRecycled(b, x);
      } else {
        bufs := bufs[b := x];
        held, used := held + {sector}, used + 1;
        freeBlocks := freeBlocks - 1;
      }
      r := Recycled(b);
    }

    /** `number_of_block_acsses++` on a new call; a call that was asleep resumes. */
    method CountAccess(first: bool)
      requires Valid() && (!first ==> waiting > 0)
      modifies `accesses, `waiting
      ensures Valid()
      ensures accesses == old(accesses) + if first then 1 else 0
      ensures waiting == old(waiting) - if first then 0 else 1
      ensures hits + waiting < accesses
    {
      if first {
        accesses := accesses + 1;
      } else {
        waiting := waiting - 1;
      }
    }

    ghost method NoteSleeper()
      requires Valid() && hits + waiting < accesses
      modifies `waiting
      ensures Valid() && waiting == old(waiting) + 1
    {
      waiting := waiting + 1;
    }

    /** Give the cached buffer `b` to the caller. */
    method HandOutCached(b: nat)
      requires Valid() && b < |bufs| && !bufs[b].busy && bufs[b].dev == DISKDEV && hits + waiting < accesses
      modifies `bufs, `held, `used, `hits, `freeBlocks
      ensures Valid()
      ensures bufs == old(bufs)[b := old(bufs)[b].(busy := true)] && held == old(held) + {bufs[b].sector}
      ensures hits == old(hits) + 1
      ensures used == old(used) + if bufs[b].dirty then 0 else 1
    {
      var x := bufs[b].(busy := true);
      TakeOk(Now(), b, x);
      used := used + if bufs[b].dirty then 0 else 1;
      bufs := bufs[b := x];
      held := held + {x.sector};
      hits := hits + 1;
      freeBlocks := freeBlocks - 1;
    }

    /** Give buffer `b` to the caller for a sector that is not cached. */
    method HandOutRecycled(b: nat, x: Buf)
      requires Valid() && b < |bufs| && Recyclable(bufs[b]) && x.busy && x.dev == DISKDEV && !x.valid && !x.dirty
      requires forall k :: 0 <= k < NBUF ==> !Matches(bufs[k], x.dev, x.sector)
      modifies `bufs, `held, `used, `freeBlocks
      ensures Valid()
      ensures bufs == old(bufs)[b := x] && held == old(held) + {x.sector} && used == old(used) + 1
    {
      TakeOk(Now(), b, x);
      bufs := bufs[b := x];
      held, used := held + {x.sector}, used + 1;
      freeBlocks := freeBlocks - 1;
    }

    /** The last recyclable buffer of the list is the least recently released one. */
    lemma LeastRecentlyReleased(p: nat)
      requires ListInv(next, prev, order, stamps, clock) && |bufs| == NBUF && p < NBUF && Recyclable(bufs[order[p]])
      requires forall k :: p < k < NBUF ==> !Recyclable(bufs[order[k]])
      ensures forall i :: 0 <= i < NBUF && Recyclable(bufs[i]) ==> stamps[order[p]] <= stamps[i]
    {
      forall i | 0 <= i < NBUF && Recyclable(bufs[i])
        ensures stamps[order[p]] <= stamps[i]
      {
        assert i in order;
        var k :| 0 <= k < NBUF && order[k] == i;
      }
    }

    /** One pass of `bread`. `Ready(b)` is a held buffer with the contents of the sector. It fails
        exactly when the sector does not exist, or when it needs a buffer and all are pinned or held. */
    method Bread(dev: uint, sector: uint, first: bool) returns (r: Read)
      requires Valid() && dev != NODEV && (!first ==> waiting > 0)
      modifies this, disk
      ensures disk.sectors == old(disk.sectors) && disk.writes == old(disk.writes)
      ensures unchanged(`next, `prev, `order, `clock, `stamps)
      ensures dev == DISKDEV ==> (r.Asleep? <==> sector in old(held))
      ensures dev == DISKDEV ==> (r.Panic? <==>
        sector !in old(held) && sector !in old(pinned) && (sector >= |disk.sectors| || old(used) >= NBUF))
      ensures dev != DISKDEV ==> r.Panic?
      ensures !r.Panic? ==> Valid() && view == old(view) && pinned == old(pinned)
      ensures !r.Panic? ==> held == if r.Ready? then old(held) + {sector} else old(held)
      ensures !r.Panic? ==> used == old(used) + if r.Ready? && sector !in pinned then 1 else 0
      ensures !r.Panic? ==> r.b < |bufs| && |bufs| == |old(bufs)| == NBUF
      ensures r.Asleep? ==> bufs == old(bufs)
      ensures r.Ready? ==> sector < |view| && !old(bufs)[r.b].busy
      ensures r.Ready? ==> bufs[r.b] == Buf(DISKDEV, sector, true, true, sector in pinned, view[sector])
      ensures r.Ready? ==> forall i :: 0 <= i < NBUF && old(bufs)[i].busy ==> bufs[i] == old(bufs)[i]
    {
      var g := Bget(dev, sector, first);
      if g.NoBuffers? {
        return Panic;
      }
      if g.Sleep? {
        return Asleep(g.b);
      }
      var b := g.b;
      if !bufs[b].valid {
        var ok := Load(b);
        if !ok {
          return Panic;
        }
      }
      ReadyData(b);
      r := Ready(b);
    }

    /** `iderw` on a buffer that is not valid yet. */
    method Load(b: nat) returns (ok: bool)
      requires b < |bufs| && bufs[b].busy && !bufs[b].valid && !bufs[b].dirty
      requires bufs[b].dev == DISKDEV ==> Valid()
      modifies `bufs, disk
      ensures disk.sectors == old(disk.sectors) && disk.writes == old(disk.writes)
      ensures ok <==> old(bufs)[b].dev == DISKDEV && old(bufs)[b].sector < |disk.sectors|
      ensures ok ==>
        Valid() && bufs == old(bufs)[b := old(bufs)[b].(valid := true, data := disk.sectors[old(bufs)[b].sector])]
      ensures !ok ==> bufs == old(bufs)
    {
      if bufs[b].dev == DISKDEV && bufs[b].sector < |disk.sectors| {
        FillOk(Now(), b);
      }
      var x := disk.Iderw(bufs[b]);
      if x.None? {
        return false;
      }
      bufs := bufs[b := x.value];
      ok := true;
    }

    lemma HeldIsOnDisk(b: nat)
      requires Valid() && b < |bufs| && bufs[b].busy
      ensures bufs[b].dev == DISKDEV
    {
      assert Unfold(0);
    }

    /** A valid buffer shows what readers of its sector see. */
    lemma ReadyData(b: nat)
      requires Valid() && b < |bufs| && bufs[b].valid
      ensures |bufs| == NBUF && |view| == |disk.sectors|
      ensures bufs[b].sector < |view| && bufs[b].data == view[bufs[b].sector]
    {
      assert Unfold(0);
      assert Agrees(bufs[b], disk.sectors);
      LogicalCached(bufs, disk.sectors, b);
    }

    /** The buffers in use or pinned are as many as the sectors held or pinned. */
    lemma UsedIsSectors()
      requires Valid()
      ensures used == |pinned + held| && used <= NBUF
    {
      assert Unfold(0);
      assert forall i :: 0 <= i < NBUF && bufs[i].dirty ==> Agrees(bufs[i], disk.sectors);
      UsedSectorsCount(bufs);
      assert UsedSectors(bufs) == pinned + held;
    }

    /** A sector that is neither pinned nor held reads as it is on disk. */
    lemma CleanView(s: nat)
      requires Valid() && s < |disk.sectors| && s !in pinned && s !in held
      ensures |view| == |disk.sectors| && view[s] == disk.sectors[s]
    {
      assert Unfold(0);
      forall i | 0 <= i < NBUF && Holds(bufs[i], s)
        ensures bufs[i].data == disk.sectors[s]
      {
        assert Agrees(bufs[i], disk.sectors);
      }
    }

    /** With nothing pinned and nothing held, readers see the disk. */
    lemma CleanCache()
      requires Valid() && pinned == {} && held == {}
      ensures view == disk.sectors && used == 0
    {
      UsedIsSectors();
      assert pinned + held == {};
      forall s: nat | s < |disk.sectors|
        ensures view[s] == disk.sectors[s]
      {
        CleanView(s);
      }
    }

    /** The holder changes the data of its buffer. */
    method SetData(b: nat, data: Block)
      requires Valid() && b < |bufs| && bufs[b].busy && bufs[b].valid
      modifies `bufs, `view
      ensures Valid()
      ensures bufs == old(bufs)[b := old(bufs)[b].(data := data)]
      ensures bufs[b].sector < |old(view)| && view == old(view)[bufs[b].sector := data]
    {
      ChangeOk(Now(), b, data);
      view := view[bufs[b].sector := data];
      bufs := bufs[b := bufs[b].(data := data)];
    }

    /** `b->flags |= B_DIRTY`: pin a held buffer. */
    method SetDirty(b: nat)
      requires Valid() && b < |bufs| && bufs[b].busy && bufs[b].valid
      modifies `bufs, `pinned
      ensures Valid()
      ensures bufs == old(bufs)[b := old(bufs)[b].(dirty := true)]
      ensures pinned == old(pinned) + {bufs[b].sector}
    {
      PinOk(Now(), b);
      pinned := pinned + {bufs[b].sector};
      bufs := bufs[b := bufs[b].(dirty := true)];
    }

    /** Write a held buffer through to its sector. `false` is a panic. */
    method Bwrite(b: nat) returns (ok: bool)
      requires Valid() && b < |bufs|
      modifies `bufs, `view, `pinned, disk
      ensures ok <==> old(bufs)[b].busy && old(bufs)[b].sector < |old(disk.sectors)|
      ensures !ok ==> disk.sectors == old(disk.sectors) && disk.writes == old(disk.writes)
      ensures ok ==> Valid()
      ensures ok ==> bufs == old(bufs)[b := old(bufs)[b].(valid := true, dirty := false)]
      ensures ok ==> disk.sectors == old(disk.sectors)[bufs[b].sector := bufs[b].data]
      ensures ok ==> disk.writes == old(disk.writes) + [Write(bufs[b].sector, bufs[b].data)]
      ensures ok ==> |old(view)| == |disk.sectors| && view == old(view)[bufs[b].sector := bufs[b].data]
      ensures ok ==> pinned == old(pinned) - {bufs[b].sector}
    {
      if !bufs[b].busy {
        return false;
      }
      HeldIsOnDisk(b);
      ghost var before := bufs;
      if bufs[b].sector < |disk.sectors| {
        FlushOk(Now(), b);
      }
      bufs := bufs[b := bufs[b].(dirty := true)];
      var x := disk.Iderw(bufs[b]);
      if x.None? {
        return false;
      }
      bufs := bufs[b := x.value];
      assert bufs == before[b := x.value];
      view := view[x.value.sector := x.value.data];
      pinned := pinned - {x.value.sector};
      ok := true;
    }

    /** The buffer holds what is on disk, or will be written. */
    ghost predicate Settled(x: Buf)
      reads disk
    {
      x.valid && x.sector < |disk.sectors| && (x.dirty || x.data == disk.sectors[x.sector])
    }

    /** Release a held buffer and move it to the front of the list. `false` is a panic. */
    method Brelse(b: nat) returns (ok: bool)
      requires Valid() && b < |bufs|
      modifies this
      ensures ok <==> old(bufs)[b].busy
      ensures !ok ==> bufs == old(bufs) && order == old(order)
      ensures unchanged(`hits, `accesses, `waiting, `view, `pinned)
      // The cache stays coherent if changed data was handed to bwrite or to log_write.
      ensures ok && old(Settled(bufs[b])) ==> Valid()
      ensures ok ==> ListOk(next, prev, order, stamps, clock)
      ensures ok ==> bufs == old(bufs)[b := old(bufs)[b].(busy := false)]
      ensures ok ==> held == old(held) - {bufs[b].sector} && used == old(used) - if bufs[b].dirty then 0 else 1
      ensures ok ==> exists p :: 0 <= p < |old(order)| && old(order)[p] == b && order == [b] + Without(old(order), p)
      ensures ok ==> clock == old(clock) + 1 && b < |old(stamps)| && stamps == old(stamps)[b := clock]
    {
      if !bufs[b].busy {
        return false;
      }
      MoveToFront(b);
      BusyUsed(Now(), b);
      if Settled(bufs[b]) {
        GiveOk(Now(), b);
      }
      held := held - {bufs[b].sector};
      used := used - if bufs[b].dirty then 0 else 1;
      bufs := bufs[b := bufs[b].(busy := false)];
      freeBlocks := freeBlocks + 1;
      ok := true;
    }

    /** The list splice of `brelse`. */
    method MoveToFront(b: nat)
      requires ListOk(next, prev, order, stamps, clock) && b < NBUF == |stamps|
      modifies `next, `prev, `order, `clock, `stamps
      ensures ListOk(next, prev, order, stamps, clock)
      ensures exists p :: 0 <= p < |old(order)| && old(order)[p] == b && order == [b] + Without(old(order), p)
      ensures clock == old(clock) + 1 && stamps == old(stamps)[b := clock]
    {
      assert Unfold(1);
      assert b in order;
      ghost var p :| 0 <= p < NBUF && order[p] == b;
      Unlinks(next, prev, order, p);
      var nx, pv := next, prev;
      var bn, bp := nx[b], pv[b];
      pv := pv[bn := bp];
      nx := nx[bp := bn];
      ghost var rest := Without(order, p);
      PushesFront(nx, pv, rest, b);
      var first := nx[HEAD];
      nx := nx[b := first];
      pv := pv[b := HEAD];
      pv := pv[first := b];
      nx := nx[HEAD := b];
      Reordered(order, stamps, clock, p);
      next, prev, order := nx, pv, [b] + rest;
      clock := clock + 1;
      stamps := stamps[b := clock];
    }
  }
}
