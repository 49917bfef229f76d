/** Two-level page tables and who owns which physical frame: a frame is idle on the free list, holds the
    page directory, a page table or a user page, is loose (allocated but not attached), or belongs to others. */
module PageMap {

  /** Entries per directory and per table. */
  const ENTRIES := 1024
  /** Directory entries that map user addresses, those below KERNBASE. */
  const USER := 512
  const PAGES := USER * ENTRIES

  type Page = seq<int>

  /** The PTE_P bit and the frame number of an entry. */
  predicate Present(w: int)
  {
    w % 2 == 1
  }

  function FrameOf(w: int): (f: int)
  {
    w / 4096
  }

  /** A present entry for frame `f`, with PTE_P, PTE_W and PTE_U set. */
  function Entry(f: int): (w: int)
    ensures Present(w) && FrameOf(w) == f
  {
    f * 4096 + 7
  }

  function Blank(n: nat): (r: Page)
    ensures |r| == n && forall i :: 0 <= i < n ==> r[i] == 0
  {
    if n == 0 then [] else Blank(n - 1) + [0]
  }

  function ZeroPage(): (r: Page)
    ensures |r| == ENTRIES && forall i :: 0 <= i < ENTRIES ==> r[i] == 0 && !Present(r[i])
  {
    Blank(ENTRIES)
  }

  datatype Owner = Other | Dir | Table(d: int) | UserPage(d: int, x: int) | Idle(k: int) | Loose

  /** The table rows as the directory sees them: row `d` is the table at entry `d`, zeros if there is none. */
  type Rows = seq<seq<int>>

  predicate Shaped(dirs: seq<int>, rows: Rows)
  {
    && |dirs| == ENTRIES && |rows| == ENTRIES
    && forall d :: 0 <= d < ENTRIES ==> |rows[d]| == ENTRIES
  }

  /** The entry at `f` is what its owner says. */
  predicate OwnerOk(f: int, o: Owner, dirs: seq<int>, rows: Rows, free: seq<int>, dir: int)
    requires Shaped(dirs, rows)
  {
    match o
    case Other => true
    case Loose => true
    case Dir => f == dir
    case Table(d) => 0 <= d < ENTRIES && Present(dirs[d]) && FrameOf(dirs[d]) == f
    case UserPage(d, x) => 0 <= d < USER && 0 <= x < ENTRIES && Present(rows[d][x]) && FrameOf(rows[d][x]) == f
    case Idle(k) => 0 <= k < |free| && free[k] == f
  }

  predicate In(f: int, owner: seq<Owner>)
  {
    0 < f < |owner|
  }

  /** Frames are partitioned among their owners, and everything that names a frame owns it. */
  ghost predicate Owned(dirs: seq<int>, rows: Rows, free: seq<int>, owner: seq<Owner>, dir: int)
  {
    && Shaped(dirs, rows)
    && In(dir, owner) && owner[dir].Dir?
    && (forall f :: 0 <= f < |owner| ==> OwnerOk(f, owner[f], dirs, rows, free, dir))
    && (forall d :: 0 <= d < ENTRIES && Present(dirs[d]) ==>
          In(FrameOf(dirs[d]), owner) && owner[FrameOf(dirs[d])] == Table(d))
    && (forall d, x :: 0 <= d < USER && 0 <= x < ENTRIES && Present(rows[d][x]) ==>
          In(FrameOf(rows[d][x]), owner) && owner[FrameOf(rows[d][x])] == UserPage(d, x))
    && (forall k :: 0 <= k < |free| ==> In(free[k], owner) && owner[free[k]] == Idle(k))
  }

  lemma OwnedTake(dirs: seq<int>, rows: Rows, free: seq<int>, owner: seq<Owner>, dir: int)
    requires Owned(dirs, rows, free, owner, dir) && free != []
    ensures var n := |free| - 1; In(free[n], owner) && Owned(dirs, rows, free[..n], owner[free[n] := Loose], dir)
  {
    var n := |free| - 1;
    var f := free[n];
    var after := owner[f := Loose];
    assert owner[f] == Idle(n);
    forall g | 0 <= g < |after| ensures OwnerOk(g, after[g], dirs, rows, free[..n], dir) {
      assert OwnerOk(g, owner[g], dirs, rows, free, dir);
    }
  }

  lemma OwnedGive(dirs: seq<int>, rows: Rows, free: seq<int>, owner: seq<Owner>, dir: int, f: int)
    requires Owned(dirs, rows, free, owner, dir) && In(f, owner) && owner[f].Loose?
    ensures Owned(dirs, rows, free + [f], owner[f := Idle(|free|)], dir)
  {
    var after := owner[f := Idle(|free|)];
    forall g | 0 <= g < |after| ensures OwnerOk(g, after[g], dirs, rows, free + [f], dir) {
      assert OwnerOk(g, owner[g], dirs, rows, free, dir);
    }
  }

  lemma OwnedTable(dirs: seq<int>, rows: Rows, free: seq<int>, owner: seq<Owner>, dir: int, d: nat, f: int)
    requires Owned(dirs, rows, free, owner, dir) && In(f, owner) && owner[f].Loose? && d < ENTRIES && !Present(dirs[d])
    ensures Owned(dirs[d := Entry(f)], rows, free, owner[f := Table(d)], dir)
  {
    var after, ds := owner[f := Table(d)], dirs[d := Entry(f)];
    forall g | 0 <= g < |after| ensures OwnerOk(g, after[g], ds, rows, free, dir) {
      assert OwnerOk(g, owner[g], dirs, rows, free, dir);
    }
  }

  function WithEntry(rows: Rows, d: nat, x: nat, w: int): (r: Rows)
    requires d < |rows| && x < |rows[d]|
    ensures |r| == |rows| && forall e :: 0 <= e < |rows| ==> |r[e]| == |rows[e]|
  {
    rows[d := rows[d][x := w]]
  }

  lemma OwnedPage(dirs: seq<int>, rows: Rows, free: seq<int>, owner: seq<Owner>, dir: int, d: nat, x: nat, f: int)
    requires Owned(dirs, rows, free, owner, dir) && In(f, owner) && owner[f].Loose?
    requires d < USER && x < ENTRIES && !Present(rows[d][x])
    ensures Owned(dirs, WithEntry(rows, d, x, Entry(f)), free, owner[f := UserPage(d, x)], dir)
  {
    var after, rs := owner[f := UserPage(d, x)], WithEntry(rows, d, x, Entry(f));
    forall g | 0 <= g < |after| ensures OwnerOk(g, after[g], dirs, rs, free, dir) {
      assert OwnerOk(g, owner[g], dirs, rows, free, dir);
    }
    forall e, y | 0 <= e < USER && 0 <= y < ENTRIES && Present(rs[e][y])
      ensures In(FrameOf(rs[e][y]), after) && after[FrameOf(rs[e][y])] == UserPage(e, y)
    {
      if e != d || y != x {
        assert rs[e][y] == rows[e][y];
      }
    }
  }

  lemma OwnedDropPage(dirs: seq<int>, rows: Rows, free: seq<int>, owner: seq<Owner>, dir: int, d: nat, x: nat)
    requires Owned(dirs, rows, free, owner, dir) && d < USER && x < ENTRIES && Present(rows[d][x])
    ensures In(FrameOf(rows[d][x]), owner)
    ensures Owned(dirs, WithEntry(rows, d, x, 0), free, owner[FrameOf(rows[d][x]) := Loose], dir)
  {
    var f := FrameOf(rows[d][x]);
    var after, rs := owner[f := Loose], WithEntry(rows, d, x, 0);
    assert owner[f] == UserPage(d, x);
    forall g | 0 <= g < |after| ensures OwnerOk(g, after[g], dirs, rs, free, dir) {
      assert OwnerOk(g, owner[g], dirs, rows, free, dir);
    }
    forall e, y | 0 <= e < USER && 0 <= y < ENTRIES && Present(rs[e][y])
      ensures In(FrameOf(rs[e][y]), after) && after[FrameOf(rs[e][y])] == UserPage(e, y)
    {
      assert rs[e][y] == rows[e][y];
    }
  }

  /** Table `d` goes to the free list. */
  lemma TableToPool(dirs: seq<int>, rows: Rows, free: seq<int>, owner: seq<Owner>, dir: int, d: nat)
    requires Owned(dirs, rows, free, owner, dir) && d < ENTRIES && Present(dirs[d])
    ensures In(FrameOf(dirs[d]), owner) && owner[FrameOf(dirs[d])] == Table(d)
    ensures Owned(dirs[d := 0], rows, free + [FrameOf(dirs[d])], owner[FrameOf(dirs[d]) := Idle(|free|)], dir)
  {
    var f := FrameOf(dirs[d]);
    var now, ds := owner[f := Idle(|free|)], dirs[d := 0];
    forall g | 0 <= g < |now| ensures OwnerOk(g, now[g], ds, rows, free + [f], dir) {
      assert OwnerOk(g, owner[g], dirs, rows, free, dir);
    }
  }

  // ---------------------------------------------------------------------------
  // The tables in memory

  /** Row `d` is in the frame that directory entry `d` names. */
  predicate RowAt(mem: seq<Page>, dirs: seq<int>, rows: Rows, d: int)
    requires 0 <= d < |dirs| && d < |rows|
  {
    if Present(dirs[d]) then 0 <= FrameOf(dirs[d]) < |mem| && mem[FrameOf(dirs[d])] == rows[d]
    else rows[d] == ZeroPage()
  }

  ghost predicate Stored(mem: seq<Page>, dirs: seq<int>, rows: Rows, dir: int)
  {
    && Shaped(dirs, rows) && 0 <= dir < |mem| && mem[dir] == dirs
    && forall d :: 0 <= d < ENTRIES ==> RowAt(mem, dirs, rows, d)
  }

  /** Writing a frame that is neither the directory nor a table. */
  lemma StoredElsewhere(mem: seq<Page>, dirs: seq<int>, rows: Rows, free: seq<int>, owner: seq<Owner>, dir: int,
                        f: int, p: Page)
    requires Owned(dirs, rows, free, owner, dir) && Stored(mem, dirs, rows, dir) && |mem| == |owner|
    requires In(f, owner) && !owner[f].Table? && !owner[f].Dir?
    ensures Stored(mem[f := p], dirs, rows, dir)
  {
    var after := mem[f := p];
    forall d | 0 <= d < ENTRIES ensures RowAt(after, dirs, rows, d) {
      assert RowAt(mem, dirs, rows, d);
    }
  }

  /** A zeroed loose frame becomes table `d`. */
  lemma StoredTable(mem: seq<Page>, dirs: seq<int>, rows: Rows, free: seq<int>, owner: seq<Owner>, dir: int, d: nat,
                    f: int)
    requires Owned(dirs, rows, free, owner, dir) && Stored(mem, dirs, rows, dir) && |mem| == |owner|
    requires In(f, owner) && owner[f].Loose? && d < ENTRIES && !Present(dirs[d]) && mem[f] == ZeroPage()
    ensures Stored(mem[dir := dirs[d := Entry(f)]], dirs[d := Entry(f)], rows, dir)
  {
    var after, ds := mem[dir := dirs[d := Entry(f)]], dirs[d := Entry(f)];
    forall e | 0 <= e < ENTRIES ensures RowAt(after, ds, rows, e) {
      assert RowAt(mem, dirs, rows, e);
    }
  }

  /** Writing an entry of table `d`. */
  lemma StoredEntry(mem: seq<Page>, dirs: seq<int>, rows: Rows, free: seq<int>, owner: seq<Owner>, dir: int, d: nat,
                    x: nat, w: int)
    requires Owned(dirs, rows, free, owner, dir) && Stored(mem, dirs, rows, dir) && |mem| == |owner|
    requires d < ENTRIES && x < ENTRIES && Present(dirs[d])
    ensures In(FrameOf(dirs[d]), owner) && mem[FrameOf(dirs[d])] == rows[d]
    ensures Stored(mem[FrameOf(dirs[d]) := rows[d][x := w]], dirs, WithEntry(rows, d, x, w), dir)
  {
    var t := FrameOf(dirs[d]);
    assert owner[t] == Table(d);
    assert RowAt(mem, dirs, rows, d);
    var after, rs := mem[t := rows[d][x := w]], WithEntry(rows, d, x, w);
    forall e | 0 <= e < ENTRIES ensures RowAt(after, dirs, rs, e) {
      assert RowAt(mem, dirs, rows, e);
    }
  }
}
