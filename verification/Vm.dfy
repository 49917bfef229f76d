/** Page frames and page tables: kalloc.c, and walkpgdir, mappages, allocuvm, deallocuvm and freevm of vm.c.
    Addresses are page numbers here; `Vm` is one address space over the frame pool. */
module Vm {
  import opened Common
  import opened PageMap

  const PGSIZE := 4096
  const KERNBASE := 0x8000_0000

  /** The whole invariant: ownership of frames, tables in memory, and the pool's lower end. */
  ghost predicate Sound(mem: seq<Page>, dirs: seq<int>, rows: Rows, free: seq<int>, owner: seq<Owner>, dir: int,
                        first: nat)
  {
    && Shaped(dirs, rows) && 0 < first && 0 < dir < |mem| == |owner| && owner[dir].Dir?
    && forall u: int {:trigger Unfold(u)} :: Unfold(u) && u == 0 ==>
         && Owned(dirs, rows, free, owner, dir)
         && Stored(mem, dirs, rows, dir)
         && forall f :: 0 <= f < |owner| && f < first ==> owner[f].Other?
  }

  /** Round a size up to whole pages. */
  function PagesUp(size: int): (n: int)
    requires 0 <= size
    ensures n * PGSIZE >= size && (n - 1) * PGSIZE < size
  {
    (size + PGSIZE - 1) / PGSIZE
  }

  predicate Square(rows: Rows)
  {
    |rows| == ENTRIES && forall d :: 0 <= d < ENTRIES ==> |rows[d]| == ENTRIES
  }

  /** The entry for page `v`. */
  function EntryAt(rows: Rows, v: nat): (w: int)
    requires Square(rows) && v < PAGES
  {
    rows[v / ENTRIES][v % ENTRIES]
  }

  predicate Mapped(rows: Rows, v: nat)
    requires Square(rows) && v < PAGES
  {
    Present(EntryAt(rows, v))
  }

  lemma EntryWritten(rows: Rows, v: nat, w: int, u: nat)
    requires Square(rows) && v < PAGES && u < PAGES
    ensures Square(WithEntry(rows, v / ENTRIES, v % ENTRIES, w))
    ensures EntryAt(WithEntry(rows, v / ENTRIES, v % ENTRIES, w), u) == if u == v then w else EntryAt(rows, u)
  {
    if u / ENTRIES == v / ENTRIES && u % ENTRIES == v % ENTRIES {
      assert u == v;
    }
  }

  // ---------------------------------------------------------------------------
  // Steps on the folded invariant

  lemma SoundDir(mem: seq<Page>, dirs: seq<int>, rows: Rows, free: seq<int>, owner: seq<Owner>, dir: int,
                 first: nat, d: nat)
    requires Sound(mem, dirs, rows, free, owner, dir, first) && d < ENTRIES
    ensures mem[dir] == dirs
    ensures Present(dirs[d]) ==>
      0 < FrameOf(dirs[d]) < |mem| && mem[FrameOf(dirs[d])] == rows[d] && owner[FrameOf(dirs[d])] == Table(d)
    ensures !Present(dirs[d]) ==> rows[d] == ZeroPage()
  {
    assert Unfold(0);
    assert RowAt(mem, dirs, rows, d);
  }

  lemma SoundTake(mem: seq<Page>, dirs: seq<int>, rows: Rows, free: seq<int>, owner: seq<Owner>, dir: int, first: nat)
    requires Sound(mem, dirs, rows, free, owner, dir, first) && free != []
    ensures var n := |free| - 1;
      && first <= free[n] < |owner| == |mem| && owner[free[n]].Idle?
      && Sound(mem, dirs, rows, free[..n], owner[free[n] := Loose], dir, first)
  {
    assert Unfold(0);
    OwnedTake(dirs, rows, free, owner, dir);
  }

  lemma SoundWriteLoose(mem: seq<Page>, dirs: seq<int>, rows: Rows, free: seq<int>, owner: seq<Owner>, dir: int,
                        first: nat, f: int, p: Page)
    requires Sound(mem, dirs, rows, free, owner, dir, first) && 0 < f < |owner| && owner[f].Loose?
    ensures |mem| == |owner| && Sound(mem[f := p], dirs, rows, free, owner, dir, first)
  {
    assert Unfold(0);
    StoredElsewhere(mem, dirs, rows, free, owner, dir, f, p);
  }

  /** A loose frame, overwritten with `p`, goes to the free list. */
  lemma SoundGive(mem: seq<Page>, dirs: seq<int>, rows: Rows, free: seq<int>, owner: seq<Owner>, dir: int,
                  first: nat, f: int, p: Page)
    requires Sound(mem, dirs, rows, free, owner, dir, first) && first <= f < |owner| && owner[f].Loose?
    ensures Sound(mem[f := p], dirs, rows, free + [f], owner[f := Idle(|free|)], dir, first)
  {
    assert Unfold(0);
    StoredElsewhere(mem, dirs, rows, free, owner, dir, f, p);
    OwnedGive(dirs, rows, free, owner, dir, f);
  }

  lemma SoundTable(mem: seq<Page>, dirs: seq<int>, rows: Rows, free: seq<int>, owner: seq<Owner>, dir: int,
                   first: nat, d: nat, f: int)
    requires Sound(mem, dirs, rows, free, owner, dir, first) && first <= f < |owner| == |mem| && owner[f].Loose?
    requires d < ENTRIES && !Present(dirs[d]) && mem[f] == ZeroPage()
    ensures 0 <= dir < |mem|
    ensures Sound(mem[dir := dirs[d := Entry(f)]], dirs[d := Entry(f)], rows, free, owner[f := Table(d)], dir, first)
  {
    assert Unfold(0);
    StoredTable(mem, dirs, rows, free, owner, dir, d, f);
    OwnedTable(dirs, rows, free, owner, dir, d, f);
  }

  lemma SoundMap(mem: seq<Page>, dirs: seq<int>, rows: Rows, free: seq<int>, owner: seq<Owner>, dir: int,
                 first: nat, d: nat, x: nat, f: int)
    requires Sound(mem, dirs, rows, free, owner, dir, first) && first <= f < |owner| && owner[f].Loose?
    requires d < USER && x < ENTRIES && Present(dirs[d]) && !Present(rows[d][x])
    ensures 0 < FrameOf(dirs[d]) < |mem|
    ensures Sound(mem[FrameOf(dirs[d]) := rows[d][x := Entry(f)]], dirs, WithEntry(rows, d, x, Entry(f)), free,
                  owner[f := UserPage(d, x)], dir, first)
  {
    assert Unfold(0);
    StoredEntry(mem, dirs, rows, free, owner, dir, d, x, Entry(f));
    OwnedPage(dirs, rows, free, owner, dir, d, x, f);
  }

  /** A mapped page is unmapped and its frame, overwritten with `p`, goes to the free list. */
  lemma SoundDrop(mem: seq<Page>, dirs: seq<int>, rows: Rows, free: seq<int>, owner: seq<Owner>, dir: int,
                  first: nat, d: nat, x: nat, p: Page)
    requires Sound(mem, dirs, rows, free, owner, dir, first) && d < USER && x < ENTRIES && Present(dirs[d])
    requires Present(rows[d][x])
    ensures var f := FrameOf(rows[d][x]); var t := FrameOf(dirs[d]);
      && 0 < first <= f < |owner| == |mem| && owner[f] == UserPage(d, x) && 0 < t < |mem| && t != f && mem[t] == rows[d]
      && Sound(mem[f := p][t := rows[d][x := 0]], dirs, WithEntry(rows, d, x, 0), free + [f],
               owner[f := Idle(|free|)], dir, first)
  {
    assert Unfold(0);
    var f, t := FrameOf(rows[d][x]), FrameOf(dirs[d]);
    assert owner[f] == UserPage(d, x) && owner[t] == Table(d);
    StoredElsewhere(mem, dirs, rows, free, owner, dir, f, p);
    StoredEntry(mem[f := p], dirs, rows, free, owner, dir, d, x, 0);
    OwnedDropPage(dirs, rows, free, owner, dir, d, x);
    OwnedGive(dirs, WithEntry(rows, d, x, 0), free, owner[f := Loose], dir, f);
    assert owner[f := Loose][f := Idle(|free|)] == owner[f := Idle(|free|)];
  }

  // ---------------------------------------------------------------------------
  // What deallocuvm leaves

  /** Page `u` is jumped over by a sweep from page `s`: the sweep starts inside the reach of an absent
      table, steps over whole tables from there, and `u` lies in the first table it meets, before the
      place where it lands. */
  predicate Missed(dirs: seq<int>, s: nat, u: nat)
    requires |dirs| == ENTRIES && u < PAGES
  {
    && u / ENTRIES > s / ENTRIES && u % ENTRIES < s % ENTRIES
    && forall d :: s / ENTRIES <= d < u / ENTRIES ==> !Present(dirs[d])
  }

  /** The entries after sweeping from `s` up to `v`. */
  ghost predicate Swept(before: Rows, rows: Rows, dirs: seq<int>, s: nat, v: nat)
  {
    && Square(before) && Square(rows) && |dirs| == ENTRIES
    && forall u {:trigger EntryAt(rows, u)} :: 0 <= u < PAGES ==>
         EntryAt(rows, u) == if s <= u < v && Mapped(before, u) && !Missed(dirs, s, u) then 0 else EntryAt(before, u)
  }

  /** Where a sweep from `s` can stand: not on a missed page, and inside an absent table's reach only
      while it has met no table. */
  predicate Standing(dirs: seq<int>, s: nat, v: nat)
    requires |dirs| == ENTRIES && s <= v
  {
    v < PAGES ==>
      && !Missed(dirs, s, v)
      && (v % ENTRIES == 0 || Present(dirs[v / ENTRIES])
          || (v % ENTRIES == s % ENTRIES && forall d :: s / ENTRIES <= d < v / ENTRIES ==> !Present(dirs[d])))
  }

  lemma StandStep(dirs: seq<int>, s: nat, v: nat)
    requires |dirs| == ENTRIES && s <= v < PAGES && Standing(dirs, s, v) && Present(dirs[v / ENTRIES])
    ensures Standing(dirs, s, v + 1)
  {
    if v + 1 < PAGES && (v + 1) % ENTRIES != 0 {
      assert (v + 1) / ENTRIES == v / ENTRIES && (v + 1) % ENTRIES == v % ENTRIES + 1;
    }
  }

  lemma StandSkip(dirs: seq<int>, s: nat, v: nat)
    requires |dirs| == ENTRIES && s <= v < PAGES && Standing(dirs, s, v) && !Present(dirs[v / ENTRIES])
    ensures Standing(dirs, s, v + ENTRIES)
  {
    assert (v + ENTRIES) / ENTRIES == v / ENTRIES + 1 && (v + ENTRIES) % ENTRIES == v % ENTRIES;
  }

  lemma SweepDrop(before: Rows, rows: Rows, dirs: seq<int>, s: nat, v: nat)
    requires Swept(before, rows, dirs, s, v) && s <= v < PAGES && Standing(dirs, s, v)
    ensures Mapped(rows, v) ==> Swept(before, WithEntry(rows, v / ENTRIES, v % ENTRIES, 0), dirs, s, v + 1)
    ensures !Mapped(rows, v) ==> Swept(before, rows, dirs, s, v + 1)
  {
    assert EntryAt(rows, v) == EntryAt(before, v);
    var after := WithEntry(rows, v / ENTRIES, v % ENTRIES, 0);
    if Mapped(rows, v) {
      forall u: nat | u < PAGES
        ensures EntryAt(after, u) ==
          if s <= u < v + 1 && Mapped(before, u) && !Missed(dirs, s, u) then 0 else EntryAt(before, u)
      {
        EntryWritten(rows, v, 0, u);
        assert EntryAt(rows, u) ==
          if s <= u < v && Mapped(before, u) && !Missed(dirs, s, u) then 0 else EntryAt(before, u);
      }
    }
  }

  /** Rows of absent tables are zero. */
  ghost predicate AbsentBlank(dirs: seq<int>, rows: Rows)
  {
    |dirs| == ENTRIES && Square(rows) && forall d :: 0 <= d < ENTRIES && !Present(dirs[d]) ==> rows[d] == ZeroPage()
  }

  lemma SoundBlank(mem: seq<Page>, dirs: seq<int>, rows: Rows, free: seq<int>, owner: seq<Owner>, dir: int, first: nat)
    requires Sound(mem, dirs, rows, free, owner, dir, first)
    ensures AbsentBlank(dirs, rows)
  {
    forall d | 0 <= d < ENTRIES && !Present(dirs[d]) ensures rows[d] == ZeroPage() {
      SoundDir(mem, dirs, rows, free, owner, dir, first, d);
    }
  }

  lemma SweepSkip(before: Rows, rows: Rows, dirs: seq<int>, s: nat, v: nat, m: nat)
    requires Swept(before, rows, dirs, s, v) && s <= v < PAGES && Standing(dirs, s, v) && !Present(dirs[v / ENTRIES])
    requires AbsentBlank(dirs, before) && v <= m <= v + ENTRIES
    ensures Swept(before, rows, dirs, s, m)
  {
    forall u: nat | v <= u < m && u < PAGES ensures !Mapped(before, u) || Missed(dirs, s, u) {
      if u / ENTRIES != v / ENTRIES {
        assert u / ENTRIES == v / ENTRIES + 1 && u % ENTRIES < v % ENTRIES;
      }
    }
    forall u: nat | u < PAGES
      ensures EntryAt(rows, u) ==
        if s <= u < m && Mapped(before, u) && !Missed(dirs, s, u) then 0 else EntryAt(before, u)
    {
      assert EntryAt(rows, u) ==
        if s <= u < v && Mapped(before, u) && !Missed(dirs, s, u) then 0 else EntryAt(before, u);
    }
  }

  /** Only user pages have changed hands, and to the free list. */
  predicate PagesFreed(before: seq<Owner>, owner: seq<Owner>)
  {
    && |owner| == |before|
    && forall f :: 0 <= f < |owner| ==> owner[f] == before[f] || (before[f].UserPage? && owner[f].Idle?)
  }

  // ---------------------------------------------------------------------------
  // One address space over the pool

  /** kfree fills a page with ones, byte by byte. */
  function JunkPage(): (r: Page)
  {
    seq(ENTRIES, i => 0x0101_0101)
  }

  /** The owners in a new address space. */
  function FirstOwner(f: int, first: int, n: int): (o: Owner)
  {
    if f < first then Other else if f == n - 1 then Dir else Idle(f - first)
  }

  datatype Walk = At(t: int) | NoTable

  datatype Mapping = Done | NoMemory | Remap

  class Vm {
    /** The frame of the page directory, and the first frame of the pool. */
    const dir: int
    const first: nat
    /** Memory by frames, and the free list, its head last. */
    var mem: seq<Page>
    var free: seq<int>
    ghost var dirs: seq<int>
    ghost var rows: Rows
    ghost var owner: seq<Owner>

    /** An address space with nothing mapped, over a pool of the frames from `first` up to `n`: freerange puts
        them on the free list one by one, and the last one becomes the page directory. */
    constructor (n: nat, first: nat)
      requires 0 < first < n
      ensures Valid() && this.first == first && |free| == n - first - 1 && |mem| == n
      ensures forall d :: 0 <= d < ENTRIES ==> !Present(dirs[d])
    {
      var list: seq<int> := [];
      for f := first to n
        invariant |list| == f - first && forall k :: 0 <= k < |list| ==> list[k] == first + k
      {
        list := list + [f];
      }
      this.first := first;
      dir, free := n - 1, list[..n - 1 - first];
      mem := seq(n, f => JunkPage())[n - 1 := ZeroPage()];
      dirs, rows := ZeroPage(), seq(ENTRIES, d => ZeroPage());
      owner := seq(n, f requires 0 <= f < n => FirstOwner(f, first, n));
    }

    ghost predicate Valid()
      reads this
    {
      Sound(mem, dirs, rows, free, owner, dir, first)
    }

    /** Take a frame off the free list. */
    method Kalloc() returns (r: Option<int>)
      requires Valid()
      modifies `free, `owner
      ensures Valid() && (r.None? <==> old(free) == [])
      ensures r.None? ==> free == old(free) && owner == old(owner)
      ensures r.Some? ==> r.value == old(free)[|old(free)| - 1] && free == old(free)[..|old(free)| - 1]
      ensures r.Some? ==>
        first <= r.value < |old(owner)| && old(owner)[r.value].Idle? && owner == old(owner)[r.value := Loose]
    {
      if free == [] {
        return None;
      }
      SoundTake(mem, dirs, rows, free, owner, dir, first);
      var n := |free| - 1;
      r := Some(free[n]);
      owner := owner[free[n] := Loose];
      free := free[..n];
    }

    /** The work of kfree: fill the frame with junk and push it on the free list. `false` is the panic on a
        frame outside the pool. */
    method Push(f: int) returns (ok: bool)
      modifies `mem, `free
      ensures ok <==> first <= f < |old(mem)|
      ensures ok ==> mem == old(mem)[f := JunkPage()] && free == old(free) + [f]
      ensures !ok ==> mem == old(mem) && free == old(free)
    {
      if f < first || f >= |mem| {
        return false;
      }
      mem := mem[f := JunkPage()];
      free := free + [f];
      ok := true;
    }

    /** Give a frame back: a loose one becomes idle, every table and every page stays what it was, and the
        next kalloc returns it. Anything outside the pool is refused. */
    method Kfree(f: int) returns (ok: bool)
      requires Valid() && (first <= f < |owner| ==> owner[f].Loose?)
      modifies `mem, `free, `owner
      ensures Valid() && |mem| == |old(mem)| && (ok <==> first <= f < |owner|)
      ensures !ok ==> unchanged(this)
      ensures ok ==> f < |old(owner)| && owner == old(owner)[f := Idle(|old(free)|)] && free == old(free) + [f]
      ensures forall g :: 0 <= g < |mem| && g != f ==> mem[g] == old(mem)[g]
    {
      if first <= f < |mem| {
        SoundGive(mem, dirs, rows, free, owner, dir, first, f, JunkPage());
      }
      ok := Push(f);
      if ok {
        owner := owner[f := Idle(|free| - 1)];
      }
    }

    /** The table that holds the entry for page `v`; with `alloc`, created if there is none. */
    method Walkpgdir(v: nat, alloc: bool) returns (r: Walk)
      requires Valid() && v / ENTRIES < ENTRIES
      modifies `mem, `free, `owner, `dirs
      ensures Valid()
      ensures Present(old(dirs)[v / ENTRIES]) ==>
        r.At? && mem == old(mem) && free == old(free) && owner == old(owner) && dirs == old(dirs)
      ensures r.NoTable? <==> !Present(old(dirs)[v / ENTRIES]) && (!alloc || old(free) == [])
      ensures r.NoTable? ==> mem == old(mem) && free == old(free) && owner == old(owner) && dirs == old(dirs)
      ensures r.At? ==> Present(dirs[v / ENTRIES]) && r.t == FrameOf(dirs[v / ENTRIES]) && 0 < r.t < |mem|
      ensures r.At? ==> mem[r.t] == rows[v / ENTRIES]
      ensures r.At? && !Present(old(dirs)[v / ENTRIES]) ==>
        TableMade(old(dirs), dirs, old(free), free, old(owner), owner, v / ENTRIES)
      ensures PagesKept(old(mem), mem, old(owner), owner, -1) && IdleFrom(old(owner), owner)
    {
      var d := v / ENTRIES;
      SoundDir(mem, dirs, rows, free, owner, dir, first, d);
      if Present(mem[dir][d]) {
        return At(FrameOf(mem[dir][d]));
      }
      if !alloc {
        return NoTable;
      }
      var k := Kalloc();
      if k.None? {
        return NoTable;
      }
      var f := k.value;
      SoundWriteLoose(mem, dirs, rows, free, owner, dir, first, f, ZeroPage());
      mem := mem[f := ZeroPage()];
      SoundTable(mem, dirs, rows, free, owner, dir, first, d, f);
      SoundDir(mem, dirs, rows, free, owner, dir, first, d);
      mem := mem[dir := mem[dir][d := Entry(f)]];
      dirs := dirs[d := Entry(f)];
      owner := owner[f := Table(d)];
      SoundDir(mem, dirs, rows, free, owner, dir, first, d);
      r := At(f);
    }

    /** mappages: map the `n` pages from `v` on to the frames from `f` on. `k` pages have been mapped when it
        ends; it panics at one that is mapped already, and gives up at one whose table finds no frame. */
    method Mappages(v: nat, n: nat, f: int) returns (r: Mapping, k: nat)
      requires Valid() && 0 < n && v + n <= PAGES && first <= f && f + n <= |owner|
      requires forall g :: f <= g < f + n ==> owner[g].Loose?
      modifies `mem, `free, `owner, `dirs, `rows
      ensures Valid() && k <= n && (r.Done? <==> k == n)
      ensures MappedRun(old(rows), rows, v, k, f)
      ensures r.Remap? ==> Mapped(old(rows), v + k)
      ensures r.NoMemory? ==> free == [] && !Present(dirs[(v + k) / ENTRIES])
      ensures PagesKeptBut(old(owner), owner, f, f + k)
    {
      k := 0;
      r := Done;
      while k < n
        invariant 0 <= k <= n && r.Done? && Valid() && |owner| == |old(owner)|
        invariant MappedRun(old(rows), rows, v, k, f) && PagesKeptBut(old(owner), owner, f, f + k)
      {
        ghost var before := rows;
        r := Mappage(v + k, f + k);
        if !r.Done? {
          return;
        }
        RunMore(old(rows), before, rows, v, k, f);
        k := k + 1;
      }
    }

    /** One turn of mappages: map page `v` to frame `f`. */
    method Mappage(v: nat, f: int) returns (r: Mapping)
      requires Valid() && v < PAGES && first <= f < |owner| && owner[f].Loose?
      modifies `mem, `free, `owner, `dirs, `rows
      ensures Valid() && |mem| == |old(mem)|
      ensures r.NoMemory? <==> !Present(old(dirs)[v / ENTRIES]) && old(free) == []
      ensures r.NoMemory? ==> unchanged(this)
      ensures r.Remap? <==> Present(old(rows)[v / ENTRIES][v % ENTRIES]) && !r.NoMemory?
      ensures rows == if r.Done? then WithEntry(old(rows), v / ENTRIES, v % ENTRIES, Entry(f)) else old(rows)
      ensures r.Done? ==>
        Spent(old(dirs), dirs, old(free), free, v / ENTRIES) && owner[f] == UserPage(v / ENTRIES, v % ENTRIES)
      ensures PagesKept(old(mem), mem, old(owner), owner, if r.Done? then f else -1) && IdleFrom(old(owner), owner)
    {
      var d, x := v / ENTRIES, v % ENTRIES;
      SoundDir(mem, dirs, rows, free, owner, dir, first, d);
      var w := Walkpgdir(v, true);
      if w.NoTable? {
        return NoMemory;
      }
      if Present(mem[w.t][x]) {
        return Remap;
      }
      SoundMap(mem, dirs, rows, free, owner, dir, first, d, x, f);
      mem := mem[w.t := mem[w.t][x := Entry(f)]];
      rows := WithEntry(rows, d, x, Entry(f));
      owner := owner[f := UserPage(d, x)];
      r := Done;
    }

    /** Unmap page `v`, whose table is in frame `t`, if it is mapped, and free its frame. */
    method DropPage(v: nat, t: int) returns (ok: bool)
      requires Valid() && v < PAGES && Present(dirs[v / ENTRIES]) && t == FrameOf(dirs[v / ENTRIES])
      modifies `mem, `free, `owner, `rows
      ensures ok && Valid() && PagesFreed(old(owner), owner)
      ensures !Mapped(old(rows), v) ==> unchanged(this)
      ensures Mapped(old(rows), v) ==> rows == WithEntry(old(rows), v / ENTRIES, v % ENTRIES, 0)
      ensures Mapped(old(rows), v) ==> free == old(free) + [FrameOf(EntryAt(old(rows), v))]
    {
      var d, x := v / ENTRIES, v % ENTRIES;
      SoundDir(mem, dirs, rows, free, owner, dir, first, d);
      ok := true;
      if Present(mem[t][x]) {
        var f := FrameOf(mem[t][x]);
        SoundDrop(mem, dirs, rows, free, owner, dir, first, d, x, JunkPage());
        if f == 0 {
          return false;
        }
        owner := owner[f := Idle(|free|)];
        ok := Push(f);
        mem := mem[t := mem[t][x := 0]];
        rows := WithEntry(rows, d, x, 0);
      }
    }

    /** Unmap the pages from `newsz` to `oldsz`. Result: the new size, or -1 for a panic, which never comes. */
    method Deallocuvm(oldsz: int, newsz: int) returns (r: int)
      requires Valid() && 0 <= oldsz <= KERNBASE && 0 <= newsz
      modifies this
      ensures Valid() && dirs == old(dirs) && r == if newsz >= oldsz then oldsz else newsz
      ensures newsz >= oldsz ==> unchanged(this)
      ensures newsz < oldsz ==> Swept(old(rows), rows, dirs, PagesUp(newsz), PagesUp(oldsz))
      ensures PagesFreed(old(owner), owner)
    {
      if newsz >= oldsz {
        return oldsz;
      }
      var ok := Sweep(PagesUp(newsz), PagesUp(oldsz));
      r := if ok then newsz else -1;
    }

    /** The loop of deallocuvm over page numbers. */
    method Sweep(s: nat, e: nat) returns (ok: bool)
      requires Valid() && s <= e <= PAGES
      modifies this
      ensures ok && Valid() && dirs == old(dirs) && Swept(old(rows), rows, dirs, s, e) && PagesFreed(old(owner), owner)
    {
      SoundBlank(mem, dirs, rows, free, owner, dir, first);
      var v := s;
      ok := true;
      while ok && v < e
        invariant ok && s <= v && Valid() && dirs == old(dirs) && PagesFreed(old(owner), owner)
        invariant Swept(old(rows), rows, dirs, s, if v < e then v else e)
        invariant Standing(dirs, s, v)
      {
        ok, v := SweepOne(v, s, e, old(rows));
      }
    }

    /** One turn of the loop of deallocuvm: drop a page, or step over an absent table. */
    method SweepOne(v: nat, ghost s: nat, ghost e: nat, ghost before: Rows) returns (ok: bool, next: nat)
      requires Valid() && s <= v < e <= PAGES && AbsentBlank(dirs, before)
      requires Swept(before, rows, dirs, s, v) && Standing(dirs, s, v)
      modifies this
      ensures ok && Valid() && dirs == old(dirs) && PagesFreed(old(owner), owner) && v < next
      ensures Swept(before, rows, dirs, s, if next < e then next else e) && Standing(dirs, s, next)
    {
      var w := Walkpgdir(v, false);
      if w.NoTable? {
        SweepSkip(before, rows, dirs, s, v, if v + ENTRIES < e then v + ENTRIES else e);
        StandSkip(dirs, s, v);
        ok, next := true, v + (ENTRIES - 1) + 1;
      } else {
        SweepDrop(before, rows, dirs, s, v);
        StandStep(dirs, s, v);
        ok := DropPage(v, w.t);
        next := v + 1;
      }
    }

    /** Free the whole address space: user pages, tables, and the directory. Result `false` would be a panic. */
    method Freevm() returns (ok: bool)
      requires Valid()
      modifies this
      ensures ok && Pool(free, owner) && AllFreed(old(owner), owner)
    {
      var r := Deallocuvm(KERNBASE, 0);
      NoUserPages(old(rows), mem, dirs, rows, free, owner, dir, first);
      ok := FreeTables(old(owner));
      ok := Push(dir);
      owner := owner[dir := Idle(|free| - 1)];
      assert free[..|free| - 1] + [dir] == free;
    }

    /** The loop of freevm over the directory. Only the ghost `dirs` forgets the tables as they go. */
    method FreeTables(ghost before: seq<Owner>) returns (ok: bool)
      requires Valid() && PagesFreed(before, owner) && NoPages(rows)
      modifies this
      ensures ok && Owned(dirs, rows, free, owner, dir) && first <= dir < |mem| == |owner|
      ensures NoPages(rows) && (forall d :: 0 <= d < ENTRIES ==> !Present(dirs[d])) && Handed(before, owner)
    {
      SoundPool(mem, dirs, rows, free, owner, dir, first);
      ghost var all := dirs;
      var i := 0;
      ok := true;
      while ok && i < ENTRIES
        invariant ok && 0 <= i <= ENTRIES && Owned(dirs, rows, free, owner, dir) && |mem| == |owner|
        invariant first <= dir < |mem|
        invariant mem[dir] == all && |all| == ENTRIES && NoPages(rows) && Handed(before, owner) && InPool(first, owner)
        invariant forall d :: 0 <= d < i ==> !Present(dirs[d])
        invariant forall d :: i <= d < ENTRIES ==> dirs[d] == all[d]
      {
        if Present(mem[dir][i]) {
          var f := FrameOf(mem[dir][i]);
          TableToPool(dirs, rows, free, owner, dir, i);
          owner, dirs := owner[f := Idle(|free|)], dirs[i := 0];
          ok := Push(f);
        }
        i := i + 1;
      }
    }

    /** One turn of the loop of allocuvm: a fresh zeroed frame for page `v`. */
    method GrowOne(v: nat) returns (r: Growth)
      requires Valid() && v < PAGES
      modifies this
      ensures Valid() && PagesKept(old(mem), mem, old(owner), owner, -1) && IdleShrinks(old(owner), owner)
      ensures if r.Lost? then OneLoose(old(owner), owner) else r.Clash? || SameLoose(old(owner), owner)
      ensures r.NoFrame? <==> old(free) == []
      ensures r.NoFrame? ==> unchanged(this)
      ensures r.Lost? ==>
        |old(free)| == 1 && free == [] && !Present(old(dirs)[v / ENTRIES]) && rows == old(rows) && dirs == old(dirs)
      ensures r.Clash? ==> Mapped(old(rows), v)
      ensures r.Grew? ==> FreshPage(old(rows), rows, old(owner), mem, v)
      ensures r.Grew? ==> |free| == |old(free)| - Cost(old(dirs), v) && Spread(old(dirs), dirs, v / ENTRIES)
    {
      var k := Kalloc();
      if k.None? {
        return NoFrame;
      }
      var f := k.value;
      SoundWriteLoose(mem, dirs, rows, free, owner, dir, first, f, ZeroPage());
      mem := mem[f := ZeroPage()];
      ghost var mid := owner;
      var w := Mappage(v, f);
      assert mid == old(owner)[f := Loose];
      r := match w case Done => Grew case NoMemory => Lost case Remap => Clash;
    }

    /** Grow the address space from `oldsz` to `newsz` bytes. Result: the new size, or 0; `ok` is false on
        the panic "remap". */
    method Allocuvm(oldsz: int, newsz: int) returns (ok: bool, r: int)
      requires Valid() && 0 <= oldsz && 0 <= newsz
      modifies this
      ensures newsz >= KERNBASE ==> ok && r == 0 && unchanged(this)
      ensures newsz < KERNBASE && newsz < oldsz ==> ok && r == oldsz && unchanged(this)
      ensures ok ==> Valid()
      ensures oldsz <= newsz < KERNBASE ==>
        Outcome(ok, r, newsz, old(rows), rows, old(owner), mem, old(dirs), |old(free)|, PagesUp(oldsz), PagesUp(newsz))
      ensures oldsz <= newsz < KERNBASE && ok ==>
        if Leaks(old(dirs), |old(free)|, PagesUp(oldsz), PagesUp(newsz))
        then OneLoose(old(owner), owner)
        else SameLoose(old(owner), owner)
    {
      if newsz >= KERNBASE {
        return true, 0;
      }
      if newsz < oldsz {
        return true, oldsz;
      }
      var s, e := PagesUp(oldsz), PagesUp(newsz);
      var g := Grow(s, e);
      if g.Clash? {
        return false, 0;
      }
      if g.NoFrame? {
        Shrink(oldsz, newsz, old(rows), old(owner));
        return true, 0;
      }
      r, ok := newsz, true;
    }

    /** The end of a failed growth: unmap what was mapped. */
    method Shrink(oldsz: int, newsz: int, ghost before: Rows, ghost owner0: seq<Owner>)
      requires Valid() && 0 <= oldsz < newsz < KERNBASE && Square(before)
      requires exists m: nat :: m <= PagesUp(newsz) && Grown(before, rows, owner0, mem, PagesUp(oldsz), m)
      modifies this
      ensures Valid() && SameLoose(old(owner), owner)
      ensures PagesUp(newsz) <= PAGES
      ensures Clear(before, PagesUp(oldsz), PagesUp(newsz)) ==> Restored(before, rows, PagesUp(oldsz), PagesUp(newsz))
    {
      ghost var m: nat :| m <= PagesUp(newsz) && Grown(before, rows, owner0, mem, PagesUp(oldsz), m);
      SoundBlank(mem, dirs, rows, free, owner, dir, first);
      var n := Deallocuvm(newsz, oldsz);
      Restore(before, old(rows), rows, owner0, old(mem), dirs, PagesUp(oldsz), m, PagesUp(newsz));
    }

    /** The loop of allocuvm. A page whose frame could not be mapped goes unnoticed: the next turn finds no
        frame, or there is no next turn. */
    method Grow(s: nat, e: nat) returns (r: Growth)
      requires Valid() && s <= e <= PAGES
      modifies this
      ensures Valid() && !r.Lost?
      ensures r.Clash? ==> !Clear(old(rows), s, e)
      ensures !r.Clash? ==>
        if Leaks(old(dirs), |old(free)|, s, e) then OneLoose(old(owner), owner) else SameLoose(old(owner), owner)
      ensures r.Grew? ==> if |old(free)| >= Need(old(dirs), s, e) then Grown(old(rows), rows, old(owner), mem, s, e)
        else s < e && LostAt(old(dirs), |old(free)|, s, e - 1) && Grown(old(rows), rows, old(owner), mem, s, e - 1)
      ensures r.NoFrame? ==> s < e && |old(free)| < Need(old(dirs), s, e) && !LostAt(old(dirs), |old(free)|, s, e - 1)
      ensures r.NoFrame? ==> exists m: nat :: m <= e && Grown(old(rows), rows, old(owner), mem, s, m)
    {
      var v := s;
      ghost var lost := false;
      while v < e
        invariant s <= v <= e && Valid()
        invariant Growing(old(rows), rows, old(owner), owner, mem, old(dirs), dirs, |old(free)|, |free|, s, v, lost)
      {
        ghost var rows1, mem1, owner1, dirs1, n1 := rows, mem, owner, dirs, |free|;
        SoundPages(mem, dirs, rows, free, owner, dir, first);
        var g := GrowOne(v);
        if g.NoFrame? {
          GrowingShort(old(rows), rows, old(owner), owner, mem, old(dirs), dirs, |old(free)|, s, v, e, lost);
          return NoFrame;
        }
        if g.Clash? {
          GrowingClash(old(rows), rows1, old(owner), owner1, mem1, old(dirs), dirs1, |old(free)|, n1, s, v, lost);
          return Clash;
        }
        if g.Lost? {
          GrowingLost(old(rows), rows, old(owner), owner1, owner, mem1, mem, old(dirs), dirs, |old(free)|, s, v, lost);
          lost := true;
        } else {
          GrowingMore(old(rows), rows1, rows, old(owner), owner1, owner, mem1, mem, old(dirs), dirs1, dirs,
                      |old(free)|, n1, |free|, s, v, lost);
        }
        v := v + 1;
      }
      GrowingDone(old(rows), rows, old(owner), owner, mem, old(dirs), dirs, |old(free)|, |free|, s, e, lost);
      r := Grew;
    }
  }

  datatype Growth = Grew | NoFrame | Lost | Clash

  /** Page `v` is now mapped to a frame that was idle and is zero. */
  ghost predicate FreshPage(before: Rows, rows: Rows, owner: seq<Owner>, mem: seq<Page>, v: nat)
  {
    && Square(before) && v < PAGES
    && exists f :: 0 <= f < |owner| == |mem| && owner[f].Idle? && mem[f] == ZeroPage()
                && rows == WithEntry(before, v / ENTRIES, v % ENTRIES, Entry(f))
  }

  /** Frames come off the free list and find an owner: none goes on it, and none becomes loose. */
  predicate IdleFrom(before: seq<Owner>, owner: seq<Owner>)
  {
    && |owner| == |before|
    && (forall f :: 0 <= f < |owner| && owner[f].Idle? ==> before[f].Idle?)
    && (forall f :: 0 <= f < |owner| && owner[f].Loose? ==> before[f].Loose?)
  }

  predicate IdleShrinks(before: seq<Owner>, owner: seq<Owner>)
  {
    |owner| == |before| && forall f :: 0 <= f < |owner| && owner[f].Idle? ==> before[f].Idle?
  }

  /** The loose frames are those that were. */
  predicate SameLoose(before: seq<Owner>, owner: seq<Owner>)
  {
    |owner| == |before| && forall f :: 0 <= f < |owner| ==> (owner[f].Loose? <==> before[f].Loose?)
  }

  /** One frame that was idle is loose now, and it alone. */
  ghost predicate OneLoose(before: seq<Owner>, owner: seq<Owner>)
  {
    && |owner| == |before|
    && exists g :: 0 <= g < |owner| && before[g].Idle? && owner[g].Loose?
                && forall f :: 0 <= f < |owner| && f != g ==> (owner[f].Loose? <==> before[f].Loose?)
  }

  /** Directory entry `d` is present now, the others are as before. */
  predicate Spread(dirs: seq<int>, after: seq<int>, d: nat)
  {
    && |after| == |dirs| && d < |dirs| && Present(after[d])
    && forall e :: 0 <= e < |dirs| && e != d ==> after[e] == dirs[e]
  }

  /** The frames page `v` takes: its own, and one for its table if that is absent. */
  function Cost(dirs: seq<int>, v: nat): (n: nat)
    requires v / ENTRIES < |dirs|
  {
    if Present(dirs[v / ENTRIES]) then 1 else 2
  }

  /** The frames of the pool, which are the only ones that can be owned here. */
  predicate InPool(first: nat, owner: seq<Owner>)
  {
    forall f :: 0 <= f < |owner| && f < first ==> owner[f].Other?
  }

  predicate NoPages(rows: Rows)
  {
    |rows| >= USER && forall d, x :: 0 <= d < USER && 0 <= x < |rows[d]| ==> !Present(rows[d][x])
  }

  /** Frames have changed hands only from tables and pages to the free list. */
  predicate Handed(before: seq<Owner>, owner: seq<Owner>)
  {
    && |owner| == |before|
    && forall f :: 0 <= f < |owner| ==>
         owner[f] == before[f] || ((before[f].UserPage? || before[f].Table?) && owner[f].Idle?)
  }

  /** The free list and the idle frames are the same, each once. */
  ghost predicate Pool(free: seq<int>, owner: seq<Owner>)
  {
    && (forall k :: 0 <= k < |free| ==> In(free[k], owner) && owner[free[k]] == Idle(k))
    && (forall f :: 0 <= f < |owner| && owner[f].Idle? ==> 0 <= owner[f].k < |free| && free[owner[f].k] == f)
  }

  /** Everything the address space owned is idle now; nothing else changed. */
  predicate AllFreed(before: seq<Owner>, owner: seq<Owner>)
  {
    && |owner| == |before|
    && forall f :: 0 <= f < |owner| ==>
         if before[f].Other? || before[f].Loose? then owner[f] == before[f] else owner[f].Idle?
  }

  lemma SoundPool(mem: seq<Page>, dirs: seq<int>, rows: Rows, free: seq<int>, owner: seq<Owner>, dir: int, first: nat)
    requires Sound(mem, dirs, rows, free, owner, dir, first)
    ensures Owned(dirs, rows, free, owner, dir) && InPool(first, owner) && mem[dir] == dirs && first <= dir
  {
    assert Unfold(0);
  }

  /** A sweep of all user pages from 0 misses none. */
  lemma NoUserPages(before: Rows, mem: seq<Page>, dirs: seq<int>, rows: Rows, free: seq<int>, owner: seq<Owner>,
                    dir: int, first: nat)
    requires Sound(mem, dirs, rows, free, owner, dir, first) && Swept(before, rows, dirs, 0, PAGES)
    ensures NoPages(rows)
  {
    forall d, x | 0 <= d < USER && 0 <= x < |rows[d]| ensures !Present(rows[d][x]) {
      var u := d * ENTRIES + x;
      assert u / ENTRIES == d && u % ENTRIES == x;
      assert EntryAt(rows, u) == rows[d][x];
      assert !Missed(dirs, 0, u);
    }
  }

  // ---------------------------------------------------------------------------
  // When deallocuvm does what it is for

  /** The range is unmapped exactly when no mapped page of it is missed. */
  lemma SweepExact(before: Rows, rows: Rows, dirs: seq<int>, s: nat, e: nat)
    requires Swept(before, rows, dirs, s, e) && e <= PAGES
    ensures (forall u :: s <= u < e ==> !Mapped(rows, u)) <==>
      (forall u :: s <= u < e && Mapped(before, u) ==> !Missed(dirs, s, u))
  {
    forall u | s <= u < e ensures Mapped(rows, u) <==> Mapped(before, u) && Missed(dirs, s, u) {
      assert EntryAt(rows, u) ==
        if s <= u < e && Mapped(before, u) && !Missed(dirs, s, u) then 0 else EntryAt(before, u);
    }
  }

  /** Nothing is missed from a page whose table is there, or that starts a table. */
  lemma NoneMissed(dirs: seq<int>, s: nat, u: nat)
    requires |dirs| == ENTRIES && s / ENTRIES < ENTRIES && u < PAGES && (s % ENTRIES == 0 || Present(dirs[s / ENTRIES]))
    ensures !Missed(dirs, s, u)
  {
  }

  /** The frame of a page that was mapped is idle exactly when the page has been unmapped. */
  lemma FreedExactly(mem: seq<Page>, dirs: seq<int>, rows: Rows, free: seq<int>, owner: seq<Owner>, dir: int,
                     first: nat, mem0: seq<Page>, rows0: Rows, free0: seq<int>, owner0: seq<Owner>, u: nat)
    requires Sound(mem0, dirs, rows0, free0, owner0, dir, first) && Sound(mem, dirs, rows, free, owner, dir, first)
    requires PagesFreed(owner0, owner) && u < PAGES && Mapped(rows0, u)
    requires EntryAt(rows, u) == 0 || EntryAt(rows, u) == EntryAt(rows0, u)
    ensures 0 < FrameOf(EntryAt(rows0, u)) < |owner|
    ensures owner[FrameOf(EntryAt(rows0, u))].Idle? <==> !Mapped(rows, u)
  {
    assert Unfold(0);
    var f := FrameOf(EntryAt(rows0, u));
    assert owner0[f] == UserPage(u / ENTRIES, u % ENTRIES);
    assert OwnerOk(f, owner[f], dirs, rows, free, dir);
  }

  /** A table was made for directory entry `d` from the last free frame. */
  ghost predicate TableMade(dirs: seq<int>, after: seq<int>, free: seq<int>, left: seq<int>, owner: seq<Owner>,
                            now: seq<Owner>, d: nat)
  {
    && d < |dirs| && free != [] && left == free[..|free| - 1]
    && var f := free[|free| - 1]; 0 <= f < |owner| && now == owner[f := Table(d)] && after == dirs[d := Entry(f)]
  }

  /** The free frames that mapping a page used up: one for its table if that was absent. */
  ghost predicate Spent(dirs: seq<int>, after: seq<int>, free: seq<int>, left: seq<int>, d: nat)
  {
    && d < |dirs| && |after| == |dirs|
    && (forall e :: 0 <= e < |dirs| && e != d ==> after[e] == dirs[e])
    && Present(after[d])
    && if Present(dirs[d]) then after == dirs && left == free else |left| == |free| - 1
  }

  /** Pages `v` up to `v + k` are mapped to the frames from `f` on; all others are as before. */
  ghost predicate MappedRun(before: Rows, rows: Rows, v: nat, k: nat, f: int)
  {
    && Square(before) && Square(rows)
    && forall u: nat :: u < PAGES ==>
         EntryAt(rows, u) == if v <= u < v + k then Entry(f + u - v) else EntryAt(before, u)
  }

  lemma RunMore(before: Rows, rows: Rows, more: Rows, v: nat, k: nat, f: int)
    requires MappedRun(before, rows, v, k, f) && v + k < PAGES
    requires more == WithEntry(rows, (v + k) / ENTRIES, (v + k) % ENTRIES, Entry(f + k))
    ensures MappedRun(before, more, v, k + 1, f)
  {
    forall u: nat | u < PAGES
      ensures EntryAt(more, u) == if v <= u < v + k + 1 then Entry(f + u - v) else EntryAt(before, u)
    {
      EntryWritten(rows, v + k, Entry(f + k), u);
    }
  }

  /** User pages and loose frames do not change hands, but for the frames `f` up to `g`. */
  ghost predicate PagesKeptBut(owner: seq<Owner>, now: seq<Owner>, f: int, g: int)
  {
    && |now| == |owner|
    && forall h :: 0 <= h < |owner| && !(f <= h < g) && (owner[h].UserPage? || owner[h].Loose?) ==> now[h] == owner[h]
  }

  /** User pages are not written and do not change hands; nor do loose frames, but for `g`. */
  ghost predicate PagesKept(mem: seq<Page>, after: seq<Page>, owner: seq<Owner>, now: seq<Owner>, g: int)
  {
    && |after| == |mem| && |now| == |owner| == |mem|
    && (forall f :: 0 <= f < |mem| && (owner[f].UserPage? || owner[f].Loose?) ==> after[f] == mem[f])
    && (forall f :: 0 <= f < |mem| && f != g && (owner[f].UserPage? || owner[f].Loose?) ==> now[f] == owner[f])
  }

  // ---------------------------------------------------------------------------
  // What allocuvm leaves

  /** Page `u` needs a table made for it when pages are mapped from `s` on: its table is absent, and no
      earlier page of the range shares it. */
  predicate TableNeeded(dirs: seq<int>, s: nat, u: nat)
    requires |dirs| == ENTRIES && u < PAGES
  {
    !Present(dirs[u / ENTRIES]) && (u == s || u % ENTRIES == 0)
  }

  /** The frames the pages from `s` to `e` take, tables included. */
  function Need(dirs: seq<int>, s: nat, e: nat): (n: nat)
    requires |dirs| == ENTRIES && e <= PAGES
  {
    if e <= s then 0 else Need(dirs, s, e - 1) + if TableNeeded(dirs, s, e - 1) then 2 else 1
  }

  lemma {:induction false} NeedGrows(dirs: seq<int>, s: nat, u: nat, v: nat)
    requires |dirs| == ENTRIES && s <= u < v <= PAGES
    ensures Need(dirs, s, v) >= Need(dirs, s, u) + if TableNeeded(dirs, s, u) then 2 else 1
  {
    if u < v - 1 {
      NeedGrows(dirs, s, u, v - 1);
    }
  }

  /** The frames run out at the table for page `u`: the page's own frame is the last one. */
  predicate LostAt(dirs: seq<int>, nfree: nat, s: nat, u: nat)
    requires |dirs| == ENTRIES && u < PAGES
  {
    s <= u && nfree == Need(dirs, s, u) + 1 && TableNeeded(dirs, s, u)
  }

  /** They do so at some page of the range: its frame is then neither mapped nor given back. */
  predicate Leaks(dirs: seq<int>, nfree: nat, s: nat, e: nat)
    requires |dirs| == ENTRIES && e <= PAGES
  {
    exists u :: s <= u < e && LostAt(dirs, nfree, s, u)
  }

  /** The tables there are once pages `s` to `v` are mapped. */
  predicate TablesFor(before: seq<int>, dirs: seq<int>, s: nat, v: nat)
  {
    && |dirs| == |before| == ENTRIES
    && forall d :: 0 <= d < ENTRIES ==>
         (Present(dirs[d]) <==> Present(before[d]) || (s < v && s / ENTRIES <= d <= (v - 1) / ENTRIES))
  }

  lemma TablesMore(before: seq<int>, dirs: seq<int>, after: seq<int>, s: nat, v: nat)
    requires TablesFor(before, dirs, s, v) && s <= v < PAGES && Spread(dirs, after, v / ENTRIES)
    ensures TablesFor(before, after, s, v + 1)
  {
  }

  lemma CostNow(before: seq<int>, dirs: seq<int>, s: nat, v: nat)
    requires TablesFor(before, dirs, s, v) && s <= v < PAGES
    ensures !Present(dirs[v / ENTRIES]) <==> TableNeeded(before, s, v)
  {
    if s < v && v % ENTRIES != 0 {
      assert (v - 1) / ENTRIES == v / ENTRIES;
    }
  }

  /** No frame is left for page `v`. */
  lemma FoundShort(dirs: seq<int>, n: nat, s: nat, v: nat, e: nat, lost: bool)
    requires |dirs| == ENTRIES && s <= v < e <= PAGES
    requires if lost then s < v && LostAt(dirs, n, s, v - 1) else n == Need(dirs, s, v)
    ensures n < Need(dirs, s, e) && !LostAt(dirs, n, s, e - 1)
    ensures Leaks(dirs, n, s, e) <==> lost
  {
    var w := if lost then v - 1 else v;
    forall u | s <= u < e ensures LostAt(dirs, n, s, u) <==> lost && u == w {
      if u < w {
        NeedGrows(dirs, s, u, w);
      } else if w < u {
        NeedGrows(dirs, s, w, u);
      }
    }
    NeedGrows(dirs, s, w, e);
  }

  /** The range is done. */
  lemma FoundEnough(dirs: seq<int>, n: nat, s: nat, e: nat, lost: bool)
    requires |dirs| == ENTRIES && s <= e <= PAGES
    requires if lost then s < e && LostAt(dirs, n, s, e - 1) else n >= Need(dirs, s, e)
    ensures n >= Need(dirs, s, e) <==> !lost
    ensures Leaks(dirs, n, s, e) <==> lost
  {
    forall u | s <= u < e ensures LostAt(dirs, n, s, u) ==> lost {
      NeedGrows(dirs, s, u, e);
    }
  }

  lemma LooseOnce(before: seq<Owner>, mid: seq<Owner>, owner: seq<Owner>)
    requires SameLoose(before, mid) && IdleShrinks(before, mid) && OneLoose(mid, owner)
    ensures OneLoose(before, owner)
  {
    var g :| 0 <= g < |owner| && mid[g].Idle? && owner[g].Loose?
          && forall f :: 0 <= f < |owner| && f != g ==> (owner[f].Loose? <==> mid[f].Loose?);
    assert before[g].Idle?;
  }

  /** Page `u` is mapped to a zero frame that was idle before. */
  ghost predicate FreshAt(rows: Rows, owner: seq<Owner>, mem: seq<Page>, u: nat)
    requires Square(rows) && u < PAGES
  {
    && Mapped(rows, u)
    && var f := FrameOf(EntryAt(rows, u)); 0 <= f < |mem| == |owner| && owner[f].Idle? && mem[f] == ZeroPage()
  }

  /** Pages `s` to `v` are fresh, and every other entry is as before. */
  ghost predicate Grown(before: Rows, rows: Rows, owner: seq<Owner>, mem: seq<Page>, s: nat, v: nat)
  {
    && Square(before) && Square(rows)
    && forall u {:trigger EntryAt(rows, u)} :: 0 <= u < PAGES ==>
         if s <= u < v then FreshAt(rows, owner, mem, u) else EntryAt(rows, u) == EntryAt(before, u)
  }

  predicate Clear(rows: Rows, s: nat, e: nat)
    requires Square(rows) && e <= PAGES
  {
    forall u :: s <= u < e ==> !Mapped(rows, u)
  }

  /** The range is unmapped and every other entry is as before. */
  ghost predicate Restored(before: Rows, rows: Rows, s: nat, e: nat)
  {
    && Square(before) && Square(rows) && e <= PAGES && Clear(rows, s, e)
    && forall u {:trigger EntryAt(rows, u)} :: 0 <= u < PAGES && !(s <= u < e) ==>
         EntryAt(rows, u) == EntryAt(before, u)
  }

  /** The outcomes of growing pages `s` to `e` that were not mapped: with enough frames the whole range is
      mapped afresh; without, 0 is returned and the range is unmapped again, except that when the frames
      run out at the last page's table the new size is returned although that page is not mapped. */
  ghost predicate Outcome(ok: bool, r: int, newsz: int, before: Rows, rows: Rows, owner: seq<Owner>, mem: seq<Page>,
                          dirs: seq<int>, nfree: nat, s: int, e: int)
  {
    && Square(before) && |dirs| == ENTRIES && 0 <= s <= e <= PAGES
    && (!ok ==> !Clear(before, s, e))
    && (ok && nfree >= Need(dirs, s, e) ==> r == newsz && Grown(before, rows, owner, mem, s, e))
    && (ok && nfree < Need(dirs, s, e) ==>
          && s < e
          && if LostAt(dirs, nfree, s, e - 1) then r == newsz && Grown(before, rows, owner, mem, s, e - 1)
             else r == 0 && (Clear(before, s, e) ==> Restored(before, rows, s, e)))
  }

  /** So the new size is returned with every page mapped exactly when there were frames enough. */
  lemma GrowsExactly(r: int, newsz: int, before: Rows, rows: Rows, owner: seq<Owner>, mem: seq<Page>,
                     dirs: seq<int>, nfree: nat, s: int, e: int)
    requires Outcome(true, r, newsz, before, rows, owner, mem, dirs, nfree, s, e) && Clear(before, s, e) && Square(rows)
    ensures (forall u: nat :: s <= u < e ==> Mapped(rows, u)) <==> nfree >= Need(dirs, s, e)
  {
    if nfree >= Need(dirs, s, e) {
      forall u: nat | s <= u < e ensures Mapped(rows, u) {
        assert FreshAt(rows, owner, mem, u) by {
          var w := EntryAt(rows, u);
        }
      }
    } else {
      var last: nat := e - 1;
      var w := EntryAt(rows, last);
      assert !Mapped(before, last);
      assert !Mapped(rows, last);
    }
  }

  /** Every mapped page has a frame of its own. */
  predicate PagesOwned(rows: Rows, owner: seq<Owner>)
    requires Square(rows)
  {
    forall u :: 0 <= u < PAGES && Mapped(rows, u) ==> FrameHeld(EntryAt(rows, u), owner)
  }

  predicate FrameHeld(w: int, owner: seq<Owner>)
  {
    0 < FrameOf(w) < |owner| && owner[FrameOf(w)].UserPage?
  }

  lemma SoundPages(mem: seq<Page>, dirs: seq<int>, rows: Rows, free: seq<int>, owner: seq<Owner>, dir: int, first: nat)
    requires Sound(mem, dirs, rows, free, owner, dir, first)
    ensures Square(rows) && PagesOwned(rows, owner)
  {
    assert Unfold(0);
  }

  lemma GrownKept(before: Rows, rows: Rows, owner0: seq<Owner>, mem: seq<Page>, after: seq<Page>,
                  owner: seq<Owner>, now: seq<Owner>, s: nat, v: nat)
    requires Grown(before, rows, owner0, mem, s, v) && PagesOwned(rows, owner) && PagesKept(mem, after, owner, now, -1)
    ensures Grown(before, rows, owner0, after, s, v)
  {
    forall u: nat | u < PAGES && s <= u < v ensures FreshAt(rows, owner0, after, u) {
      assert FreshAt(rows, owner0, mem, u) by {
        var w := EntryAt(rows, u);
      }
      assert FrameHeld(EntryAt(rows, u), owner);
    }
  }

  lemma GrownMore(before: Rows, rows: Rows, more: Rows, owner0: seq<Owner>, mem: seq<Page>, after: seq<Page>,
                  owner: seq<Owner>, now: seq<Owner>, s: nat, v: nat)
    requires Grown(before, rows, owner0, mem, s, v) && PagesOwned(rows, owner) && PagesKept(mem, after, owner, now, -1)
    requires FreshPage(rows, more, owner, after, v) && IdleShrinks(owner0, owner) && s <= v
    ensures Grown(before, more, owner0, after, s, v + 1)
  {
    GrownKept(before, rows, owner0, mem, after, owner, now, s, v);
    var f :| 0 <= f < |owner| == |after| && owner[f].Idle? && after[f] == ZeroPage()
          && more == WithEntry(rows, v / ENTRIES, v % ENTRIES, Entry(f));
    forall u: nat | u < PAGES
      ensures if s <= u < v + 1 then FreshAt(more, owner0, after, u) else EntryAt(more, u) == EntryAt(before, u)
    {
      EntryWritten(rows, v, Entry(f), u);
      assert if s <= u < v then FreshAt(rows, owner0, after, u) else EntryAt(rows, u) == EntryAt(before, u) by {
        var w := EntryAt(rows, u);
      }
    }
  }

  /** After a failed growth, sweeping the range unmaps it again: if anything was mapped in it, then its first
      page was, so that nothing is missed. */
  lemma Restore(before: Rows, mid: Rows, rows: Rows, owner: seq<Owner>, mem: seq<Page>, dirs: seq<int>, s: nat,
                m: nat, e: nat)
    requires Grown(before, mid, owner, mem, s, m) && Swept(mid, rows, dirs, s, e) && AbsentBlank(dirs, mid)
    requires m <= e <= PAGES
    ensures Clear(before, s, e) ==> Restored(before, rows, s, e)
  {
    if s < m {
      assert FreshAt(mid, owner, mem, s) by {
        var w := EntryAt(mid, s);
      }
    }
    forall u: nat | u < PAGES ensures Clear(before, s, e) && s <= u < e ==> !Mapped(rows, u)
                              ensures !(s <= u < e) ==> EntryAt(rows, u) == EntryAt(before, u)
    {
      var w, x := EntryAt(rows, u), EntryAt(mid, u);
      if s < m {
        NoneMissed(dirs, s, u);
      }
      assert Clear(before, s, e) && s <= u < e ==> !Mapped(before, u);
    }
  }

  // ---------------------------------------------------------------------------
  // The loop of allocuvm

  /** The pages from `s` to `v` are mapped, all of them but perhaps the last: its frame was the last one, and
      it is loose. */
  ghost predicate Growing(before: Rows, rows: Rows, owner0: seq<Owner>, owner: seq<Owner>, mem: seq<Page>,
                          dirs0: seq<int>, dirs: seq<int>, n0: nat, n: nat, s: nat, v: nat, lost: bool)
  {
    forall u: int {:trigger Unfold(u)} :: Unfold(u) && u == 3 ==>
      && |dirs0| == |dirs| == ENTRIES && s <= v <= PAGES && IdleShrinks(owner0, owner)
      && (if lost
          then s < v && Grown(before, rows, owner0, mem, s, v - 1) && OneLoose(owner0, owner)
               && n == 0 && LostAt(dirs0, n0, s, v - 1)
          else Grown(before, rows, owner0, mem, s, v) && SameLoose(owner0, owner)
               && n == n0 - Need(dirs0, s, v) && TablesFor(dirs0, dirs, s, v))
  }

  lemma GrowingShort(before: Rows, rows: Rows, owner0: seq<Owner>, owner: seq<Owner>, mem: seq<Page>,
                     dirs0: seq<int>, dirs: seq<int>, n0: nat, s: nat, v: nat, e: nat, lost: bool)
    requires Growing(before, rows, owner0, owner, mem, dirs0, dirs, n0, 0, s, v, lost) && v < e <= PAGES
    ensures |dirs0| == ENTRIES && s < e && n0 < Need(dirs0, s, e) && !LostAt(dirs0, n0, s, e - 1)
    ensures if Leaks(dirs0, n0, s, e) then OneLoose(owner0, owner) else SameLoose(owner0, owner)
    ensures exists m: nat :: m <= e && Grown(before, rows, owner0, mem, s, m)
  {
    assert Unfold(3);
    FoundShort(dirs0, n0, s, v, e, lost);
  }

  lemma GrowingDone(before: Rows, rows: Rows, owner0: seq<Owner>, owner: seq<Owner>, mem: seq<Page>,
                    dirs0: seq<int>, dirs: seq<int>, n0: nat, n: nat, s: nat, e: nat, lost: bool)
    requires Growing(before, rows, owner0, owner, mem, dirs0, dirs, n0, n, s, e, lost) && e <= PAGES
    ensures |dirs0| == ENTRIES
    ensures if Leaks(dirs0, n0, s, e) then OneLoose(owner0, owner) else SameLoose(owner0, owner)
    ensures if n0 >= Need(dirs0, s, e) then Grown(before, rows, owner0, mem, s, e)
      else s < e && LostAt(dirs0, n0, s, e - 1) && Grown(before, rows, owner0, mem, s, e - 1)
  {
    assert Unfold(3);
    FoundEnough(dirs0, n0, s, e, lost);
  }

  lemma GrowingClash(before: Rows, rows: Rows, owner0: seq<Owner>, owner: seq<Owner>, mem: seq<Page>,
                     dirs0: seq<int>, dirs: seq<int>, n0: nat, n: nat, s: nat, v: nat, lost: bool)
    requires Growing(before, rows, owner0, owner, mem, dirs0, dirs, n0, n, s, v, lost) && v < PAGES
    requires Square(before) && Square(rows) && Mapped(rows, v)
    ensures Mapped(before, v)
  {
    assert Unfold(3);
    assert EntryAt(rows, v) == EntryAt(before, v);
  }

  lemma GrowingLost(before: Rows, rows: Rows, owner0: seq<Owner>, owner: seq<Owner>, now: seq<Owner>, mem: seq<Page>,
                    after: seq<Page>, dirs0: seq<int>, dirs: seq<int>, n0: nat, s: nat, v: nat, lost: bool)
    requires Growing(before, rows, owner0, owner, mem, dirs0, dirs, n0, 1, s, v, lost) && v < PAGES
    requires |dirs| == ENTRIES && !Present(dirs[v / ENTRIES])
    requires Square(rows) && PagesOwned(rows, owner) && PagesKept(mem, after, owner, now, -1)
    requires OneLoose(owner, now) && IdleShrinks(owner, now)
    ensures Growing(before, rows, owner0, now, after, dirs0, dirs, n0, 0, s, v + 1, true)
  {
    assert Unfold(3);
    CostNow(dirs0, dirs, s, v);
    GrownKept(before, rows, owner0, mem, after, owner, now, s, v);
    LooseOnce(owner0, owner, now);
  }

  lemma GrowingMore(before: Rows, rows: Rows, more: Rows, owner0: seq<Owner>, owner: seq<Owner>, now: seq<Owner>,
                    mem: seq<Page>, after: seq<Page>, dirs0: seq<int>, dirs: seq<int>, made: seq<int>,
                    n0: nat, n: nat, left: nat, s: nat, v: nat, lost: bool)
    requires Growing(before, rows, owner0, owner, mem, dirs0, dirs, n0, n, s, v, lost) && v < PAGES && 0 < n
    requires Square(rows) && PagesOwned(rows, owner) && PagesKept(mem, after, owner, now, -1)
    requires SameLoose(owner, now) && IdleShrinks(owner, now)
    requires FreshPage(rows, more, owner, after, v)
    requires |dirs| == ENTRIES && left == n - Cost(dirs, v) && Spread(dirs, made, v / ENTRIES)
    ensures Growing(before, more, owner0, now, after, dirs0, made, n0, left, s, v + 1, lost)
  {
    assert Unfold(3);
    CostNow(dirs0, dirs, s, v);
    GrownMore(before, rows, more, owner0, mem, after, owner, now, s, v);
    TablesMore(dirs0, dirs, made, s, v);
  }

  // ---------------------------------------------------------------------------
  // Inputs on which deallocuvm and allocuvm fall short

  /** An address space in which only page 1024 is mapped: shrinking it to one page leaves that page mapped. */
  method SkipsMappedPage() returns (vm: Vm, r: int)
    ensures vm.Valid() && r == PGSIZE && Mapped(vm.rows, 1024)
  {
    vm := new Vm(100, 10);
    var k := vm.Kalloc();
    SoundBlank(vm.mem, vm.dirs, vm.rows, vm.free, vm.owner, vm.dir, vm.first);
    ghost var before := vm.rows;
    var w := vm.Mappage(1024, k.value);
    EntryWritten(before, 1024, Entry(k.value), 1024);
    ghost var rows, dirs := vm.rows, vm.dirs;
    assert Mapped(rows, 1024) && !Present(dirs[0]);
    r := vm.Deallocuvm(1025 * PGSIZE, PGSIZE);
    assert Missed(dirs, 1, 1024);
    assert EntryAt(vm.rows, 1024) == EntryAt(rows, 1024);
  }

  /** With a single free frame, growing to one page returns the new size, maps nothing and loses the frame. */
  method ReportsUnmappedPage() returns (vm: Vm, r: int)
    ensures vm.Valid() && r == PGSIZE && !Mapped(vm.rows, 0)
    ensures exists f :: 0 <= f < |vm.owner| && vm.owner[f].Loose?
  {
    vm := new Vm(12, 10);
    SoundBlank(vm.mem, vm.dirs, vm.rows, vm.free, vm.owner, vm.dir, vm.first);
    ghost var rows, dirs := vm.rows, vm.dirs;
    assert Clear(rows, 0, 1);
    assert LostAt(dirs, 1, 0, 0);
    var ok;
    ok, r := vm.Allocuvm(0, PGSIZE);
    assert EntryAt(vm.rows, 0) == EntryAt(rows, 0);
  }
}
