/** The K&R allocator of umalloc.c: free, morecore and malloc over headers addressed in 8-byte units, which
    takes sbrk to answer with multiples of 8 bytes. */
module Umalloc {
  import opened Bytes
  import opened Common
  import opened FreeList

  const NULL := 0

  /** Blocks partition the units got from sbrk; the free ones form a ring through `ptr`, in address order,
      apart from each other except where `touching` allows. */
  ghost predicate Sane(base: int, ring: Ring, ptr: map<int, int>, size: map<int, int>, live: map<int, int>,
                       granted: set<int>, touching: set<int>)
  {
    && |ring| > 0
    && forall u: int {:trigger Unfold(u)} :: Unfold(u) && u == 0 ==>
         HeapOk(base, ring, size, live, granted, touching) && Linked(ring, ptr)
  }

  lemma SaneAt(base: int, ring: Ring, ptr: map<int, int>, size: map<int, int>, live: map<int, int>,
               granted: set<int>, touching: set<int>, k: nat)
    requires Sane(base, ring, ptr, size, live, granted, touching) && k < |ring|
    ensures ring[k] in ptr && ring[k] in size && ptr[ring[k]] == ring[Succ(k, |ring|)] && ring[k] > 0
    ensures if k == 0 then ring[k] == base && size[ring[k]] == 0 else size[ring[k]] > 0
  {
    assert Unfold(0);
    assert LinkAt(ring, ptr, k);
    if k > 0 {
      assert Before(ring, size, touching, 0, k);
    }
  }

  lemma SaneLive(base: int, ring: Ring, ptr: map<int, int>, size: map<int, int>, live: map<int, int>,
                 granted: set<int>, b: int)
    requires Sane(base, ring, ptr, size, live, granted, {}) && b in live
    ensures b in size && size[b] == live[b] > 0 && b > base && b !in ring
  {
    assert Unfold(0);
    forall k | 0 <= k < |ring| ensures ring[k] != b {
      if k > 0 {
        assert b + live[b] <= ring[k] || ring[k] + size[ring[k]] <= b;
      }
    }
  }

  /** Ring order is address order. */
  lemma SaneOrder(base: int, ring: Ring, ptr: map<int, int>, size: map<int, int>, live: map<int, int>,
                  granted: set<int>, j: nat, k: nat)
    requires Sane(base, ring, ptr, size, live, granted, {}) && j < k < |ring|
    ensures ring[j] < ring[k]
  {
    assert Unfold(0);
    assert Before(ring, size, {}, j, k);
  }

  // ---------------------------------------------------------------------------
  // The steps of free

  lemma SaneInsert(base: int, ring: Ring, ptr: map<int, int>, size: map<int, int>, live: map<int, int>,
                   granted: set<int>, b: int, i: nat)
    requires Sane(base, ring, ptr, size, live, granted, {}) && b in live && Between(ring, b, i)
    ensures ring[i] in ptr
    ensures Sane(base, Inserted(ring, b, i), ptr[b := ptr[ring[i]]][ring[i] := b], size, live - {b}, granted,
                 {i, i + 1})
  {
    SaneLive(base, ring, ptr, size, live, granted, b);
    assert Unfold(0);
    ApartNoRepeats(base, ring, size, {});
    LinkInsert(ring, ptr, b, i);
    InsertFree(base, ring, size, live, granted, b, i);
  }

  lemma SaneMerge(base: int, ring: Ring, ptr: map<int, int>, size: map<int, int>, live: map<int, int>,
                  granted: set<int>, touching: set<int>, t: nat)
    requires Sane(base, ring, ptr, size, live, granted, touching) && 0 < t && t + 1 < |ring|
    requires ring[t] in size && ring[t + 1] in size && ring[t] + size[ring[t]] == ring[t + 1]
    requires forall x :: x in touching ==> x <= t
    ensures ring[t + 1] in ptr
    ensures Sane(base, Merged(ring, t), ptr[ring[t] := ptr[ring[t + 1]]], Grown(ring, size, t), live, granted,
                 touching - {t})
  {
    assert Unfold(0);
    ApartNoRepeats(base, ring, size, touching);
    LinkMerge(ring, ptr, t);
    MergeFree(base, ring, size, live, granted, touching, t);
  }

  lemma SaneApart(base: int, ring: Ring, ptr: map<int, int>, size: map<int, int>, live: map<int, int>,
                  granted: set<int>, touching: set<int>, t: nat)
    requires Sane(base, ring, ptr, size, live, granted, touching)
    requires t + 1 < |ring| ==> ring[t] in size && ring[t] + size[ring[t]] != ring[t + 1]
    ensures Sane(base, ring, ptr, size, live, granted, touching - {t})
  {
    assert Unfold(0);
    NotTouching(base, ring, size, live, granted, touching, t);
  }

  /** The blocks around a live block `b`. */
  lemma Neighbours(base: int, ring: Ring, ptr: map<int, int>, size: map<int, int>, live: map<int, int>,
                   granted: set<int>, b: int, i: nat)
    requires Sane(base, ring, ptr, size, live, granted, {}) && b in live && Between(ring, b, i)
    ensures var nx := ring[Succ(i, |ring|)];
      && ring[i] in ptr && b in size && nx in size && nx in ptr && ptr[ring[i]] == nx && b != ring[i] && b != nx
      && ring[i] in size && size[b] == live[b] > 0 && (b + size[b] == nx ==> i + 1 < |ring| && nx != ring[i])
  {
    SaneAt(base, ring, ptr, size, live, granted, {}, i);
    SaneAt(base, ring, ptr, size, live, granted, {}, Succ(i, |ring|));
    SaneAt(base, ring, ptr, size, live, granted, {}, 0);
    SaneLive(base, ring, ptr, size, live, granted, b);
  }

  /** `b` enters after block `i` and takes in the next block, which it touches. */
  lemma EnterMerging(base: int, ring: Ring, ptr: map<int, int>, size: map<int, int>, live: map<int, int>,
                     granted: set<int>, b: int, i: nat, nx: int) returns (r: Ring)
    requires Sane(base, ring, ptr, size, live, granted, {}) && b in live && Between(ring, b, i)
    requires nx == ring[Succ(i, |ring|)] && b in size && nx in size && nx in ptr && b + size[b] == nx
    ensures Sane(base, r, ptr[b := ptr[nx]][ring[i] := b], size[b := size[b] + size[nx]], live - {b}, granted, {i})
    ensures i + 1 < |r| && r[i] == ring[i] && r[i + 1] == b
  {
    Neighbours(base, ring, ptr, size, live, granted, b, i);
    SaneInsert(base, ring, ptr, size, live, granted, b, i);
    var m := Inserted(ring, b, i);
    var q := ptr[b := nx][ring[i] := b];
    assert m[i + 1] == b && m[i + 2] == nx;
    SaneMerge(base, m, q, size, live - {b}, granted, {i, i + 1}, i + 1);
    r := Merged(m, i + 1);
    assert {i, i + 1} - {i + 1} == {i};
    assert q[b := q[nx]] == ptr[b := ptr[nx]][ring[i] := b];
  }

  /** `b` enters after block `i`, apart from the next block. */
  lemma EnterApart(base: int, ring: Ring, ptr: map<int, int>, size: map<int, int>, live: map<int, int>,
                   granted: set<int>, b: int, i: nat, nx: int) returns (r: Ring)
    requires Sane(base, ring, ptr, size, live, granted, {}) && b in live && Between(ring, b, i)
    requires nx == ring[Succ(i, |ring|)] && b in size && b + size[b] != nx
    ensures Sane(base, r, ptr[b := nx][ring[i] := b], size, live - {b}, granted, {i})
    ensures i + 1 < |r| && r[i] == ring[i] && r[i + 1] == b
  {
    Neighbours(base, ring, ptr, size, live, granted, b, i);
    SaneInsert(base, ring, ptr, size, live, granted, b, i);
    r := Inserted(ring, b, i);
    SaneApart(base, r, ptr[b := nx][ring[i] := b], size, live - {b}, granted, {i, i + 1}, i + 1);
    assert {i, i + 1} - {i + 1} == {i};
  }

  /** Some free block holds the `n` units from `b`. */
  ghost predicate Contains(ring: Ring, size: map<int, int>, b: int, n: int)
  {
    exists k :: 0 < k < |ring| && ring[k] in size && ring[k] <= b && b + n <= ring[k] + size[ring[k]]
  }

  /** Then it merges with block `i` before it if they touch. */
  lemma FreeLeft(base: int, ring: Ring, ptr: map<int, int>, size: map<int, int>, live: map<int, int>,
                 granted: set<int>, i: nat, n: int) returns (r: Ring)
    requires Sane(base, ring, ptr, size, live, granted, {i}) && i + 1 < |ring|
    requires ring[i + 1] in size && n <= size[ring[i + 1]]
    ensures var p := ring[i]; var b := ring[i + 1];
      && p in size && b in ptr
      && var left := p + size[p] == b;
         var after := if left then size[p := size[p] + size[b]] else size;
         && Sane(base, r, ptr[p := if left then ptr[b] else b], after, live, granted, {})
         && Contains(r, after, b, n)
    ensures ring[i] in r
  {
    SaneAt(base, ring, ptr, size, live, granted, {i}, i);
    SaneAt(base, ring, ptr, size, live, granted, {i}, i + 1);
    var p, b := ring[i], ring[i + 1];
    assert {i} - {i} == {};
    if p + size[p] == b {
      LeftNotBase(base, ring, ptr, size, live, granted, i);
      SaneMerge(base, ring, ptr, size, live, granted, {i}, i);
      r := Merged(ring, i);
      assert r[i] == p;
    } else {
      SaneApart(base, ring, ptr, size, live, granted, {i}, i);
      r := ring;
      assert r[i] == p && r[i + 1] == b;
      assert ptr[p := b] == ptr;
    }
  }

  /** Nothing touches `base`, which has no units. */
  lemma LeftNotBase(base: int, ring: Ring, ptr: map<int, int>, size: map<int, int>, live: map<int, int>,
                    granted: set<int>, i: nat)
    requires Sane(base, ring, ptr, size, live, granted, {i}) && i + 1 < |ring|
    requires ring[i] in size && ring[i] + size[ring[i]] == ring[i + 1]
    ensures i > 0
  {
    assert Unfold(0);
  }

  // ---------------------------------------------------------------------------
  // The allocator

  datatype More = NoCore | Core(p: int) | TooBig

  datatype Alloc = Null | Block(p: int) | Overrun

  class Heap {
    const base: int
    var ptr: map<int, int>
    var size: map<int, int>
    /** The header where the search starts, or 0 before the first call. */
    var freep: int
    ghost var ring: Ring
    ghost var live: map<int, int>
    ghost var granted: set<int>

    constructor (base: int)
      requires base > 0
      ensures this.base == base && Valid() && live == map[] && granted == {}
    {
      this.base, freep := base, NULL;
      ptr, size, ring, live, granted := map[], map[], [], map[], {};
    }

    ghost predicate Ready()
      reads this
    {
      Sane(base, ring, ptr, size, live, granted, {}) && freep in ring && freep != NULL
    }

    ghost predicate Valid()
      reads this
    {
      base > 0 && if freep == NULL then live == map[] && granted == {} else Ready()
    }

    /** An address sbrk may answer with: above everything it has given so far. */
    ghost predicate Fresh(core: Option<int>)
      reads this
    {
      core.Some? ==> core.value > base && forall u :: u in granted ==> u < core.value
    }

    /** Return the live block with header `b` to the free list. */
    method Free(b: int)
      requires Ready() && b in live
      modifies this
      ensures Ready() && live == old(live) - {b} && granted == old(granted)
      ensures Contains(ring, size, b, old(live)[b])
    {
      var p := FindPlace(b);
      ghost var i: nat :| i < |ring| && ring[i] == p && Between(ring, b, i);
      JoinNext(b, p, i);
      JoinPrevious(b, p, i, old(live)[b]);
      SaneRingPositive(base, ring, ptr, size, live, granted, p);
      freep := p;
    }

    /** Link `b` to the free block after it, taking that block in if they touch. */
    method JoinNext(b: int, p: int, ghost i: nat)
      requires Ready() && b in live && i < |ring| && ring[i] == p && Between(ring, b, i)
      modifies `ptr, `size, `ring, `live
      ensures live == old(live) - {b}
      ensures Sane(base, ring, ptr[p := b], size, live, granted, {i})
      ensures i + 1 < |ring| && ring[i] == p && ring[i + 1] == b && p in ptr && b in ptr && b in size
      ensures size[b] >= old(live)[b] && p != b
    {
      Neighbours(base, ring, ptr, size, live, granted, b, i);
      var nx := ptr[p];
      SaneAt(base, ring, ptr, size, live, granted, {}, Succ(i, |ring|));
      if b + size[b] == nx {
        ring := EnterMerging(base, ring, ptr, size, live, granted, b, i, nx);
        size := size[b := size[b] + size[nx]];
        ptr := ptr[b := ptr[nx]];
      } else {
        ring := EnterApart(base, ring, ptr, size, live, granted, b, i, nx);
        ptr := ptr[b := nx];
      }
      live := live - {b};
    }

    /** Link the free block `p` to `b`, which it takes in if they touch. */
    method JoinPrevious(b: int, p: int, ghost i: nat, ghost n: int)
      requires Sane(base, ring, ptr[p := b], size, live, granted, {i})
      requires i + 1 < |ring| && ring[i] == p && ring[i + 1] == b && b in ptr && b in size && size[b] >= n && p != b
      modifies `ptr, `size, `ring
      ensures Sane(base, ring, ptr, size, live, granted, {}) && p in ring && Contains(ring, size, b, n)
    {
      ring := FreeLeft(base, ring, ptr[p := b], size, live, granted, i, n);
      assert ptr[p := b][p := ptr[b]] == ptr[p := ptr[b]];
      assert ptr[p := b][p := b] == ptr[p := b];
      if p + size[p] == b {
        size := size[p := size[p] + size[b]];
        ptr := ptr[p := ptr[b]];
      } else {
        ptr := ptr[p := b];
      }
    }

    /** The search loop of free: the free block after which `b` belongs. */
    method FindPlace(b: int) returns (p: int)
      requires Ready() && b in live
      ensures exists i: nat :: i < |ring| && ring[i] == p && Between(ring, b, i)
    {
      SaneLive(base, ring, ptr, size, live, granted, b);
      SaneAt(base, ring, ptr, size, live, granted, {}, 0);
      ghost var n := |ring|;
      ghost var goal := Place(base, ring, b, 0);
      ghost var j: nat :| j < n && ring[j] == freep;
      p := freep;
      SaneAt(base, ring, ptr, size, live, granted, {}, j);
      FoundHere(base, ring, ptr, size, live, granted, b, j);
      while !(b > p && b < ptr[p]) && !(p >= ptr[p] && (b > p || b < ptr[p]))
        invariant j < n && p == ring[j] && p in ptr && ptr[p] == ring[Succ(j, n)]
        invariant Stops(p, ptr[p], b) <==> Between(ring, b, j)
        decreases if j <= goal then goal - j else goal - j + n
      {
        j := Succ(j, n);
        p := ptr[p];
        SaneAt(base, ring, ptr, size, live, granted, {}, j);
        FoundHere(base, ring, ptr, size, live, granted, b, j);
      }
    }

    /** Take the whole of free block `p`, whose predecessor is `prevp`. */
    method TakeAll(p: int, prevp: int, ghost t: nat)
      requires Ready() && t + 1 < |ring| && ring[t] == prevp && ring[t + 1] == p && p in size
      modifies this
      ensures Sane(base, ring, ptr, size, live, granted, {}) && prevp in ring && granted == old(granted)
      ensures p !in old(live) && live == old(live)[p := old(size)[p]]
    {
      SaneTakeWhole(base, ring, ptr, size, live, granted, t);
      ptr := ptr[prevp := ptr[p]];
      ring := Merged(ring, t);
      live := live[p := size[p]];
      assert ring[t] == prevp;
    }

    /** Take the last `n` units of free block `p`. */
    method TakeEnd(p: int, n: int, ghost t: nat) returns (r: int)
      requires Ready() && t + 1 < |ring| && ring[t + 1] == p && p in size && 0 < n < size[p]
      modifies this
      ensures Sane(base, ring, ptr, size, live, granted, {}) && ring == old(ring) && granted == old(granted)
      ensures r !in old(live) && live == old(live)[r := n]
    {
      SaneTakeTail(base, ring, ptr, size, live, granted, t + 1, n);
      size := size[p := size[p] - n];
      r := p + size[p];
      size := size[r := n];
      assert size == old(size)[p := old(size)[p] - n][p + (old(size)[p] - n) := n];
      live := live[r := n];
    }

    /** Take `n` units from free block `p`, whose predecessor is `prevp`: all of it, or its tail. */
    method Take(p: int, prevp: int, n: int, ghost t: nat) returns (r: int)
      requires Ready() && t + 1 < |ring| && ring[t] == prevp && ring[t + 1] == p && p in size && 0 < n <= size[p]
      modifies this
      ensures Ready() && granted == old(granted)
      ensures r !in old(live) && live == old(live)[r := n]
    {
      SaneAt(base, ring, ptr, size, live, granted, {}, t);
      if size[p] == n {
        TakeAll(p, prevp, t);
        r := p;
      } else {
        r := TakeEnd(p, n, t);
      }
      freep := prevp;
    }

    /** Get at least `nu` more units from sbrk, which answers `core`. */
    method Morecore(nu: int, core: Option<int>) returns (r: More)
      requires Ready() && 0 < nu <= 0x2000_0000 && Fresh(core)
      modifies this
      ensures r.Core? ==> core.Some? && Ready() && live == old(live) && r.p == freep
      ensures r.Core? ==> granted == old(granted) + Units(core.value, if nu < 4096 then 4096 else nu)
      ensures r.Core? ==> Contains(ring, size, core.value, nu)
      ensures r.NoCore? <==> core.None?
      ensures r.NoCore? ==> unchanged(this)
      ensures r.TooBig? <==> core.Some? && nu >= 0x1000_0000
    {
      var n := if nu < 4096 then 4096 else nu;
      if core.None? {
        return NoCore;
      }
      SbrkExact(n);
      if SbrkArgument(n) != 8 * n {
        return TooBig;
      }
      var hp := core.value;
      SaneGrant(base, ring, ptr, size, live, granted, hp, n);
      size := size[hp := n];
      live := live[hp := n];
      granted := granted + Units(hp, n);
      Free(hp);
      r := Core(freep);
    }

    /** Some free block has `n` units. */
    ghost predicate HasRoom(n: int)
      reads this
    {
      freep != NULL && Fits(ring, size, n)
    }

    /** Allocate room for `nbytes` bytes; `r.p` is the header of the block. `calls` counts calls of morecore. */
    method Malloc(nbytes: int, core: Option<int>) returns (r: Alloc, calls: nat)
      requires Valid() && 0 <= nbytes < U32 && Fresh(core)
      modifies this
      ensures calls <= 1
      // Which outcome it is: from the free list, or from sbrk, which may fail or be asked for the wrong amount.
      ensures calls == 0 <==> old(HasRoom(UnitsFor(nbytes)))
      ensures r.Null? <==> !old(HasRoom(UnitsFor(nbytes))) && core.None?
      ensures r.Overrun? <==> !old(HasRoom(UnitsFor(nbytes))) && core.Some? && UnitsFor(nbytes) >= 0x1000_0000
      // What it does.
      ensures r.Block? ==> Ready() && r.p !in old(live) && live == old(live)[r.p := UnitsFor(nbytes)]
      ensures r.Null? ==> Ready() && calls == 1 && live == old(live)
      ensures calls == 0 || r.Null? ==> granted == old(granted)
      ensures r.Block? && calls == 1 ==>
        granted == old(granted) + Units(core.value, if UnitsFor(nbytes) < 4096 then 4096 else UnitsFor(nbytes))
    {
      if freep == NULL {
        ptr, size, freep := ptr[base := base], size[base := 0], base;
        ring := [base];
        SaneEmpty(base, ptr, size);
      }
      r, calls := Search(UnitsFor(nbytes), core);
    }

    /** The loop of malloc, round the ring from `freep`. */
    method Search(nunits: int, core: Option<int>) returns (r: Alloc, calls: nat)
      requires Ready() && 0 < nunits <= 0x2000_0000 && Fresh(core)
      modifies this
      ensures calls <= 1
      ensures r.Block? ==> Ready() && r.p !in old(live) && live == old(live)[r.p := nunits]
      ensures r.Null? ==> Ready() && calls == 1 && live == old(live)
      ensures calls == 0 || r.Null? ==> granted == old(granted)
      ensures r.Block? && calls == 1 ==>
        core.Some? && granted == old(granted) + Units(core.value, if nunits < 4096 then 4096 else nunits)
      ensures calls == 0 <==> Fits(old(ring), old(size), nunits)
      ensures r.Null? <==> !Fits(old(ring), old(size), nunits) && core.None?
      ensures r.Overrun? <==> !Fits(old(ring), old(size), nunits) && core.Some? && nunits >= 0x1000_0000
    {
      ghost var j := WalkStart(base, ring, ptr, size, live, granted, nunits, freep);
      var prevp := freep;
      var p := ptr[prevp];
      calls := 0;
      while true
        invariant calls <= 1 && Ready() && live == old(live)
        invariant calls == 0 ==> granted == old(granted) && ring == old(ring) && size == old(size)
        invariant calls == 1 ==>
          core.Some? && granted == old(granted) + Units(core.value, if nunits < 4096 then 4096 else nunits)
        invariant calls == 1 ==> nunits < 0x1000_0000 && Fits(ring, size, nunits) && !Fits(old(ring), old(size), nunits)
        invariant Walk(ring, size, nunits, freep, prevp, p, j)
        decreases 1 - calls, Left(Index(ring, freep), j, |ring|)
      {
        WalkAt(base, ring, ptr, size, live, granted, nunits, freep, prevp, p, j);
        if size[p] >= nunits {
          var b := Take(p, prevp, nunits, j - 1);
          return Block(b), calls;
        }
        if p == freep {
          WalkEnd(base, ring, ptr, size, live, granted, nunits, freep, prevp, p, j);
          var m := Morecore(nunits, core);
          calls := 1;
          if m.NoCore? {
            return Null, calls;
          }
          if m.TooBig? {
            return Overrun, calls;
          }
          p := m.p;
          j := WalkStart(base, ring, ptr, size, live, granted, nunits, freep);
        } else {
          j := WalkOn(base, ring, ptr, size, live, granted, nunits, freep, prevp, p, j);
        }
        prevp := p;
        p := ptr[p];
      }
    }
  }

  /** The two ways the search loop of free ends at `p`. */
  predicate Stops(p: int, next: int, b: int)
  {
    (b > p && b < next) || (p >= next && (b > p || b < next))
  }

  lemma FoundHere(base: int, ring: Ring, ptr: map<int, int>, size: map<int, int>, live: map<int, int>,
                  granted: set<int>, b: int, j: nat)
    requires Sane(base, ring, ptr, size, live, granted, {}) && b in live && j < |ring|
    ensures Stops(ring[j], ring[Succ(j, |ring|)], b) <==> Between(ring, b, j)
  {
    SaneLive(base, ring, ptr, size, live, granted, b);
    SaneAt(base, ring, ptr, size, live, granted, {}, 0);
    if j + 1 < |ring| {
      SaneOrder(base, ring, ptr, size, live, granted, j, j + 1);
    } else if j > 0 {
      SaneOrder(base, ring, ptr, size, live, granted, 0, j);
    }
  }

  /** There is a place for `b` in the ring. */
  lemma Place(base: int, ring: Ring, b: int, k: nat) returns (i: nat)
    requires k < |ring| && ring[k] < b && b !in ring
    ensures Between(ring, b, i)
    decreases |ring| - k
  {
    if k + 1 == |ring| || b < ring[k + 1] {
      i := k;
    } else {
      i := Place(base, ring, b, k + 1);
    }
  }

  lemma SaneRingPositive(base: int, ring: Ring, ptr: map<int, int>, size: map<int, int>, live: map<int, int>,
                         granted: set<int>, p: int)
    requires Sane(base, ring, ptr, size, live, granted, {}) && p in ring
    ensures p > 0
  {
    var k: nat :| k < |ring| && ring[k] == p;
    SaneAt(base, ring, ptr, size, live, granted, {}, k);
  }

  lemma SaneEmpty(base: int, ptr: map<int, int>, size: map<int, int>)
    requires base > 0 && base in ptr && ptr[base] == base && base in size && size[base] == 0
    ensures Sane(base, [base], ptr, size, map[], {}, {})
  {
    assert Linked([base], ptr) by {
      assert LinkAt([base], ptr, 0);
    }
  }

  lemma SaneTakeWhole(base: int, ring: Ring, ptr: map<int, int>, size: map<int, int>, live: map<int, int>,
                      granted: set<int>, t: nat)
    requires Sane(base, ring, ptr, size, live, granted, {}) && t + 1 < |ring|
    ensures ring[t + 1] in ptr && ring[t + 1] in size && ring[t + 1] !in live
    ensures Sane(base, Merged(ring, t), ptr[ring[t] := ptr[ring[t + 1]]], size,
                 live[ring[t + 1] := size[ring[t + 1]]], granted, {})
  {
    assert Unfold(0);
    ApartNoRepeats(base, ring, size, {});
    LinkMerge(ring, ptr, t);
    TakeWhole(base, ring, size, live, granted, t);
  }

  lemma SaneTakeTail(base: int, ring: Ring, ptr: map<int, int>, size: map<int, int>, live: map<int, int>,
                     granted: set<int>, i: nat, n: int)
    requires Sane(base, ring, ptr, size, live, granted, {}) && 0 < i < |ring| && ring[i] in size
    requires 0 < n < size[ring[i]]
    ensures var b := ring[i] + (size[ring[i]] - n);
      b !in live && Sane(base, ring, ptr, size[ring[i] := size[ring[i]] - n][b := n], live[b := n], granted, {})
  {
    assert Unfold(0);
    TakeTail(base, ring, size, live, granted, i, n);
  }

  lemma {:induction false} SaneGrant(base: int, ring: Ring, ptr: map<int, int>, size: map<int, int>,
                                     live: map<int, int>, granted: set<int>, lo: int, n: nat)
    requires Sane(base, ring, ptr, size, live, granted, {}) && n > 0 && lo > base && forall u :: u in granted ==> u < lo
    ensures lo !in live && Sane(base, ring, ptr, size[lo := n], live[lo := n], granted + Units(lo, n), {})
  {
    assert Unfold(0);
    GrantRegion(base, ring, size, live, granted, lo, n);
  }

  // ---------------------------------------------------------------------------
  // Arithmetic of the request, in 32 bits

  /** Units for a request, header included. */
  function UnitsFor(nbytes: int): (n: int)
    requires 0 <= nbytes < U32
    ensures 0 < n <= 0x2000_0000
  {
    (nbytes + 7) % U32 / 8 + 1
  }

  /** The argument sbrk receives for `nu` units: a 32-bit product read as a signed number. */
  function SbrkArgument(nu: int): (a: int)
    requires 0 <= nu
  {
    var w := nu * 8 % U32;
    if w < U32 / 2 then w else w - U32
  }

  /** The block has room for the request exactly when adding the rounding does not wrap. */
  lemma RoomFor(nbytes: int)
    requires 0 <= nbytes < U32
    ensures 8 * (UnitsFor(nbytes) - 1) >= nbytes <==> nbytes <= U32 - 8
  {
  }

  /** The largest request gets a bare header. */
  lemma RoomWraps()
    ensures UnitsFor(U32 - 1) == 1
  {
  }

  /** A request of 2^31 - 8 bytes asks sbrk for a negative amount. */
  lemma SbrkWraps()
    ensures UnitsFor(0x7FFF_FFF8) == 0x1000_0000 && SbrkArgument(0x1000_0000) == -0x8000_0000
  {
  }

  /** sbrk is asked for the units morecore claims exactly when there are fewer than 2^28. */
  lemma SbrkExact(nu: int)
    requires 0 <= nu
    ensures SbrkArgument(nu) == 8 * nu <==> nu < 0x1000_0000
  {
  }

  // ---------------------------------------------------------------------------
  // The search of malloc

  /** Steps from block `j` to block `s` round a ring of `n`. */
  function Left(s: nat, j: nat, n: nat): (d: int)
  {
    if j <= s then s - j else s - j + n
  }

  function Pred(j: nat, n: nat): (k: nat)
    requires j < n
  {
    if j == 0 then n - 1 else j - 1
  }

  /** Some free block has `n` units. */
  ghost predicate Fits(ring: Ring, size: map<int, int>, n: int)
  {
    exists k :: 0 <= k < |ring| && ring[k] in size && size[ring[k]] >= n
  }

  /** The blocks the search has passed, starting after block `s` and now at `j`, are too small. */
  ghost predicate Passed(ring: Ring, size: map<int, int>, n: int, s: nat, j: nat)
  {
    forall k :: 0 <= k < |ring| && Left(s, k, |ring|) > Left(s, j, |ring|) ==> ring[k] in size && size[ring[k]] < n
  }

  ghost function Index(ring: Ring, p: int): (k: nat)
    requires p in ring
    ensures k < |ring| && ring[k] == p
  {
    var k :| 0 <= k < |ring| && ring[k] == p; k
  }

  /** The search stands at block `j`, which is `p`, having come from `prevp`, and what it has passed since
      `freep` is too small. */
  ghost predicate Walk(ring: Ring, size: map<int, int>, n: int, freep: int, prevp: int, p: int, j: nat)
  {
    && j < |ring| && freep in ring
    && forall u: int {:trigger Unfold(u)} :: Unfold(u) && u == 1 ==>
         ring[j] == p && ring[Pred(j, |ring|)] == prevp && Passed(ring, size, n, Index(ring, freep), j)
  }

  lemma WalkStart(base: int, ring: Ring, ptr: map<int, int>, size: map<int, int>, live: map<int, int>,
                  granted: set<int>, n: int, freep: int) returns (j: nat)
    requires Sane(base, ring, ptr, size, live, granted, {}) && freep in ring
    ensures freep in ptr && Walk(ring, size, n, freep, freep, ptr[freep], j)
  {
    var s := Index(ring, freep);
    SaneAt(base, ring, ptr, size, live, granted, {}, s);
    j := Succ(s, |ring|);
  }

  lemma WalkAt(base: int, ring: Ring, ptr: map<int, int>, size: map<int, int>, live: map<int, int>,
               granted: set<int>, n: int, freep: int, prevp: int, p: int, j: nat)
    requires Sane(base, ring, ptr, size, live, granted, {}) && Walk(ring, size, n, freep, prevp, p, j) && n > 0
    ensures p in size && p in ptr && Left(Index(ring, freep), j, |ring|) >= 0
    ensures size[p] >= n ==> j > 0 && ring[j] == p && ring[j - 1] == prevp && Fits(ring, size, n)
  {
    assert Unfold(1);
    SaneAt(base, ring, ptr, size, live, granted, {}, j);
  }

  /** Back at `freep` without success: no block fits. */
  lemma WalkEnd(base: int, ring: Ring, ptr: map<int, int>, size: map<int, int>, live: map<int, int>,
                granted: set<int>, n: int, freep: int, prevp: int, p: int, j: nat)
    requires Sane(base, ring, ptr, size, live, granted, {}) && Walk(ring, size, n, freep, prevp, p, j)
    requires p == freep && p in size && size[p] < n
    ensures !Fits(ring, size, n)
  {
    assert Unfold(1);
    var s := Index(ring, freep);
    OnePlace(base, ring, ptr, size, live, granted, j, s);
    forall k | 0 <= k < |ring| ensures ring[k] in size && size[ring[k]] < n {
      assert k == s || Left(s, k, |ring|) > Left(s, j, |ring|);
    }
  }

  lemma OnePlace(base: int, ring: Ring, ptr: map<int, int>, size: map<int, int>, live: map<int, int>,
                 granted: set<int>, j: nat, k: nat)
    requires Sane(base, ring, ptr, size, live, granted, {}) && j < |ring| && k < |ring| && ring[j] == ring[k]
    ensures j == k
  {
    if j < k {
      SaneOrder(base, ring, ptr, size, live, granted, j, k);
    } else if k < j {
      SaneOrder(base, ring, ptr, size, live, granted, k, j);
    }
  }

  lemma WalkOn(base: int, ring: Ring, ptr: map<int, int>, size: map<int, int>, live: map<int, int>,
               granted: set<int>, n: int, freep: int, prevp: int, p: int, j: nat) returns (m: nat)
    requires Sane(base, ring, ptr, size, live, granted, {}) && Walk(ring, size, n, freep, prevp, p, j)
    requires p != freep && p in size && size[p] < n
    ensures p in ptr && Walk(ring, size, n, freep, p, ptr[p], m)
    ensures 0 <= Left(Index(ring, freep), m, |ring|) < Left(Index(ring, freep), j, |ring|)
  {
    assert Unfold(1);
    var s := Index(ring, freep);
    SaneAt(base, ring, ptr, size, live, granted, {}, j);
    m := Succ(j, |ring|);
    forall k | 0 <= k < |ring| && Left(s, k, |ring|) > Left(s, m, |ring|) ensures ring[k] in size && size[ring[k]] < n {
      assert k == j || Left(s, k, |ring|) > Left(s, j, |ring|);
    }
  }

}
