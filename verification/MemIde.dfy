/** The in-memory disk of memide.c. */
module MemIde {
  import opened Common
  import opened Bytes

  const DISKDEV := 1
  const NODEV := U32 - 1   // `b->dev = -1` of a buffer that was never used

  /** A cache buffer; `busy`, `valid` and `dirty` are the bits B_BUSY, B_VALID and B_DIRTY. */
  datatype Buf = Buf(dev: uint, sector: uint, busy: bool, valid: bool, dirty: bool, data: Block)

  class MemDisk {
    var sectors: Disk
    var writes: seq<Write>   // every sector write so far, in order: what a crash can cut short

    constructor (image: Disk)
      ensures sectors == image && writes == []
    {
      sectors := image;
      writes := [];
    }

    /** The conditions on which `iderw` panics. */
    predicate Refuses(b: Buf)
      reads this
    {
      !b.busy || (b.valid && !b.dirty) || b.dev != DISKDEV || b.sector >= |sectors|
    }

    /** Sync a buffer with the disk: write it if dirty, else read it. `None` is a panic. */
    method Iderw(b: Buf) returns (r: Option<Buf>)
      modifies this
      ensures r.None? <==> old(Refuses(b))
      ensures r.Some? ==> r.value == b.(valid := true, dirty := false, data := r.value.data)
      ensures r.Some? ==> b.sector < |sectors| && r.value.data == sectors[b.sector]
      ensures r.Some? && b.dirty ==> sectors == old(sectors)[b.sector := b.data]
      ensures r.Some? && b.dirty ==> writes == old(writes) + [Write(b.sector, b.data)]
      ensures r.None? || !b.dirty ==> sectors == old(sectors) && writes == old(writes)
    {
      if !b.busy || (b.valid && !b.dirty) || b.dev != DISKDEV || b.sector >= |sectors| {
        return None;
      }
      var out := b;
      if b.dirty {
        out := out.(dirty := false);
        sectors := sectors[b.sector := b.data];
        writes := writes + [Write(b.sector, b.data)];
      } else {
        out := out.(data := sectors[b.sector]);
      }
      r := Some(out.(valid := true));
    }
  }
}
