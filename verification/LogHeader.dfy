/** The log header block: a count and that many sector numbers, as 32-bit words. */
module LogHeader {
  import opened Bytes

  /** The header block after the sector numbers are stored behind its first word; stale ones behind
      them stay. */
  function PutSectors(b: Block, secs: seq<uint>): (r: Block)
    requires |secs| < WORDS
    ensures forall j: nat :: j < WORDS ==>
      Word(r, j) == if 1 <= j <= |secs| then secs[j - 1] else Word(b, j)
  {
    if secs == [] then b
    else PutWord(PutSectors(b, secs[..|secs| - 1]), |secs|, secs[|secs| - 1])
  }

  function EncodeHeader(b: Block, secs: seq<uint>): (r: Block)
    requires |secs| < WORDS
  {
    PutSectors(PutWord(b, 0, |secs|), secs)
  }

  /** The first `k` sector numbers of a header block. */
  function Sectors(b: Block, k: nat): (secs: seq<uint>)
    requires k < WORDS
    ensures |secs| == k && forall i :: 0 <= i < k ==> secs[i] == Word(b, i + 1)
  {
    if k == 0 then [] else Sectors(b, k - 1) + [Word(b, k)]
  }

  /** The sector list a header block denotes. A count that does not fit the block makes the list too
      long for any log. */
  function HeaderOf(b: Block): (secs: seq<uint>)
    ensures Word(b, 0) < WORDS ==> |secs| == Word(b, 0)
    ensures forall i :: 0 <= i < |secs| ==> i + 1 < WORDS && secs[i] == Word(b, i + 1)
  {
    Sectors(b, if Word(b, 0) < WORDS then Word(b, 0) else WORDS - 1)
  }

  /** What `write_head` stores, `read_head` reads back. */
  lemma HeaderRoundTrip(b: Block, secs: seq<uint>)
    requires |secs| < WORDS
    ensures HeaderOf(EncodeHeader(b, secs)) == secs
  {
    var r := EncodeHeader(b, secs);
    assert Word(r, 0) == |secs|;
    assert forall i :: 0 <= i < |secs| ==> HeaderOf(r)[i] == Word(r, i + 1) == secs[i];
  }
}
