/** The dumped image: disjoint runs of bytes at virtual addresses. */
module Segments {
  import opened Words
  import opened Guest
  import opened Wrappers

  datatype Segment = Segment(start: nat, end: nat, data: seq<Byte>)

  /** Byte o of the segment; a slice that runs past the data reads as if zero-extended. */
  function DataByte(s: Segment, o: nat): Byte {
    if o < |s.data| then s.data[o] else 0
  }

  predicate Covers(s: Segment, va: int) {
    s.start <= va && va + 4 <= s.end
  }

  /** `Mem.r32`: the little-endian word at va in the first segment that holds it whole. */
  function ReadWord(segs: seq<Segment>, va: int): Option<Word> {
    if segs == [] then None
    else if Covers(segs[0], va) then
      var o := va - segs[0].start;
      Some(Compose(DataByte(segs[0], o), DataByte(segs[0], o + 1),
                   DataByte(segs[0], o + 2), DataByte(segs[0], o + 3)))
    else ReadWord(segs[1..], va)
  }
}
