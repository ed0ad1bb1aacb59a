/** The segment file: what the packer writes and the loader reads back. */
module ImageFile {
  import opened Words
  import opened Guest
  import opened Segments
  import opened Wrappers

  // ---- writing ----

  function Le32(v: Word): seq<Byte> {
    [ByteOf(v, 0), ByteOf(v, 1), ByteOf(v, 2), ByteOf(v, 3)]
  }

  /** `struct.pack` refuses numbers that are not 32-bit. */
  predicate Packable(s: Segment) {
    s.start < 0x1_0000_0000 && |s.data| < 0x1_0000_0000
  }

  function PackOne(s: Segment): seq<Byte>
    requires Packable(s)
  {
    Le32(s.start) + Le32(|s.data|) + s.data
  }

  function PackAll(segs: seq<Segment>): seq<Byte>
    requires forall s :: s in segs ==> Packable(s)
  {
    if segs == [] then [] else PackOne(segs[0]) + PackAll(segs[1..])
  }

  function Pack(segs: seq<Segment>): Option<seq<Byte>> {
    if |segs| < 0x1_0000_0000 && forall s :: s in segs ==> Packable(s)
    then Some(Le32(|segs|) + PackAll(segs)) else None
  }

  // ---- reading ----

  /** Memory with bytes copied to a; what would fall outside the window is not there. */
  function Copied(m: Mem, a: nat, bytes: seq<Byte>): Mem {
    seq(|m|, x requires 0 <= x < |m| => CopiedByte(m, a, bytes, x))
  }

  function CopiedByte(m: Mem, a: nat, bytes: seq<Byte>, x: nat): Byte
    requires x < |m|
  {
    if a <= x < a + |bytes| then bytes[x - a] else m[x]
  }

  function WordAt(file: seq<Byte>, pos: nat): Word
    requires pos + 4 <= |file|
  {
    Compose(file[pos], file[pos + 1], file[pos + 2], file[pos + 3])
  }

  datatype Loaded = Loaded(mem: Mem, ok: bool)

  /** The bytes the loader copies for a record whose header ends at pos. */
  function Body(file: seq<Byte>, pos: nat, len: nat): seq<Byte>
    requires pos <= |file|
  {
    if pos + len <= |file| then file[pos..pos + len] else file[pos..]
  }

  /** k records from pos on; a short record is copied as far as it goes, then fails. */
  function LoadRecords(m: Mem, file: seq<Byte>, pos: nat, k: nat): Loaded
    requires pos <= |file|
    decreases k
  {
    if k == 0 then Loaded(m, true)
    else if pos + 8 > |file| then Loaded(m, false)
    else
      var start, len := WordAt(file, pos), WordAt(file, pos + 4);
      var m' := Copied(m, start, Body(file, pos + 8, len));
      if pos + 8 + len > |file| then Loaded(m', false) else LoadRecords(m', file, pos + 8 + len, k - 1)
  }

  datatype LoadResult = LoadResult(mem: Mem, rc: int)

  /** `ngage_load_image` on a file that could be opened. */
  function Load(m: Mem, file: seq<Byte>): LoadResult {
    if |file| < 4 then LoadResult(m, -1)
    else
      var n := WordAt(file, 0);
      var r := LoadRecords(m, file, 4, n);
      LoadResult(r.mem, if r.ok then Signed(n) else -1)
  }

  /** Every record of the file stays inside a window of this size. */
  predicate RecordsFit(size: nat, file: seq<Byte>, pos: nat, k: nat)
    requires pos <= |file|
    decreases k
  {
    k == 0 || pos + 8 > |file| ||
    (var start, len := WordAt(file, pos), WordAt(file, pos + 4);
     && start + |Body(file, pos + 8, len)| <= size
     && (pos + 8 + len > |file| || RecordsFit(size, file, pos + 8 + len, k - 1)))
  }

  /** The memory image of the segments, laid over m in order. */
  function Overlay(m: Mem, segs: seq<Segment>): (r: Mem)
    ensures |r| == |m|
    decreases |segs|
  {
    if segs == [] then m else Overlay(Copied(m, segs[0].start, segs[0].data), segs[1..])
  }

  // ---- round trip ----

  /** The bytes a are in the file at pos. */
  predicate At(file: seq<Byte>, pos: nat, a: seq<Byte>) {
    pos + |a| <= |file| && file[pos..pos + |a|] == a
  }

  lemma AtSplits(file: seq<Byte>, pos: nat, a: seq<Byte>, b: seq<Byte>)
    requires At(file, pos, a + b)
    ensures At(file, pos, a) && At(file, pos + |a|, b)
  {
    var ab := file[pos..pos + |a + b|];
    assert ab[..|a|] == a && ab[|a|..] == b;
  }

  lemma Le32Reads(file: seq<Byte>, pos: nat, v: Word)
    requires At(file, pos, Le32(v))
    ensures |Le32(v)| == 4 && WordAt(file, pos) == v
  {
    hide Compose, ByteOf;
    ComposeSplits(v);
    var w := file[pos..pos + 4];
    assert w[0] == file[pos] && w[1] == file[pos + 1] && w[2] == file[pos + 2] && w[3] == file[pos + 3];
  }

  lemma RecordReads(file: seq<Byte>, pos: nat, s: Segment)
    requires Packable(s) && At(file, pos, PackOne(s))
    ensures |PackOne(s)| == 8 + |s.data| && pos + 8 + |s.data| <= |file|
    ensures WordAt(file, pos) == s.start && WordAt(file, pos + 4) == |s.data|
    ensures file[pos + 8..pos + 8 + |s.data|] == s.data
  {
    AtSplits(file, pos, Le32(s.start) + Le32(|s.data|), s.data);
    AtSplits(file, pos, Le32(s.start), Le32(|s.data|));
    hide WordAt, Le32;
    Le32Reads(file, pos, s.start);
    Le32Reads(file, pos + 4, |s.data|);
  }

  lemma LoadOne(m: Mem, file: seq<Byte>, pos: nat, k: nat, s: Segment)
    requires k > 0 && Packable(s) && At(file, pos, PackOne(s))
    ensures pos + |PackOne(s)| <= |file|
    ensures LoadRecords(m, file, pos, k)
            == LoadRecords(Copied(m, s.start, s.data), file, pos + |PackOne(s)|, k - 1)
  {
    hide Copied, WordAt, PackOne, At;
    RecordReads(file, pos, s);
  }

  lemma OneMore(m: Mem, segs: seq<Segment>)
    requires segs != [] && forall s :: s in segs ==> Packable(s)
    ensures PackAll(segs) == PackOne(segs[0]) + PackAll(segs[1..])
    ensures Overlay(m, segs) == Overlay(Copied(m, segs[0].start, segs[0].data), segs[1..])
  {
    hide PackOne, Copied;
  }

  lemma NoMore(m: Mem, file: seq<Byte>, pos: nat)
    requires pos <= |file|
    ensures LoadRecords(m, file, pos, 0) == Loaded(Overlay(m, []), true)
  {
  }

  /** Records are read back from wherever they stand in a file, whatever surrounds them. */
  lemma {:induction false} RecordsReadBack(m: Mem, file: seq<Byte>, pos: nat, segs: seq<Segment>)
    requires forall s :: s in segs ==> Packable(s)
    requires At(file, pos, PackAll(segs))
    ensures pos <= |file| && LoadRecords(m, file, pos, |segs|) == Loaded(Overlay(m, segs), true)
    decreases |segs|
  {
    hide Copied, PackOne, Packable, At, PackAll, Overlay, LoadRecords;
    AtInside(file, pos, PackAll(segs));
    if segs == [] {
      NoMore(m, file, pos);
    } else {
      var s := segs[0];
      OneMore(m, segs);
      AtSplits(file, pos, PackOne(s), PackAll(segs[1..]));
      LoadOne(m, file, pos, |segs|, s);
      RecordsReadBack(Copied(m, s.start, s.data), file, pos + |PackOne(s)|, segs[1..]);
    }
  }

  lemma AtInside(file: seq<Byte>, pos: nat, a: seq<Byte>)
    requires At(file, pos, a)
    ensures pos + |a| <= |file|
  {
  }

  /** A file that starts with packed segments loads as those segments laid over memory. */
  lemma PrefixLoads(m: Mem, segs: seq<Segment>, file: seq<Byte>)
    requires Pack(segs).Some? && Pack(segs).value <= file
    ensures |file| >= 4 && WordAt(file, 0) == |segs|
    ensures LoadRecords(m, file, 4, |segs|) == Loaded(Overlay(m, segs), true)
    ensures Load(m, file) == LoadResult(Overlay(m, segs), Signed(|segs|))
  {
    AtSplits(file, 0, Le32(|segs|), PackAll(segs));
    hide Copied, Le32, WordAt, PackAll, LoadRecords, Overlay;
    Le32Reads(file, 0, |segs|);
    RecordsReadBack(m, file, 4, segs);
  }

  /** Packing a segment list and loading the file lays every segment over memory. */
  lemma PackThenLoad(m: Mem, segs: seq<Segment>)
    requires Pack(segs).Some?
    ensures Load(m, Pack(segs).value) == LoadResult(Overlay(m, segs), Signed(|segs|))
  {
    PrefixLoads(m, segs, Pack(segs).value);
  }

  // ---- which files load ----

  /** The segments of k well-formed records from pos on. */
  function Parse(file: seq<Byte>, pos: nat, k: nat): seq<Segment>
    requires pos <= |file|
    decreases k
  {
    if k == 0 || pos + 8 > |file| then []
    else
      var start, len := WordAt(file, pos), WordAt(file, pos + 4);
      if pos + 8 + len > |file| then []
      else [Segment(start, start as int + len, file[pos + 8..pos + 8 + len])] + Parse(file, pos + 8 + len, k - 1)
  }

  lemma Le32OfWord(file: seq<Byte>, pos: nat)
    requires pos + 4 <= |file|
    ensures Le32(WordAt(file, pos)) == file[pos..pos + 4]
  {
    ByteOfCompose(file[pos], file[pos + 1], file[pos + 2], file[pos + 3]);
  }

  lemma ByteOfCompose(b0: Byte, b1: Byte, b2: Byte, b3: Byte)
    ensures var v := Compose(b0, b1, b2, b3);
            ByteOf(v, 0) == b0 && ByteOf(v, 1) == b1 && ByteOf(v, 2) == b2 && ByteOf(v, 3) == b3
  {
  }

  lemma RecordIs(file: seq<Byte>, pos: nat)
    requires pos + 8 <= |file| && pos + 8 + WordAt(file, pos + 4) <= |file|
    ensures var start, len := WordAt(file, pos), WordAt(file, pos + 4);
            var s := Segment(start, start as int + len, file[pos + 8..pos + 8 + len]);
            Packable(s) && PackOne(s) == file[pos..pos + 8 + len]
  {
    hide Le32, WordAt;
    Le32OfWord(file, pos);
    Le32OfWord(file, pos + 4);
  }

  /** Records parsed, records loaded: one more, or none. */
  lemma ParseOne(m: Mem, file: seq<Byte>, pos: nat, k: nat)
    requires k > 0 && pos + 8 <= |file| && pos + 8 + WordAt(file, pos + 4) <= |file|
    ensures var start, len := WordAt(file, pos), WordAt(file, pos + 4);
            var next := pos + 8 + len;
            var s := Segment(start, start as int + len, file[pos + 8..next]);
            && Parse(file, pos, k) == [s] + Parse(file, next, k - 1)
            && LoadRecords(m, file, pos, k)
               == LoadRecords(Copied(m, start, Body(file, pos + 8, len)), file, next, k - 1)
  {
    hide Copied, WordAt, Body;
  }

  lemma ParseNone(m: Mem, file: seq<Byte>, pos: nat, k: nat)
    requires pos <= |file|
    requires k == 0 || pos + 8 > |file| || pos + 8 + WordAt(file, pos + 4) > |file|
    ensures Parse(file, pos, k) == [] && LoadRecords(m, file, pos, k).ok == (k == 0)
  {
    hide Copied, WordAt, Body;
  }

  lemma PackedPrefix(s: Segment, rest: seq<Segment>, file: seq<Byte>, pos: nat, next: nat)
    requires Packable(s) && forall x :: x in rest ==> Packable(x)
    requires pos <= next <= |file| && PackOne(s) == file[pos..next] && PackAll(rest) <= file[next..]
    ensures (forall x :: x in [s] + rest ==> Packable(x)) && PackAll([s] + rest) <= file[pos..]
  {
    hide PackOne, Packable;
    assert ([s] + rest)[1..] == rest;
    assert file[pos..] == file[pos..next] + file[next..];
  }

  /** Loading succeeds exactly on files that are packed segments, then anything. */
  lemma {:induction false} RecordsLoadIff(m: Mem, file: seq<Byte>, pos: nat, k: nat)
    requires pos <= |file|
    ensures var segs := Parse(file, pos, k);
            && (forall s :: s in segs ==> Packable(s))
            && |segs| <= k
            && (LoadRecords(m, file, pos, k).ok <==> |segs| == k)
            && PackAll(segs) <= file[pos..]
    decreases k
  {
    hide Copied, PackOne, WordAt, Packable, Parse, LoadRecords, Body;
    if k > 0 && pos + 8 <= |file| && pos + 8 + WordAt(file, pos + 4) <= |file| {
      var start, len := WordAt(file, pos), WordAt(file, pos + 4);
      var next := pos + 8 + len;
      ParseOne(m, file, pos, k);
      RecordsLoadIff(Copied(m, start, Body(file, pos + 8, len)), file, next, k - 1);
      RecordIs(file, pos);
      PackedPrefix(Segment(start, start as int + len, file[pos + 8..next]), Parse(file, next, k - 1), file, pos, next);
    } else {
      ParseNone(m, file, pos, k);
    }
  }

  lemma LoadsIff(m: Mem, file: seq<Byte>)
    ensures (|file| >= 4 && LoadRecords(m, file, 4, WordAt(file, 0)).ok) <==>
            exists segs :: Pack(segs).Some? && Pack(segs).value <= file
  {
    hide Copied, Le32, WordAt, PackAll, LoadRecords, Parse;
    if |file| >= 4 && LoadRecords(m, file, 4, WordAt(file, 0)).ok {
      var n := WordAt(file, 0);
      RecordsLoadIff(m, file, 4, n);
      var segs := Parse(file, 4, n);
      Le32OfWord(file, 0);
      assert file == file[..4] + file[4..];
      assert Pack(segs).value <= file;
    }
    if segs :| Pack(segs).Some? && Pack(segs).value <= file {
      PrefixLoads(m, segs, file);
    }
  }

  // ---- what memory then holds ----

  predicate Disjoint(s: Segment, t: Segment) {
    s.start + |s.data| <= t.start || t.start + |t.data| <= s.start
  }

  predicate AllDisjoint(segs: seq<Segment>) {
    forall i, j :: 0 <= i < j < |segs| ==> Disjoint(segs[i], segs[j])
  }

  predicate Holds(m: Mem, s: Segment) {
    s.start + |s.data| <= |m| && m[s.start..s.start + |s.data|] == s.data
  }

  /** Bytes outside every segment keep their value. */
  lemma {:induction false} OverlayElsewhere(m: Mem, segs: seq<Segment>, x: nat)
    requires x < |m| && forall s :: s in segs ==> !(s.start <= x < s.start + |s.data|)
    ensures Overlay(m, segs)[x] == m[x]
    decreases |segs|
  {
    if segs != [] {
      assert segs[0] in segs;
      OverlayElsewhere(Copied(m, segs[0].start, segs[0].data), segs[1..], x);
    }
  }

  /** Loading disjoint segments reproduces every byte of every one of them. */
  lemma {:induction false} OverlayHolds(m: Mem, segs: seq<Segment>, i: nat)
    requires AllDisjoint(segs) && i < |segs| && segs[i].start + |segs[i].data| <= |m|
    ensures Holds(Overlay(m, segs), segs[i])
    decreases |segs|
  {
    var m1 := Copied(m, segs[0].start, segs[0].data);
    assert forall j, k :: 0 <= j < k < |segs[1..]| ==> Disjoint(segs[1..][j], segs[1..][k]);
    if i > 0 {
      OverlayHolds(m1, segs[1..], i - 1);
    } else {
      var s, r := segs[0], Overlay(m, segs);
      forall x | s.start <= x < s.start + |s.data|
        ensures r[x] == s.data[x - s.start]
      {
        forall t | t in segs[1..]
          ensures !(t.start <= x < t.start + |t.data|)
        {
          var j :| 0 <= j < |segs[1..]| && segs[1..][j] == t;
          assert Disjoint(segs[0], segs[j + 1]);
        }
        OverlayElsewhere(m1, segs[1..], x);
      }
      assert r[s.start..s.start + |s.data|] == s.data;
    }
  }

  /** The dump as the extractor writes it: as many bytes as addresses, inside the window. */
  predicate Dumped(segs: seq<Segment>, size: nat) {
    AllDisjoint(segs) && forall s :: s in segs ==> s.end == s.start + |s.data| <= size
  }

  lemma {:induction false} ReadWordIn(segs: seq<Segment>, va: int)
    requires ReadWord(segs, va).Some?
    ensures exists i :: 0 <= i < |segs| && Covers(segs[i], va) && ReadWord([segs[i]], va) == ReadWord(segs, va)
    decreases |segs|
  {
    hide Compose, DataByte;
    if Covers(segs[0], va) {
      assert ReadWord([segs[0]], va) == ReadWord(segs, va);
    } else {
      ReadWordIn(segs[1..], va);
      var i :| 0 <= i < |segs[1..]| && Covers(segs[1..][i], va)
               && ReadWord([segs[1..][i]], va) == ReadWord(segs[1..], va);
      assert segs[i + 1] == segs[1..][i];
    }
  }

  lemma WordHeld(r: Mem, s: Segment, va: int)
    requires Holds(r, s) && s.end == s.start + |s.data| && Covers(s, va)
    ensures ReadWord([s], va).Some? && R32(r, va) == ReadWord([s], va).value
  {
    hide Compose;
    var o, bytes := va - s.start, r[s.start..s.start + |s.data|];
    assert bytes[o] == r[va] && bytes[o + 1] == r[va + 1] && bytes[o + 2] == r[va + 2] && bytes[o + 3] == r[va + 3];
  }

  /** Literal folding agrees with run time: a word the lifter reads from the dump is
      the word the runtime reads from the loaded image. */
  lemma FoldingAgrees(m: Mem, segs: seq<Segment>, va: int)
    requires Dumped(segs, |m|) && ReadWord(segs, va).Some?
    ensures 0 <= va && va + 4 <= |m|
    ensures R32(Overlay(m, segs), va) == ReadWord(segs, va).value
  {
    hide Compose, Overlay, ReadWord, R32, Holds;
    ReadWordIn(segs, va);
    var i :| 0 <= i < |segs| && Covers(segs[i], va) && ReadWord([segs[i]], va) == ReadWord(segs, va);
    assert segs[i] in segs;
    OverlayHolds(m, segs, i);
    WordHeld(Overlay(m, segs), segs[i], va);
  }

  // ---- which words the dump holds ----

  /** The lifter finds a word exactly when a segment holds all four bytes, and takes the
      first such segment; bytes the segment's data lacks count as 0. */
  lemma {:induction false} ReadWordIs(segs: seq<Segment>, va: int)
    ensures ReadWord(segs, va).Some? <==> exists i :: 0 <= i < |segs| && segs[i].start <= va && va + 4 <= segs[i].end
    ensures forall i :: 0 <= i < |segs| && segs[i].start <= va && va + 4 <= segs[i].end
                        && (forall j :: 0 <= j < i ==> !(segs[j].start <= va && va + 4 <= segs[j].end)) ==>
              ReadWord(segs, va).Some? && ReadWord(segs, va).value == SegmentWord(segs[i], va - segs[i].start)
    decreases |segs|
  {
    hide Compose, DataByte, SegmentWord;
    if segs != [] {
      ReadWordIs(segs[1..], va);
      WordOfSegment(segs[0], va);
      assert forall i :: 0 < i < |segs| ==> segs[i] == segs[1..][i - 1];
      if !Covers(segs[0], va) {
        forall i | 0 <= i < |segs| && segs[i].start <= va && va + 4 <= segs[i].end
                   && (forall j :: 0 <= j < i ==> !(segs[j].start <= va && va + 4 <= segs[j].end))
          ensures ReadWord(segs, va).Some? && ReadWord(segs, va).value == SegmentWord(segs[i], va - segs[i].start)
        {
          forall j | 0 <= j < i - 1
            ensures !(segs[1..][j].start <= va && va + 4 <= segs[1..][j].end)
          {
            assert segs[1..][j] == segs[j + 1];
          }
        }
        if i :| 0 <= i < |segs| && segs[i].start <= va && va + 4 <= segs[i].end {
          assert segs[1..][i - 1] == segs[i];
        }
      }
    }
  }

  function Datum(s: Segment, o: nat): nat {
    if o < |s.data| then s.data[o] else 0
  }

  function SegmentWord(s: Segment, o: nat): nat {
    Datum(s, o) + 0x100 * Datum(s, o + 1) + 0x1_0000 * Datum(s, o + 2) + 0x100_0000 * Datum(s, o + 3)
  }

  lemma WordOfSegment(s: Segment, va: int)
    requires Covers(s, va) ==> va >= s.start
    ensures Covers(s, va) <==> s.start <= va && va + 4 <= s.end
    ensures Covers(s, va) ==>
              var o := va - s.start;
              Compose(DataByte(s, o), DataByte(s, o + 1), DataByte(s, o + 2), DataByte(s, o + 3)) == SegmentWord(s, o)
  {
  }

  // ---- the layout of the file ----

  /** The file is the count, then for each segment its start, its length and its bytes, in
      little-endian words. */
  lemma Layout(v: Word, s: Segment)
    ensures Le32(v) == [v % 0x100, v / 0x100 % 0x100, v / 0x1_0000 % 0x100, v / 0x100_0000]
    ensures Packable(s) <==> s.start < 0x1_0000_0000 && |s.data| < 0x1_0000_0000
    ensures Packable(s) ==> PackOne(s) == Le32(s.start) + Le32(|s.data|) + s.data
    ensures Packable(s) ==> Pack([s]) == Some(Le32(1) + PackOne(s))
  {
    Quarters(v);
    if Packable(s) {
      assert [s][1..] == [];
      PackNothing();
      assert PackAll([s]) == PackOne(s) + [] == PackOne(s);
      assert forall x :: x in [s] ==> Packable(x);
      assert |[s]| == 1;
    }
  }

  lemma Quarters(v: Word)
    ensures v / 0x100 / 0x100 == v / 0x1_0000 && v / 0x100 / 0x100 / 0x100 == v / 0x100_0000
  {
  }

  /** A file too short for its count, a header or a record fails with -1; what was copied stays. */
  lemma ShortFile(m: Mem, file: seq<Byte>)
    ensures |file| < 4 ==> Load(m, file) == LoadResult(m, -1)
    ensures 4 <= |file| < 12 && WordAt(file, 0) > 0 ==> Load(m, file) == LoadResult(m, -1)
    ensures |file| >= 12 && WordAt(file, 0) > 0 && 12 + WordAt(file, 8) > |file| ==>
              Load(m, file) == LoadResult(Copied(m, WordAt(file, 4), file[12..]), -1)
    ensures |file| >= 4 && WordAt(file, 0) == 0 ==> Load(m, file) == LoadResult(m, 0)
  {
    hide WordAt, Copied;
  }

  // ---- the packer and the loader ----

  function TotalLength(segs: seq<Segment>): nat {
    if segs == [] then 0 else |segs[0].data| + TotalLength(segs[1..])
  }

  lemma {:induction false} PackedLength(segs: seq<Segment>)
    requires forall s :: s in segs ==> Packable(s)
    ensures |PackAll(segs)| == 8 * |segs| + TotalLength(segs)
    decreases |segs|
  {
    if segs != [] {
      PackedLength(segs[1..]);
    }
  }

  lemma {:induction false} PackAllSnoc(segs: seq<Segment>, i: nat)
    requires i < |segs| && forall s :: s in segs[..i + 1] ==> Packable(s)
    ensures forall s :: s in segs[..i] ==> Packable(s)
    ensures Packable(segs[i])
    ensures PackAll(segs[..i + 1]) == PackAll(segs[..i]) + PackOne(segs[i])
    ensures TotalLength(segs[..i + 1]) == TotalLength(segs[..i]) + |segs[i].data|
    decreases i
  {
    hide Packable, PackOne;
    assert forall k :: 0 <= k < i ==> segs[..i + 1][k] == segs[..i][k];
    assert segs[i] == segs[..i + 1][i];
    if i > 0 {
      assert segs[..i + 1][1..] == segs[1..][..i] && segs[..i][1..] == segs[1..][..i - 1];
      PackAllSnoc(segs[1..], i - 1);
    }
  }

  /** Writes the segments one after another; stops at a number `struct.pack` refuses. */
  method WriteImage(segs: seq<Segment>) returns (file: seq<Byte>, total: nat, ok: bool)
    ensures ok <==> Pack(segs).Some?
    ensures ok ==> file == Pack(segs).value && total == TotalLength(segs) && |file| == 4 + 8 * |segs| + total
  {
    hide PackOne, Packable, PackAll, TotalLength;
    file, total, ok := [], 0, true;
    if |segs| >= 0x1_0000_0000 { return [], 0, false; }
    file := Le32(|segs|);
    assert PackAll([]) == [] && TotalLength([]) == 0 by { PackNothing(); }
    var i := 0;
    while i < |segs|
      invariant i <= |segs| && forall s :: s in segs[..i] ==> Packable(s)
      invariant file == Le32(|segs|) + PackAll(segs[..i]) && total == TotalLength(segs[..i])
    {
      var s := segs[i];
      if !Packable(s) {
        assert s in segs;
        return file, total, false;
      }
      assert segs[..i + 1] == segs[..i] + [s];
      PackAllSnoc(segs, i);
      PackedIs(s);
      file := file + Le32(s.start) + Le32(|s.data|);
      file := file + s.data;
      total := total + |s.data|;
      i := i + 1;
    }
    assert segs[..i] == segs;
    PackedLength(segs);
  }

  lemma PackNothing()
    ensures PackAll([]) == [] && TotalLength([]) == 0
  {
  }

  lemma PackedIs(s: Segment)
    requires Packable(s)
    ensures s.start < 0x1_0000_0000 && |s.data| < 0x1_0000_0000
    ensures PackOne(s) == Le32(s.start) + Le32(|s.data|) + s.data
  {
  }

  /** One `fread` into guest memory. */
  method CopyIn(c: NgageCpu, a: nat, bytes: seq<Byte>)
    requires c.Valid() && a + |bytes| <= c.mem.Length
    modifies c.mem
    ensures c.mem[..] == Copied(old(c.mem[..]), a, bytes)
  {
    var k := 0;
    while k < |bytes|
      invariant k <= |bytes|
      invariant forall x :: 0 <= x < c.mem.Length ==>
                  c.mem[x] == if a <= x < a + k then bytes[x - a] else old(c.mem[x])
    {
      c.mem[a + k] := bytes[k];
      k := k + 1;
    }
  }

  /** `ngage_load_image`: file is None when it cannot be opened. The records must
      lie inside the guest window, which the source does not check. */
  method LoadImage(c: NgageCpu, file: Option<seq<Byte>>) returns (rc: int)
    requires c.Valid()
    requires file.Some? && |file.value| >= 4 ==> RecordsFit(c.mem.Length, file.value, 4, WordAt(file.value, 0))
    modifies c.mem
    ensures file.None? ==> rc == -1 && c.mem[..] == old(c.mem[..])
    ensures file.Some? ==> LoadResult(c.mem[..], rc) == Load(old(c.mem[..]), file.value)
  {
    hide Copied, WordAt;
    if file.None? || |file.value| < 4 { return -1; }
    var f := file.value;
    var n := WordAt(f, 0);
    var pos: nat, i: nat := 4, 0;
    while i < n
      invariant i <= n && pos <= |f|
      invariant RecordsFit(c.mem.Length, f, pos, n - i)
      invariant LoadRecords(c.mem[..], f, pos, n - i) == LoadRecords(old(c.mem[..]), f, 4, n)
    {
      if pos + 8 > |f| { return -1; }
      var start, len := WordAt(f, pos), WordAt(f, pos + 4);
      CopyIn(c, start, Body(f, pos + 8, len));
      if pos + 8 + len > |f| { return -1; }
      pos := pos + 8 + len;
      i := i + 1;
    }
    rc := Signed(n);
  }
}
