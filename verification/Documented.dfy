/** Behaviour that the repository's README.md describes and the code does not always show: exactly
    when it does, and an input where it does not. */
module Documented {
  import opened Text
  import opened PeFormat
  import opened PePrefix
  import opened Memory
  import opened Classify
  import opened ReasonLists
  import opened Signals
  import opened Scan
  import opened Walk

  predicate Reports(w: World, pid: nat, r: Region, overlay: nat, x: string) {
    Finding(w, pid, r, overlay).Some? && x in Finding(w, pid, r, overlay).value.reasons
  }

  lemma ReportsReason(w: World, pid: nat, r: Region, overlay: nat, x: string)
    ensures Reports(w, pid, r, overlay, x) <==>
            x in Reasons(w, r, LayoutOf(w, r.allocationBase), w.mappedPath(r.base), overlay)
  {
    hide Finding, Reasons, LayoutOf, HeadIsPe, RegionEntropy, RegionOverlay, RegionMetadata, RegionThreads, SectionOf;
    hide ModulePath, ProtectToString, SectionFlags, TypeToString, ShownAtBase, AtImageBase;
    FindingShows(w, pid, r, overlay);
  }

  /** What no visited region is reported for stands in no finding of the scan. */
  lemma {:induction false} NotReported(w: World, pid: nat, rs: seq<Region>, cache: map<string, nat>, x: string)
    requires forall i, overlay | 0 <= i < |rs| :: !Reports(w, pid, rs[i], overlay, x)
    ensures forall a | a in CachedScan(w, NO_OPTIONS, pid, rs, cache) :: x !in a.reasons
    decreases rs
  {
    hide Reports, Emitted, LooksUp, CachedOverlay, UpdatedCache;
    if rs != [] {
      var r, mapped := rs[0], w.mappedPath(rs[0].base);
      var looked := LooksUp(w, NO_OPTIONS, r);
      var overlay := if looked then CachedOverlay(w.files, cache, mapped) else 0;
      EmittedReports(w, pid, r, overlay, x);
      NotReported(w, pid, rs[1..], if looked then UpdatedCache(w.files, cache, mapped) else cache, x);
    }
  }

  lemma EmittedReports(w: World, pid: nat, r: Region, overlay: nat, x: string)
    ensures forall a | a in Emitted(w, NO_OPTIONS, pid, r, overlay) :: x in a.reasons ==> Reports(w, pid, r, overlay, x)
  {
    hide Finding, Suppressed;
  }

  // ----- worlds to fail in

  const NO_OPTIONS := Options([], [], [])

  /** A free page. */
  const FREE := Region(0, 0, 0x1000, 0x10000, 0x01, 0)

  /** One region for each page from address 0 on. */
  predicate ArePages(rs: seq<Region>) {
    |rs| <= 0x10000 && forall i | 0 <= i < |rs| :: rs[i].base == 0x1000 * i && rs[i].size == 0x1000
  }

  function PageAt(rs: seq<Region>, p: U64): Option<Region> {
    if p / 0x1000 < |rs| then Some(rs[p / 0x1000]) else None
  }

  /** A process of these pages, with one content of memory, one file and one entropy. */
  function SmallWorld(rs: seq<Region>, head: Bytes, disk: Bytes, entropy: real): World
    requires ArePages(rs)
  {
    World("p", 0x1000 * |rs|, (p: U64) => PageAt(rs, p), b => "f", (b, n) => head, true, [], [],
          FileSystem(path => Some(|disk|), (path, n) => disk, s => s, (s, pattern) => false, s => s, counts => entropy))
  }

  lemma {:induction false} PagesVisited(w: World, rs: seq<Region>, i: nat)
    requires ArePages(rs) && i <= |rs| && w.maxAddr == 0x1000 * |rs|
    requires forall p: U64 :: w.query(p) == PageAt(rs, p)
    ensures Visited(w, 0x1000 * i) == rs[i..]
    decreases |rs| - i
  {
    hide Visited;
    VisitedStep(w, 0x1000 * i);
    if i < |rs| {
      PagesVisited(w, rs, i + 1);
      assert (0x1000 * i) / 0x1000 == i;
      assert rs[i..] == [rs[i]] + rs[i + 1..];
    }
  }

  lemma SmallVisited(rs: seq<Region>, head: Bytes, disk: Bytes, entropy: real)
    requires ArePages(rs)
    ensures Visited(SmallWorld(rs, head, disk, entropy), 0) == rs
  {
    hide Visited, PageAt;
    PagesVisited(SmallWorld(rs, head, disk, entropy), rs, 0);
    assert rs[0..] == rs;
  }

  /** No finding of the scan of a small world has this reason. */
  predicate NeverInReport(rs: seq<Region>, head: Bytes, disk: Bytes, entropy: real, x: string)
    requires ArePages(rs)
  {
    forall a | a in Output(SmallWorld(rs, head, disk, entropy), NO_OPTIONS, 1) :: x !in a.reasons
  }

  lemma SmallNotReported(rs: seq<Region>, head: Bytes, disk: Bytes, entropy: real, x: string)
    requires ArePages(rs)
    requires forall i, overlay | 0 <= i < |rs| :: !Reports(SmallWorld(rs, head, disk, entropy), 1, rs[i], overlay, x)
    ensures NeverInReport(rs, head, disk, entropy, x)
  {
    hide Visited, CachedScan, Reports, SmallWorld;
    SmallVisited(rs, head, disk, entropy);
    NotReported(SmallWorld(rs, head, disk, entropy), 1, rs, map[], x);
  }

  // ----- ImageHeaderNotMZ

  lemma NotMzExact(w: World, pid: nat, r: Region, overlay: nat)
    ensures Reports(w, pid, r, overlay, HEADER_NOT_MZ) <==> AtImageBase(r) && Readable(r.protect) && !HeadIsPe(w, r)
  {
    hide *;
    ReportsReason(w, pid, r, overlay, HEADER_NOT_MZ);
    Lengths();
    InBaseOf(w, r, LayoutOf(w, r.allocationBase), w.mappedPath(r.base), overlay, HEADER_NOT_MZ);
  }

  /** The first readable region of its image allocation, among the visited ones. */
  predicate FirstReadable(rs: seq<Region>, i: nat)
    requires i < |rs|
  {
    && IsImage(rs[i]) && Readable(rs[i].protect)
    && forall j | 0 <= j < i && rs[j].allocationBase == rs[i].allocationBase :: !Readable(rs[j].protect)
  }

  /** "The first readable region of an image allocation does not expose an MZ/PE header." */
  predicate DocumentedNotMz(w: World, rs: seq<Region>, i: nat)
    requires i < |rs|
  {
    FirstReadable(rs, i) && !HeadIsPe(w, rs[i])
  }

  /** The code means the region at the allocation base instead. */
  lemma NotMzAsDocumentedIff(w: World, pid: nat, rs: seq<Region>, i: nat, overlay: nat)
    requires i < |rs|
    ensures (Reports(w, pid, rs[i], overlay, HEADER_NOT_MZ) <==> DocumentedNotMz(w, rs, i)) <==>
            || !IsImage(rs[i]) || !Readable(rs[i].protect) || HeadIsPe(w, rs[i])
            || (rs[i].base == rs[i].allocationBase <==> FirstReadable(rs, i))
  {
    hide Reports, HeadIsPe, Readable;
    NotMzExact(w, pid, rs[i], overlay);
  }

  const HIDDEN_BASE := [
    FREE,
    Region(0x1000, 0x1000, 0x1000, MEM_COMMIT, 0x01, MEM_IMAGE),
    Region(0x2000, 0x1000, 0x1000, MEM_COMMIT, 0x02, MEM_IMAGE)]

  /** Behind a base page that cannot be read, a readable page without a header is not reported. */
  lemma SecondPageIsMissed()
    ensures var w := SmallWorld(HIDDEN_BASE, [], [], 0.0);
            Visited(w, 0) == HIDDEN_BASE && DocumentedNotMz(w, HIDDEN_BASE, 2)
    ensures NeverInReport(HIDDEN_BASE, [], [], 0.0, HEADER_NOT_MZ)
  {
    hide Reports, PeOf, Visited, NeverInReport;
    var w := SmallWorld(HIDDEN_BASE, [], [], 0.0);
    SmallVisited(HIDDEN_BASE, [], [], 0.0);
    forall i, overlay | 0 <= i < 3
      ensures !Reports(w, 1, HIDDEN_BASE[i], overlay, HEADER_NOT_MZ)
    {
      NotMzExact(w, 1, HIDDEN_BASE[i], overlay);
    }
    SmallNotReported(HIDDEN_BASE, [], [], 0.0, HEADER_NOT_MZ);
  }

  // ----- ImageHeaderMismatch

  function DiskHead(w: World, r: Region): (d: Bytes)
    ensures |d| <= 4096
  {
    ReadFilePrefix(w.files, w.mappedPath(r.base), 4096)
  }

  /** An image with a PE header whose mapped file can be read. */
  predicate Comparable(w: World, r: Region) {
    AtImageBase(r) && HeadIsPe(w, r) && w.mappedPath(r.base) != "" && DiskHead(w, r) != []
  }

  predicate SameIdentity(w: World, r: Region) { SamePeIdentity(Pe(w.files, Head(w, r)), Pe(w.files, DiskHead(w, r))) }

  /** "The in-memory PE identity differs from the mapped file on disk." */
  predicate DocumentedMismatch(w: World, r: Region) { Comparable(w, r) && !SameIdentity(w, r) }

  /** The same, read as any difference between the two headers. */
  predicate DifferingBytes(w: World, r: Region) { Comparable(w, r) && Head(w, r) != DiskHead(w, r) }

  predicate DiskIsPe(w: World, r: Region) { Pe(w.files, DiskHead(w, r)).valid }

  predicate Managed(w: World, r: Region) { Pe(w.files, Head(w, r)).hasClr || Pe(w.files, DiskHead(w, r)).hasClr }

  lemma MismatchIs(w: World, r: Region)
    ensures AtImageBase(r) && HeadIsPe(w, r) && HeaderDiffers(w.files, Head(w, r), w.mappedPath(r.base)) <==>
            DocumentedMismatch(w, r) && DiskIsPe(w, r) && !Managed(w, r)
    ensures Comparable(w, r) && Head(w, r) == DiskHead(w, r) ==> SameIdentity(w, r)
  {
    hide PeOf, Head;
  }

  /** The code compares machine, section count, magic, timestamp, characteristics and subsystem; it
      leaves out managed images and files that are no PE. */
  lemma MismatchAsDocumentedIff(w: World, pid: nat, r: Region, overlay: nat)
    ensures Reports(w, pid, r, overlay, HEADER_MISMATCH) <==>
            DocumentedMismatch(w, r) && DiskIsPe(w, r) && !Managed(w, r)
    ensures (Reports(w, pid, r, overlay, HEADER_MISMATCH) <==> DocumentedMismatch(w, r)) <==>
            !DocumentedMismatch(w, r) || (DiskIsPe(w, r) && !Managed(w, r))
  {
    hide *;
    ReportsReason(w, pid, r, overlay, HEADER_MISMATCH);
    Lengths();
    InBaseOf(w, r, LayoutOf(w, r.allocationBase), w.mappedPath(r.base), overlay, HEADER_MISMATCH);
    MismatchIs(w, r);
  }

  /** Read as any difference, the documentation also covers the fields that are not compared. */
  lemma DifferingBytesIff(w: World, pid: nat, r: Region, overlay: nat)
    ensures (Reports(w, pid, r, overlay, HEADER_MISMATCH) <==> DifferingBytes(w, r)) <==>
            !DifferingBytes(w, r) || (DiskIsPe(w, r) && !Managed(w, r) && !SameIdentity(w, r))
  {
    hide Reports, SameIdentity, DiskIsPe, Managed, Comparable, Head, DiskHead;
    MismatchAsDocumentedIff(w, pid, r, overlay);
    MismatchIs(w, r);
  }

  /** The headers of a small PE32 image with this timestamp and checksum; managed when `clr` is set. */
  function SmallImage(stamp: Byte, checksum: Byte, clr: Byte): (d: Bytes)
    ensures |d| == 320
  {
    seq(320, i =>
      if i == 0 then 0x4D else if i == 1 then 0x5A else if i == 60 then 64
      else if i == 64 then 0x50 else if i == 65 then 0x45
      else if i == 72 then stamp else if i == 84 then 224
      else if i == 88 then 0x0b else if i == 89 then 0x01
      else if i == 152 then checksum
      else if i == 180 then 16 else if i == 296 then clr else if i == 300 then clr else 0)
  }

  lemma SmallImageIsPe(stamp: Byte, checksum: Byte, clr: Byte)
    ensures var d := SmallImage(stamp, checksum, clr);
            && IsPe(d) && HasMagic(d) && OptionalOffset(d) == 88
            && U16At(d, 88) == 0x10b && U32At(d, 72) == stamp && FileOffset(d) == 68
            && U16At(d, 68) == 0 && U16At(d, 70) == 0 && U16At(d, 86) == 0 && U16At(d, 156) == 0
            && U32At(d, 180) == 16 && U32At(d, 296) == clr && U32At(d, 300) == clr
  {
    hide SmallImage, HasMagic;
    SmallBytes(stamp, checksum, clr);
    var d := SmallImage(stamp, checksum, clr);
    assert U16At(d, 0) == 0x5A4D && U32At(d, 60) == 64 && U32At(d, 64) == 0x4550;
    assert IsPe(d) && FileOffset(d) == 68;
    assert U16At(d, 84) == 224;
    SmallMagic(d);
  }

  lemma SmallMagic(d: Bytes)
    requires |d| == 320 && IsPe(d) && U32At(d, 60) == 64 && U16At(d, 84) == 224
    ensures HasMagic(d) && OptionalOffset(d) == 88
  {
    hide U16At, U32At;
  }

  lemma SmallBytes(stamp: Byte, checksum: Byte, clr: Byte)
    ensures var d := SmallImage(stamp, checksum, clr);
            && d[0] == 0x4D && d[1] == 0x5A && d[60] == 64 && d[61] == d[62] == d[63] == 0
            && d[64] == 0x50 && d[65] == 0x45 && d[66] == d[67] == d[68] == d[69] == d[70] == d[71] == 0
            && d[72] == stamp && d[73] == d[74] == d[75] == 0 && d[84] == 224 && d[85] == d[86] == d[87] == 0
            && d[88] == 0x0b && d[89] == 1 && d[152] == checksum && d[156] == d[157] == 0
            && d[180] == 16 && d[181] == d[182] == d[183] == 0
            && d[296] == clr && d[297] == d[298] == d[299] == 0 && d[300] == clr && d[301] == d[302] == d[303] == 0
  {
  }

  lemma SmallImageParses(stamp: Byte, checksum: Byte, clr: Byte, entropy: seq<nat> -> real)
    ensures var pe := PeOf(SmallImage(stamp, checksum, clr), entropy);
            && pe.valid && (pe.hasClr <==> clr != 0)
            && pe.machine == 0 && pe.sections == 0 && pe.optionalMagic == 0x10b && pe.timestamp == stamp
            && pe.characteristics == 0 && pe.subsystem == 0
  {
    hide IsPe, HasMagic, SmallImage, PeOf, U32At, U16At, U64At, SectionTable, RawEnd;
    var d := SmallImage(stamp, checksum, clr);
    SmallImageIsPe(stamp, checksum, clr);
    ParsedParts(d, entropy);
    var q := WithOptional(d, FileHeader(d));
    assert q.hasClr <==> clr != 0;
    assert q.timestamp == stamp && q.optionalMagic == 0x10b;
  }

  const BASE_PAGE := Region(0x1000, 0x1000, 0x1000, MEM_COMMIT, 0x02, MEM_IMAGE)

  const ONE_IMAGE := [FREE, BASE_PAGE]

  lemma SmallHead(head: Bytes, disk: Bytes)
    requires 0x100 <= |head| <= 4096 && |disk| <= 4096
    ensures var w := SmallWorld(ONE_IMAGE, head, disk, 0.0);
            && Visited(w, 0) == ONE_IMAGE
            && Head(w, BASE_PAGE) == head && DiskHead(w, BASE_PAGE) == disk
            && (Comparable(w, BASE_PAGE) <==> Pe(w.files, head).valid && disk != [])
  {
    hide PeOf, Visited;
    SmallVisited(ONE_IMAGE, head, disk, 0.0);
  }

  /** When the image is not reported, neither is anything else. */
  lemma OneImageNotReported(head: Bytes, disk: Bytes)
    requires var w := SmallWorld(ONE_IMAGE, head, disk, 0.0);
             !(DocumentedMismatch(w, BASE_PAGE) && DiskIsPe(w, BASE_PAGE) && !Managed(w, BASE_PAGE))
    ensures NeverInReport(ONE_IMAGE, head, disk, 0.0, HEADER_MISMATCH)
  {
    hide Reports, NeverInReport, SameIdentity, DiskIsPe, Managed, SmallWorld, HeadIsPe;
    var w := SmallWorld(ONE_IMAGE, head, disk, 0.0);
    forall i, overlay | 0 <= i < 2
      ensures !Reports(w, 1, ONE_IMAGE[i], overlay, HEADER_MISMATCH)
    {
      MismatchAsDocumentedIff(w, 1, ONE_IMAGE[i], overlay);
    }
    SmallNotReported(ONE_IMAGE, head, disk, 0.0, HEADER_MISMATCH);
  }

  /** A managed image whose timestamp was changed in memory is not reported. */
  lemma ManagedMismatchIsMissed()
    ensures var w := SmallWorld(ONE_IMAGE, SmallImage(1, 0, 1), SmallImage(2, 0, 1), 0.0);
            Visited(w, 0) == ONE_IMAGE && DocumentedMismatch(w, BASE_PAGE) && DiskIsPe(w, BASE_PAGE)
    ensures NeverInReport(ONE_IMAGE, SmallImage(1, 0, 1), SmallImage(2, 0, 1), 0.0, HEADER_MISMATCH)
  {
    hide PeOf, SmallImage, SmallWorld, Head, DiskHead, Comparable, Visited, NeverInReport;
    var w := SmallWorld(ONE_IMAGE, SmallImage(1, 0, 1), SmallImage(2, 0, 1), 0.0);
    SmallHead(SmallImage(1, 0, 1), SmallImage(2, 0, 1));
    SmallImageParses(1, 0, 1, w.files.entropy);
    SmallImageParses(2, 0, 1, w.files.entropy);
    OneImageNotReported(SmallImage(1, 0, 1), SmallImage(2, 0, 1));
  }

  /** An image whose file was overwritten with something else is not reported. */
  lemma JunkFileIsMissed()
    ensures var w := SmallWorld(ONE_IMAGE, SmallImage(1, 0, 0), [0x58], 0.0);
            Visited(w, 0) == ONE_IMAGE && DocumentedMismatch(w, BASE_PAGE) && !Managed(w, BASE_PAGE)
    ensures NeverInReport(ONE_IMAGE, SmallImage(1, 0, 0), [0x58], 0.0, HEADER_MISMATCH)
  {
    hide PeOf, SmallImage, SmallWorld, Head, DiskHead, Comparable, Visited, NeverInReport;
    var w := SmallWorld(ONE_IMAGE, SmallImage(1, 0, 0), [0x58], 0.0);
    SmallHead(SmallImage(1, 0, 0), [0x58]);
    SmallImageParses(1, 0, 0, w.files.entropy);
    JunkIsNoPe(w.files.entropy);
    OneImageNotReported(SmallImage(1, 0, 0), [0x58]);
  }

  lemma JunkIsNoPe(entropy: seq<nat> -> real)
    ensures PeOf([0x58], entropy) == NO_PE
  {
  }

  /** A native image whose header differs outside the six fields is not reported. */
  lemma ChecksumIsNotCompared()
    ensures var w := SmallWorld(ONE_IMAGE, SmallImage(1, 0, 0), SmallImage(1, 9, 0), 0.0);
            && Visited(w, 0) == ONE_IMAGE && DifferingBytes(w, BASE_PAGE)
            && DiskIsPe(w, BASE_PAGE) && !Managed(w, BASE_PAGE)
    ensures NeverInReport(ONE_IMAGE, SmallImage(1, 0, 0), SmallImage(1, 9, 0), 0.0, HEADER_MISMATCH)
  {
    hide PeOf, SmallImage, SmallWorld, Head, DiskHead, Comparable, Visited, NeverInReport;
    var w := SmallWorld(ONE_IMAGE, SmallImage(1, 0, 0), SmallImage(1, 9, 0), 0.0);
    SmallHead(SmallImage(1, 0, 0), SmallImage(1, 9, 0));
    SmallImageParses(1, 0, 0, w.files.entropy);
    SmallImageParses(1, 9, 0, w.files.entropy);
    ChecksumsDiffer();
    OneImageNotReported(SmallImage(1, 0, 0), SmallImage(1, 9, 0));
  }

  lemma ChecksumsDiffer()
    ensures SmallImage(1, 0, 0) != SmallImage(1, 9, 0)
  {
    SmallBytes(1, 0, 0);
    SmallBytes(1, 9, 0);
  }

  // ----- HighEntropyExecutable

  /** "Executable bytes in an already suspicious region": the first reason is another one. In a
      finding with the reason this fails exactly for a private region that is executable, not
      writable and without a PE header. */
  lemma EntropyAsDocumentedIff(w: World, pid: nat, r: Region, overlay: nat)
    requires Reports(w, pid, r, overlay, HIGH_ENTROPY)
    ensures Finding(w, pid, r, overlay).value.reasons[0] != HIGH_ENTROPY <==>
            !IsPrivate(r) || HasWriteExec(r.protect) || HeadIsPe(w, r)
  {
    hide *;
    ReportsReason(w, pid, r, overlay, HIGH_ENTROPY);
    FirstOf(w, pid, r, overlay);
    Lengths();
    var layout, mapped := LayoutOf(w, r.allocationBase), w.mappedPath(r.base);
    EntropyFirstIff(w, r, layout, mapped, overlay);
    BaseHasNoContext(w, r, layout, mapped);
    InReasons(w, r, layout, mapped, overlay, HIGH_ENTROPY);
  }

  lemma FirstOf(w: World, pid: nat, r: Region, overlay: nat)
    requires Reports(w, pid, r, overlay, HIGH_ENTROPY)
    ensures Finding(w, pid, r, overlay).Some? && Finding(w, pid, r, overlay).value.reasons != []
    ensures Finding(w, pid, r, overlay).value.reasons ==
            Reasons(w, r, LayoutOf(w, r.allocationBase), w.mappedPath(r.base), overlay)
  {
    hide Finding, Reasons, LayoutOf, HeadIsPe, RegionEntropy, RegionOverlay, RegionMetadata, RegionThreads, SectionOf;
    hide ModulePath, ProtectToString, SectionFlags, TypeToString, ShownAtBase, AtImageBase;
    FindingShows(w, pid, r, overlay);
  }

  const CODE_PAGE := Region(0x1000, 0x1000, 0x1000, MEM_COMMIT, 0x20, MEM_PRIVATE)

  /** A process with one private executable page, one packed byte and nothing else is reported for
      its entropy. */
  lemma EntropyAlone()
    ensures var w := SmallWorld([FREE, CODE_PAGE], [0x90], [], 8.0);
            && |Output(w, NO_OPTIONS, 1)| == 1
            && Output(w, NO_OPTIONS, 1)[0].reasons != [] && Output(w, NO_OPTIONS, 1)[0].reasons[0] == HIGH_ENTROPY
  {
    hide Visited, SmallWorld, Emitted, LooksUp;
    var rs := [FREE, CODE_PAGE];
    var w := SmallWorld(rs, [0x90], [], 8.0);
    SmallVisited(rs, [0x90], [], 8.0);
    FreePageIsSkipped(w);
    CodePageFinding(w);
    var items := Emitted(w, NO_OPTIONS, 1, CODE_PAGE, 0);
    assert rs[1..] == [CODE_PAGE] && [CODE_PAGE][1..] == [];
    assert CachedScan(w, NO_OPTIONS, 1, [CODE_PAGE], map[]) == items + [];
    assert CachedScan(w, NO_OPTIONS, 1, rs, map[]) == [] + CachedScan(w, NO_OPTIONS, 1, [CODE_PAGE], map[]);
    assert Output(w, NO_OPTIONS, 1) == items;
  }

  lemma FreePageIsSkipped(w: World)
    ensures !LooksUp(w, NO_OPTIONS, FREE) && Emitted(w, NO_OPTIONS, 1, FREE, 0) == []
  {
  }

  lemma CodePageFinding(w: World)
    requires w == SmallWorld([FREE, CODE_PAGE], [0x90], [], 8.0)
    ensures !LooksUp(w, NO_OPTIONS, CODE_PAGE)
    ensures var items := Emitted(w, NO_OPTIONS, 1, CODE_PAGE, 0);
            |items| == 1 && items[0].reasons != [] && items[0].reasons[0] == HIGH_ENTROPY
  {
    hide Reports, Finding, PeOf, Reasons, LayoutOf, BaseReasons, Histogram, Suppressed;
    var layout, mapped := LayoutOf(w, CODE_PAGE.allocationBase), w.mappedPath(CODE_PAGE.base);
    assert RegionEntropy(w, CODE_PAGE) == 8.0 && !HeadIsPe(w, CODE_PAGE);
    EntropyFirstIff(w, CODE_PAGE, layout, mapped, 0);
    ReportsReason(w, 1, CODE_PAGE, 0, HIGH_ENTROPY);
    FirstOf(w, 1, CODE_PAGE, 0);
    NothingSuppressed(w, 1, CODE_PAGE, 0);
  }

  lemma NothingSuppressed(w: World, pid: nat, r: Region, overlay: nat)
    requires r.state == MEM_COMMIT && Finding(w, pid, r, overlay).Some?
    ensures Emitted(w, NO_OPTIONS, pid, r, overlay) == [Finding(w, pid, r, overlay).value]
  {
    hide Finding;
  }
}
