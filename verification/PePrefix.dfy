/** Reading more bytes of the same file: what a parse of the shorter buffer already fixes. */
module PePrefix {
  import opened PeFormat
  import opened PeParse

  lemma SameReads(a: Bytes, b: Bytes, o: nat)
    requires a <= b
    ensures o + 2 <= |a| ==> U16At(a, o) == U16At(b, o)
    ensures o + 4 <= |a| ==> U32At(a, o) == U32At(b, o)
    ensures o + 8 <= |a| ==> U64At(a, o) == U64At(b, o)
  {
  }

  lemma SameHeader(a: Bytes, b: Bytes)
    requires a <= b && IsPe(a)
    ensures IsPe(b) && FileHeader(a) == FileHeader(b)
    ensures OptionalOffset(a) == OptionalOffset(b) && OptionalSize(a) == OptionalSize(b)
    ensures HasMagic(a) ==> HasMagic(b)
  {
    hide U16At, U32At;
    SameReads(a, b, 0);
    SameReads(a, b, 60);
    var nt := U32At(a, 60);
    SameReads(a, b, nt);
    SameReads(a, b, nt + 4);
    SameReads(a, b, nt + 6);
    SameReads(a, b, nt + 8);
    SameReads(a, b, nt + 20);
    SameReads(a, b, nt + 22);
  }

  /** The buffer holds the whole optional header that its magic announces. */
  predicate HasFullOptional(d: Bytes)
    requires IsPe(d) && HasMagic(d)
  {
    var o := OptionalOffset(d);
    || (U16At(d, o) == 0x10b && o + OPTIONAL32_SIZE <= |d|)
    || (U16At(d, o) == 0x20b && o + OPTIONAL64_SIZE <= |d|)
  }

  /** Otherwise nothing but the magic is taken from it. */
  lemma PartialOptional(d: Bytes, pe: PeQuick)
    requires IsPe(d) && HasMagic(d) && !HasFullOptional(d)
    ensures WithOptional(d, pe) == pe.(optionalMagic := U16At(d, OptionalOffset(d)))
  {
    hide U16At, U32At, IsPe, HasMagic;
  }

  lemma SameFields(a: Bytes, b: Bytes, pe: PeQuick, o: nat, dir: nat, is64: bool, imageBase: U64)
    requires a <= b && o + 72 <= dir - 4 && dir + 128 <= |a|
    ensures OptionalFields(a, pe, o, dir, is64, imageBase) == OptionalFields(b, pe, o, dir, is64, imageBase)
  {
    hide U16At, U32At;
    SameReads(a, b, dir - 4);
    SameReads(a, b, o + 16);
    SameReads(a, b, o + 56);
    SameReads(a, b, o + 64);
    SameReads(a, b, o + 68);
    SameReads(a, b, dir);
    SameReads(a, b, dir + 4);
    SameReads(a, b, dir + 8);
    SameReads(a, b, dir + 12);
    SameReads(a, b, dir + 112);
    SameReads(a, b, dir + 116);
  }

  lemma SameOptional(a: Bytes, b: Bytes, pe: PeQuick)
    requires a <= b && IsPe(a) && HasMagic(a)
    ensures IsPe(b) && HasMagic(b)
    ensures WithOptional(a, pe).optionalMagic == WithOptional(b, pe).optionalMagic
    ensures HasFullOptional(a) ==> WithOptional(a, pe) == WithOptional(b, pe)
  {
    hide U16At, U32At, U64At, IsPe, OptionalFields;
    SameHeader(a, b);
    var o := OptionalOffset(a);
    SameReads(a, b, o);
    OptionalKeepsMagic(a, pe);
    OptionalKeepsMagic(b, pe);
    if HasFullOptional(a) {
      SameReads(a, b, o + 28);
      SameReads(a, b, o + 24);
      var p := pe.(optionalMagic := U16At(a, o));
      if U16At(a, o) == 0x10b {
        SameFields(a, b, p, o, o + 96, false, U32At(a, o + 28));
      } else {
        SameFields(a, b, p, o, o + 112, true, U64At(a, o + 24));
      }
    }
  }

  lemma OptionalKeepsMagic(d: Bytes, pe: PeQuick)
    requires IsPe(d) && HasMagic(d)
    ensures WithOptional(d, pe).optionalMagic == U16At(d, OptionalOffset(d))
    ensures WithOptional(d, pe).machine == pe.machine && WithOptional(d, pe).sections == pe.sections
    ensures WithOptional(d, pe).timestamp == pe.timestamp && WithOptional(d, pe).characteristics == pe.characteristics
    ensures WithOptional(d, pe).valid == pe.valid
  {
    hide U16At, U32At, U64At, IsPe, DirectoryVa, DirectorySize;
  }

  lemma {:induction false} SameSectionName(a: Bytes, b: Bytes, o: nat, n: nat)
    requires a <= b && n <= 8 && o + 8 <= |a|
    ensures SectionName(a, o, n) == SectionName(b, o, n)
    decreases 8 - n
  {
    if n < 8 {
      SameSectionName(a, b, o, n + 1);
    }
  }

  lemma SameSection(a: Bytes, b: Bytes, o: nat)
    requires a <= b && o + SECTION_SIZE <= |a|
    ensures SectionAt(a, o) == SectionAt(b, o)
  {
    hide U32At;
    SameSectionName(a, b, o, 0);
    SameReads(a, b, o + 8);
    SameReads(a, b, o + 12);
    SameReads(a, b, o + 16);
    SameReads(a, b, o + 20);
    SameReads(a, b, o + 36);
  }

  lemma {:induction false} SectionsGrow(a: Bytes, b: Bytes, o: nat, n: nat)
    requires a <= b
    ensures SectionsAt(a, o, n) <= SectionsAt(b, o, n)
    decreases n
  {
    hide SectionAt;
    if n > 0 && o + SECTION_SIZE <= |a| {
      SameSection(a, b, o);
      SectionsGrow(a, b, o + SECTION_SIZE, n - 1);
    }
  }

  lemma {:induction false} RawEndGrows(ss: seq<Section>, k: nat)
    requires k <= |ss|
    ensures RawEnd(ss[..k]) <= RawEnd(ss)
    decreases |ss| - k
  {
    hide RawEnd;
    if k == |ss| {
      assert ss[..k] == ss;
    } else {
      RawEndStep(ss, k);
      RawEndGrows(ss, k + 1);
    }
  }

  /** The sections without their entropies. */
  function Bare(ss: seq<Section>): (r: seq<Section>)
    ensures |r| == |ss|
    ensures forall i | 0 <= i < |ss| :: r[i] == ss[i].(entropy := -1.0)
  {
    seq(|ss|, i requires 0 <= i < |ss| => ss[i].(entropy := -1.0))
  }

  lemma {:induction false} SectionsStartBare(d: Bytes, o: nat, n: nat)
    ensures Bare(SectionsAt(d, o, n)) == SectionsAt(d, o, n)
    decreases n
  {
    hide U32At, SectionName;
    if n > 0 && o + SECTION_SIZE <= |d| {
      SectionsStartBare(d, o + SECTION_SIZE, n - 1);
      forall i | 0 <= i < |SectionsAt(d, o, n)|
        ensures SectionsAt(d, o, n)[i].entropy == -1.0
      {
        if i > 0 {
          assert SectionsAt(d, o, n)[i] == SectionsAt(d, o + SECTION_SIZE, n - 1)[i - 1];
          assert Bare(SectionsAt(d, o + SECTION_SIZE, n - 1))[i - 1].entropy == -1.0;
        }
      }
    }
  }

  /** A parsed image with its optional header: the fields taken from it, its sections, its raw end. */
  lemma ParsedParts(d: Bytes, entropy: seq<nat> -> real)
    requires |d| <= MAX_SIZE && IsPe(d) && HasMagic(d)
    ensures var pe, q := PeOf(d, entropy), WithOptional(d, FileHeader(d));
            && Bare(pe.sectionTable) == SectionTable(d)
            && pe.rawImageEnd == RawEnd(SectionTable(d))
            && pe.(sectionTable := [], rawImageEnd := 0, overlaySize := 0, imports := [], exports := []) ==
               q.(sectionTable := [], rawImageEnd := 0, overlaySize := 0, imports := [], exports := [])
  {
    hide IsPe, SectionsAt, WithOptional, Imports, Exports, RawEnd, SectionEntropy, FileHeader, HasMagic;
    NtInside(d);
    SectionsStartBare(d, OptionalOffset(d) + OptionalSize(d), Min(U16At(d, FileOffset(d) + 2), 96));
    var table := SectionTable(d);
    forall i | 0 <= i < |table|
      ensures Bare(WithEntropies(d, table, entropy))[i] == table[i]
    {
      assert Bare(table)[i] == table[i];
    }
    assert Bare(WithEntropies(d, table, entropy)) == table;
  }

  /** If the shorter buffer parses, the longer one does, with the same header; what the shorter saw
      of the optional header is unchanged; sections are only added; the raw end does not decrease. */
  lemma PrefixMonotone(a: Bytes, b: Bytes, entropy: seq<nat> -> real)
    requires a <= b && |b| <= MAX_SIZE && PeOf(a, entropy).valid
    ensures var p, q := PeOf(a, entropy), PeOf(b, entropy);
            && q.valid && p.machine == q.machine && p.sections == q.sections
            && p.timestamp == q.timestamp && p.characteristics == q.characteristics
            && (HasMagic(a) ==> p.optionalMagic == q.optionalMagic)
            && (HasMagic(a) && HasFullOptional(a) ==>
                  && p.is64 == q.is64 && p.hasClr == q.hasClr && p.subsystem == q.subsystem
                  && p.entryRva == q.entryRva && p.sizeOfImage == q.sizeOfImage && p.checksum == q.checksum
                  && p.imageBase == q.imageBase && p.importRva == q.importRva && p.importSize == q.importSize
                  && p.exportRva == q.exportRva && p.exportSize == q.exportSize)
            && Bare(p.sectionTable) <= Bare(q.sectionTable)
            && p.rawImageEnd <= q.rawImageEnd
  {
    hide IsPe, SectionsAt, WithOptional, RawEnd, HasMagic, HasFullOptional, PeOf, FileHeader, U16At, U32At;
    hide SectionTable;
    ValidIsPe(a, entropy);
    SameHeader(a, b);
    HeaderOnly(a, entropy);
    HeaderOnly(b, entropy);
    if HasMagic(a) {
      ParsedParts(a, entropy);
      ParsedParts(b, entropy);
      SameOptional(a, b, FileHeader(a));
      SectionTableGrows(a, b);
      var k := |SectionTable(a)|;
      assert SectionTable(a) == SectionTable(b)[..k];
      RawEndGrows(SectionTable(b), k);
    }
  }

  lemma ValidIsPe(d: Bytes, entropy: seq<nat> -> real)
    requires |d| <= MAX_SIZE
    ensures PeOf(d, entropy).valid ==> IsPe(d)
  {
    hide IsPe, HasMagic, FileHeader;
  }

  lemma SectionTableGrows(a: Bytes, b: Bytes)
    requires a <= b && IsPe(a) && IsPe(b)
    ensures SectionTable(a) <= SectionTable(b)
  {
    hide IsPe, SectionsAt, U16At, U32At;
    SameHeader(a, b);
    SameReads(a, b, FileOffset(a) + 2);
    SameSectionCount(a, b);
    SectionsGrow(a, b, OptionalOffset(a) + OptionalSize(a), Min(U16At(a, FileOffset(a) + 2), 96));
  }

  lemma SameSectionCount(a: Bytes, b: Bytes)
    requires a <= b && IsPe(a) && IsPe(b)
    ensures FileOffset(a) == FileOffset(b) && FileOffset(a) + 4 <= |a|
    ensures U16At(a, FileOffset(a) + 2) == U16At(b, FileOffset(b) + 2)
  {
    hide U16At, U32At;
    SameReads(a, b, 60);
    SameReads(a, b, U32At(a, 60) + 6);
  }

  /** The file header fields survive every later step; without a magic there is nothing else. */
  lemma HeaderOnly(d: Bytes, entropy: seq<nat> -> real)
    requires |d| <= MAX_SIZE && IsPe(d)
    ensures var p, h := PeOf(d, entropy), FileHeader(d);
            && p.valid && p.machine == h.machine && p.sections == h.sections
            && p.timestamp == h.timestamp && p.characteristics == h.characteristics
            && (!HasMagic(d) ==> p.sectionTable == [] && p.rawImageEnd == 0)
  {
    hide IsPe, SectionsAt, WithOptional, Imports, Exports, RawEnd, SectionEntropy, HasMagic, U16At, U32At;
    if HasMagic(d) {
      OptionalKeepsMagic(d, FileHeader(d));
    }
  }

  // ----- raw data

  /** The raw end is the largest end of a section with raw bytes. */
  lemma {:induction false} RawEndIsLargest(ss: seq<Section>)
    ensures forall i | 0 <= i < |ss| && ss[i].rawSize != 0 :: ss[i].rawOffset + ss[i].rawSize <= RawEnd(ss)
    ensures RawEnd(ss) == 0 ||
            exists i :: 0 <= i < |ss| && ss[i].rawSize != 0 && RawEnd(ss) == ss[i].rawOffset + ss[i].rawSize
  {
    if ss != [] {
      var n := |ss| - 1;
      RawEndIsLargest(ss[..n]);
      if RawEnd(ss) == RawEnd(ss[..n]) && RawEnd(ss) != 0 {
        var i :| 0 <= i < n && ss[..n][i].rawSize != 0 && RawEnd(ss[..n]) == ss[..n][i].rawOffset + ss[..n][i].rawSize;
        assert ss[i] == ss[..n][i];
      }
      forall i | 0 <= i < n
        ensures ss[i] == ss[..n][i]
      {
      }
    }
  }

  lemma {:induction false} SectionsComplete(a: Bytes, b: Bytes, o: nat, n: nat)
    requires a <= b && o + n * SECTION_SIZE <= |a|
    ensures SectionsAt(a, o, n) == SectionsAt(b, o, n)
    decreases n
  {
    hide SectionAt;
    if n > 0 {
      SameSection(a, b, o);
      SectionsComplete(a, b, o + SECTION_SIZE, n - 1);
    }
  }

  /** The buffer holds all section headers that will be read. */
  predicate HasAllSections(d: Bytes)
    requires IsPe(d)
  {
    OptionalOffset(d) + OptionalSize(d) + Min(FileHeader(d).sections, 96) * SECTION_SIZE <= |d|
  }

  lemma RawEndComplete(a: Bytes, b: Bytes, entropy: seq<nat> -> real)
    requires a <= b && |b| <= MAX_SIZE && IsPe(a) && HasMagic(a) && HasAllSections(a)
    ensures IsPe(b) && HasMagic(b) && PeOf(a, entropy).rawImageEnd == PeOf(b, entropy).rawImageEnd
  {
    hide IsPe, SectionsAt, WithOptional, RawEnd, HasMagic, PeOf, U16At, U32At;
    SameHeader(a, b);
    ParsedParts(a, entropy);
    ParsedParts(b, entropy);
    SameSectionCount(a, b);
    SectionsComplete(a, b, OptionalOffset(a) + OptionalSize(a), Min(U16At(a, FileOffset(a) + 2), 96));
  }

  /** The overlay a full parse reports: the bytes behind the raw end. */
  lemma OverlayOfParse(d: Bytes, entropy: seq<nat> -> real)
    requires |d| <= MAX_SIZE
    ensures var pe := PeOf(d, entropy);
            pe.overlaySize == if pe.rawImageEnd != 0 && pe.rawImageEnd < |d| then |d| - pe.rawImageEnd else 0
  {
    hide IsPe, HasMagic, SectionTable, RawEnd, Imports, Exports, U16At, U32At, U64At, DirectoryVa, DirectorySize;
  }
}
