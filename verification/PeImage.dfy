/** Whole flat images given by their bytes: where the structures of the specification stand one after
    the other in a buffer, the parser reports exactly what they encode. */
module PeImage {
  import opened Text
  import opened PeFormat
  import opened PeProperties
  import opened PeFlat
  import opened PeEncoding
  import PePrefix

  // ----- headers

  datatype OptionalHeader = Small(h32: Optional32) | Large(h64: Optional64)

  datatype Headers = Headers(
    lfanew: U32,
    coff: CoffHeader,
    optional: OptionalHeader,
    directories: seq<Directory>,
    sections: seq<SectionHeader>)

  /** Where the data directories start, after the optional header at `o`. */
  function AfterOptional(o: nat, x: OptionalHeader): nat { if x.Small? then o + 96 else o + 112 }

  predicate OptionalStands(d: Bytes, o: nat, x: OptionalHeader) {
    match x
    case Small(h) => Optional32Stands(d, o, h)
    case Large(h) => Optional64Stands(d, o, h)
  }

  /** "MZ", the offset of "PE\0\0" at byte 60, the file header, the optional header with its sixteen
      directories, and the section headers where the file header says. */
  predicate HeadersStand(d: Bytes, h: Headers) {
    && 0 < h.lfanew < 0x8000_0000
    && At(d, 0, [0x4D, 0x5A]) && At(d, 60, Bytes32(h.lfanew)) && At(d, h.lfanew, [0x50, 0x45, 0, 0])
    && Stands(d, h.lfanew + 4, CoffWords(h.coff))
    && OptionalStands(d, h.lfanew + 24, h.optional)
    && |h.directories| == 16 && DirectoriesStand(d, AfterOptional(h.lfanew + 24, h.optional), h.directories)
    && h.coff.sizeOfOptionalHeader >= 2
    && |h.sections| == (if h.coff.numberOfSections <= 96 then h.coff.numberOfSections else 96)
    && forall i | 0 <= i < |h.sections| ::
         SectionStands(d, h.lfanew + 24 + h.coff.sizeOfOptionalHeader + 40 * i, h.sections[i])
  }

  function Count(x: OptionalHeader): U32 {
    match x case Small(h) => h.numberOfRvaAndSizes case Large(h) => h.numberOfRvaAndSizes
  }

  /** A directory that the count leaves out is empty. */
  function Counted(h: Headers, n: nat): Directory
    requires n < |h.directories|
  {
    if Count(h.optional) > n then h.directories[n] else Directory(0, 0)
  }

  lemma StartReads(d: Bytes, h: Headers)
    requires HeadersStand(d, h)
    ensures IsPe(d) && HasMagic(d) && OptionalOffset(d) == h.lfanew + 24
            && OptionalSize(d) == h.coff.sizeOfOptionalHeader
    ensures FileHeader(d) == NO_PE.(
              valid := true, machine := h.coff.machine, sections := h.coff.numberOfSections,
              timestamp := h.coff.timeDateStamp, characteristics := h.coff.characteristics)
    ensures FileOffset(d) == h.lfanew + 4 && U16At(d, FileOffset(d) + 2) == h.coff.numberOfSections
  {
    hide U16At, U32At, Stands, OptionalStands, DirectoriesStand, SectionStands;
    MagicReads(d);
    Reads32(d, 60, h.lfanew);
    SignatureReads(d, h.lfanew);
    CoffReads(d, h.lfanew + 4, h.coff);
    OptionalLength(d, h.lfanew + 24, h.optional);
  }

  lemma MagicReads(d: Bytes)
    requires At(d, 0, [0x4D, 0x5A])
    ensures |d| >= 2 && U16At(d, 0) == 0x5A4D
  {
    assert d[0] == d[0..2][0] && d[1] == d[0..2][1];
  }

  lemma SignatureReads(d: Bytes, o: nat)
    requires At(d, o, [0x50, 0x45, 0, 0])
    ensures o + 4 <= |d| && U32At(d, o) == 0x4550
  {
    var b := d[o..o + 4];
    assert d[o] == b[0] && d[o + 1] == b[1] && d[o + 2] == b[2] && d[o + 3] == b[3];
  }

  lemma OptionalLength(d: Bytes, o: nat, x: OptionalHeader)
    requires OptionalStands(d, o, x)
    ensures AfterOptional(o, x) <= |d|
  {
    hide Stands, U16At, U32At, U64At, Standard32Words, Image32Words, Stack32Words, Standard64Words, Image64Words;
    hide Stack64Words;
    match x
    case Small(h) => Stack32Reads(d, o, h);
    case Large(h) => Stack64Reads(d, o, h);
  }

  lemma DirectoryIs(d: Bytes, dir: nat, h: Headers, n: nat)
    requires n < 16 == |h.directories| && DirectoriesStand(d, dir, h.directories)
    ensures dir + 8 * n + 8 <= |d|
    ensures DirectoryVa(d, dir, Count(h.optional), n) == Counted(h, n).rva
    ensures DirectorySize(d, dir, Count(h.optional), n) == Counted(h, n).size
  {
    hide Stands, U32At;
    DirectoryReads(d, dir + 8 * n, h.directories[n]);
  }

  /** The fields of the optional header and the three directories that are used. */
  predicate OptionalIs(pe: PeQuick, h: Headers)
    requires |h.directories| == 16
  {
    && pe.exportRva == Counted(h, 0).rva && pe.exportSize == Counted(h, 0).size
    && pe.importRva == Counted(h, 1).rva && pe.importSize == Counted(h, 1).size
    && (pe.hasClr <==> Counted(h, 14).rva != 0 && Counted(h, 14).size != 0)
    && match h.optional
       case Small(x) =>
         && !pe.is64 && pe.optionalMagic == 0x10b && pe.entryRva == x.addressOfEntryPoint && pe.imageBase == x.imageBase
         && pe.sizeOfImage == x.sizeOfImage && pe.checksum == x.checkSum && pe.subsystem == x.subsystem
       case Large(x) =>
         && pe.is64 && pe.optionalMagic == 0x20b && pe.entryRva == x.addressOfEntryPoint && pe.imageBase == x.imageBase
         && pe.sizeOfImage == x.sizeOfImage && pe.checksum == x.checkSum && pe.subsystem == x.subsystem
  }

  lemma OptionalParses(d: Bytes, h: Headers, pe: PeQuick)
    requires HeadersStand(d, h) && IsPe(d) && HasMagic(d) && OptionalOffset(d) == h.lfanew + 24
    ensures OptionalIs(WithOptional(d, pe), h)
  {
    hide Stands, U16At, U32At, U64At, IsPe, HasMagic, OptionalOffset, DirectoriesStand, SectionStands;
    hide CoffWords, Counted;
    hide Standard32Words, Image32Words, Stack32Words, Standard64Words, Image64Words, Stack64Words, DirectoryVa;
    hide DirectorySize, At;
    var o := h.lfanew + 24;
    var dir := AfterOptional(o, h.optional);
    DirectoryIs(d, dir, h, 0);
    DirectoryIs(d, dir, h, 1);
    DirectoryIs(d, dir, h, 14);
    DirectoryIs(d, dir, h, 15);
    CountedSome(h, 14);
    match h.optional {
      case Small(x) =>
        Standard32Reads(d, o, x);
        Image32Reads(d, o, x);
        Stack32Reads(d, o, x);
      case Large(x) =>
        Standard64Reads(d, o, x);
        Image64Reads(d, o, x);
        Stack64Reads(d, o, x);
    }
  }

  lemma CountedSome(h: Headers, n: nat)
    requires n < |h.directories|
    ensures Counted(h, n).rva != 0 ==> Count(h.optional) > n
  {
  }

  lemma {:induction false} SectionsAre(d: Bytes, o: nat, hs: seq<SectionHeader>)
    requires forall i | 0 <= i < |hs| :: SectionStands(d, o + 40 * i, hs[i])
    ensures |SectionsAt(d, o, |hs|)| == |hs|
    ensures forall i | 0 <= i < |hs| :: SectionIs(SectionsAt(d, o, |hs|)[i], hs[i])
    decreases hs
  {
    hide SectionStands, SectionIs, SectionAt;
    if hs != [] {
      var rest := hs[1..];
      assert SectionStands(d, o + 40 * 0, hs[0]);
      FirstSectionIs(d, o, hs[0]);
      forall i | 0 <= i < |rest|
        ensures SectionStands(d, o + 40 + 40 * i, rest[i])
      {
        assert SectionStands(d, o + 40 * (i + 1), hs[i + 1]);
      }
      SectionsAre(d, o + 40, rest);
      forall i | 0 < i < |hs|
        ensures hs[i] == rest[i - 1]
      {
      }
    }
  }

  /** The parsed section has the name and the fields of its header. */
  predicate SectionIs(s: Section, h: SectionHeader) {
    && Shows(h.name, s.name)
    && s.virtualSize == h.virtualSize && s.virtualAddress == h.virtualAddress && s.rawSize == h.sizeOfRawData
    && s.rawOffset == h.pointerToRawData && s.characteristics == h.characteristics
  }

  lemma FirstSectionIs(d: Bytes, o: nat, h: SectionHeader)
    requires SectionStands(d, o, h)
    ensures o + 40 <= |d| && SectionIs(SectionAt(d, o), h)
  {
    hide SectionStands, SectionAt, Shows;
    SectionReads(d, o, h);
  }

  /** The parse of such an image reports the fields of its headers, each from its own place. */
  lemma HeadersParse(d: Bytes, h: Headers, entropy: seq<nat> -> real)
    requires |d| <= MAX_SIZE && HeadersStand(d, h)
    ensures var pe := PeOf(d, entropy);
            && pe.valid && pe.machine == h.coff.machine && pe.sections == h.coff.numberOfSections
            && pe.timestamp == h.coff.timeDateStamp && pe.characteristics == h.coff.characteristics
            && OptionalIs(pe, h)
            && |pe.sectionTable| == |h.sections|
            && forall i | 0 <= i < |h.sections| :: SectionIs(pe.sectionTable[i], h.sections[i])
  {
    hide PeOf, IsPe, HasMagic, WithOptional, SectionsAt, Stands, OptionalStands, DirectoriesStand;
    hide SectionStands, RawEnd;
    hide U16At, U32At, At, OptionalOffset, OptionalSize, FileOffset, CoffWords, Counted;
    StartReads(d, h);
    OptionalParses(d, h, FileHeader(d));
    PePrefix.ParsedParts(d, entropy);
    PePrefix.HeaderOnly(d, entropy);
    SectionsAre(d, h.lfanew + 24 + h.coff.sizeOfOptionalHeader, h.sections);
    var pe, q := PeOf(d, entropy), WithOptional(d, FileHeader(d));
    SameOptional(pe, q, h);
    var table := SectionTable(d);
    assert PePrefix.Bare(pe.sectionTable) == table;
    forall i | 0 <= i < |h.sections|
      ensures SectionIs(pe.sectionTable[i], h.sections[i])
    {
      assert SectionIs(table[i], h.sections[i]);
      assert table[i] == pe.sectionTable[i].(entropy := -1.0);
    }
  }

  lemma SameOptional(pe: PeQuick, q: PeQuick, h: Headers)
    requires |h.directories| == 16 && OptionalIs(q, h)
    requires pe.(sectionTable := [], rawImageEnd := 0, overlaySize := 0, imports := [], exports := []) ==
             q.(sectionTable := [], rawImageEnd := 0, overlaySize := 0, imports := [], exports := [])
    ensures OptionalIs(pe, h)
  {
    hide Counted;
    var p := pe.(sectionTable := [], rawImageEnd := 0, overlaySize := 0, imports := [], exports := []);
    assert p.hasClr == pe.hasClr && p.is64 == pe.is64 && p.imageBase == pe.imageBase;
  }

  // ----- names

  function NameBytes(s: string): (b: Bytes)
    requires forall i | 0 <= i < |s| :: ' ' <= s[i] <= '~'
    ensures |b| == |s| + 1
  {
    seq(|s|, i requires 0 <= i < |s| => s[i] as int) + [0]
  }

  /** A name of 1 to 259 printable characters, ended by a zero byte. */
  predicate NameStands(d: Bytes, o: nat, s: string) {
    1 <= |s| <= 259 && (forall i | 0 <= i < |s| :: ' ' <= s[i] <= '~') && At(d, o, NameBytes(s))
  }

  lemma NameReads(d: Bytes, o: nat, s: string)
    requires NameStands(d, o, s)
    ensures o < |d| && NamedAt(d, o, s)
  {
    var b := NameBytes(s);
    forall k: nat | k < |s|
      ensures Spells(d, o, s, k)
    {
      assert d[o + k] == d[o..o + |b|][k] == b[k];
    }
    assert d[o + |s|] == d[o..o + |b|][|s|] == b[|s|];
  }

  // ----- imports

  /** An import by name has bits above its RVA only in a 64-bit table. */
  datatype Import = Named(rva: U32, high: U32, hint: U16, name: string) | Ordinal(n: U16)

  /** An entry of the import lookup table: the top bit marks an ordinal. */
  function LookupWord(is64: bool, x: Import): Word {
    match x
    case Named(rva, high, _, _) => if is64 then W64(rva + 0x1_0000_0000 * (high % 0x8000_0000)) else W32(rva)
    case Ordinal(n) => if is64 then W64(0x8000_0000_0000_0000 + n) else W32(0x8000_0000 + n)
  }

  function ZeroWord(is64: bool): Word { if is64 then W64(0) else W32(0) }

  function Place(is64: bool, o: nat, i: nat): nat { if is64 then o + 8 * i else o + 4 * i }

  /** What an import by name points to: a hint, then the name. */
  predicate ImportStands(d: Bytes, is64: bool, x: Import) {
    match x
    case Named(rva, high, hint, name) =>
      && (if is64 then high < 0x8000_0000 else rva < 0x8000_0000) && rva > 0
      && At(d, rva, Bytes16(hint)) && NameStands(d, rva + 2, name)
    case Ordinal(_) => true
  }

  /** The lookup table: its entries, then a zero entry. */
  predicate LookupStands(d: Bytes, is64: bool, o: nat, xs: seq<Import>) {
    && (forall i | 0 <= i < |xs| :: At(d, Place(is64, o, i), WordBytes(LookupWord(is64, xs[i]))))
    && (forall i | 0 <= i < |xs| :: ImportStands(d, is64, xs[i]))
    && At(d, Place(is64, o, |xs|), WordBytes(ZeroWord(is64)))
  }

  datatype ImportedDll = ImportedDll(desc: Descriptor, name: string, imports: seq<Import>)

  /** A descriptor, its name, and its lookup table, or its address table when it has no other. */
  predicate DllStands(d: Bytes, is64: bool, o: nat, x: ImportedDll) {
    && Stands(d, o, DescriptorWords(x.desc))
    && NameStands(d, x.desc.name, x.name) && x.desc.name > 0
    && 1 <= |x.imports| <= 256
    && if x.desc.originalFirstThunk != 0 then LookupStands(d, is64, x.desc.originalFirstThunk, x.imports)
       else x.desc.firstThunk != 0 && LookupStands(d, is64, x.desc.firstThunk, x.imports)
  }

  /** The import directory table: its descriptors, then a zero one. */
  predicate TableStands(d: Bytes, is64: bool, o: nat, xs: seq<ImportedDll>) {
    && (forall i | 0 <= i < |xs| :: DllStands(d, is64, o + 20 * i, xs[i]))
    && Stands(d, o + 20 * |xs|, DescriptorWords(Descriptor(0, 0, 0, 0, 0)))
  }

  function Names(xs: seq<Import>): seq<string> {
    if xs == [] then [] else (if xs[0].Named? then [xs[0].name] else []) + Names(xs[1..])
  }

  function Ordinals(xs: seq<Import>): nat {
    if xs == [] then 0 else (if xs[0].Ordinal? then 1 else 0) + Ordinals(xs[1..])
  }

  function EntriesOf(xs: seq<Import>): (es: seq<Entry>)
    ensures |es| == |xs|
    ensures forall i | 0 <= i < |xs| :: es[i] == if xs[i].Named? then ByName(xs[i].name) else ByOrdinal
  {
    seq(|xs|, i requires 0 <= i < |xs| => if xs[i].Named? then ByName(xs[i].name) else ByOrdinal)
  }

  lemma {:induction false} EntriesCount(xs: seq<Import>)
    ensures EntryNames(EntriesOf(xs)) == Names(xs) && OrdinalCount(EntriesOf(xs)) == Ordinals(xs)
  {
    if xs != [] {
      EntriesCount(xs[1..]);
      assert EntriesOf(xs)[1..] == EntriesOf(xs[1..]);
    }
  }

  lemma LookupReads(d: Bytes, is64: bool, o: nat, x: Import)
    requires At(d, o, WordBytes(LookupWord(is64, x))) && ImportStands(d, is64, x)
    ensures FlatEntry(d, is64, o, if x.Named? then ByName(x.name) else ByOrdinal)
  {
    hide U32At, U64At, NamedAt, NameStands, Bytes32, Bytes64, Bytes16;
    if is64 {
      Reads64(d, o, LookupWord(is64, x).q);
    } else {
      Reads32(d, o, LookupWord(is64, x).w);
    }
    match x
    case Named(rva, _, _, name) => NameReads(d, rva + 2, name);
    case Ordinal(_) =>
  }

  lemma ZeroReads(d: Bytes, is64: bool, o: nat)
    requires At(d, o, WordBytes(ZeroWord(is64)))
    ensures o < |d| && ThunkAt(d, is64, o) == Some(0)
  {
    hide U32At, U64At, Bytes32, Bytes64;
    if is64 {
      Reads64(d, o, 0);
    } else {
      Reads32(d, o, 0);
    }
  }

  lemma {:induction false} LookupIsFlat(d: Bytes, is64: bool, o: nat, xs: seq<Import>, n: nat)
    requires LookupStands(d, is64, o, xs) && |xs| <= n
    ensures FlatEntries(d, is64, o, EntriesOf(xs), n)
    decreases n
  {
    hide At, WordBytes, LookupWord, ImportStands, ThunkAt, FlatEntry, ZeroWord;
    if xs == [] {
      assert Place(is64, o, 0) == o;
      ZeroReads(d, is64, o);
    } else {
      assert Place(is64, o, 0) == o;
      LookupReads(d, is64, o, xs[0]);
      var rest, o' := xs[1..], o + ThunkSize(is64);
      forall i | 0 <= i < |rest|
        ensures At(d, Place(is64, o', i), WordBytes(LookupWord(is64, rest[i]))) && ImportStands(d, is64, rest[i])
      {
        assert Place(is64, o', i) == Place(is64, o, i + 1) && rest[i] == xs[i + 1];
      }
      assert Place(is64, o', |rest|) == Place(is64, o, |xs|);
      LookupIsFlat(d, is64, o', rest, n - 1);
      assert EntriesOf(xs)[1..] == EntriesOf(rest);
    }
  }

  lemma LookupStart(d: Bytes, is64: bool, o: nat, xs: seq<Import>)
    requires LookupStands(d, is64, o, xs)
    ensures o < |d|
  {
    hide WordBytes, ImportStands;
  }

  lemma DllIsFlat(d: Bytes, is64: bool, o: nat, x: ImportedDll)
    requires DllStands(d, is64, o, x)
    ensures FlatDll(d, is64, o, Dll(x.name, EntriesOf(x.imports)))
  {
    hide Stands, NameStands, LookupStands, NamedAt, FlatEntries, U32At, EntriesOf, DescriptorAt;
    DescriptorReads(d, o, x.desc);
    NameReads(d, x.desc.name, x.name);
    var rva := x.desc.Thunk();
    LookupIsFlat(d, is64, rva, x.imports, MAX_THUNKS);
    LookupStart(d, is64, rva, x.imports);
  }

  function DllsOf(xs: seq<ImportedDll>): (r: seq<Dll>)
    ensures |r| == |xs| && forall i | 0 <= i < |xs| :: r[i] == Dll(xs[i].name, EntriesOf(xs[i].imports))
  {
    seq(|xs|, i requires 0 <= i < |xs| => Dll(xs[i].name, EntriesOf(xs[i].imports)))
  }

  lemma {:induction false} TableIsFlat(d: Bytes, is64: bool, o: nat, xs: seq<ImportedDll>, n: nat)
    requires TableStands(d, is64, o, xs) && |xs| <= n
    ensures FlatTable(d, is64, o, DllsOf(xs), n)
    decreases n
  {
    hide Stands, DllStands, FlatDll, DescriptorAt, DescriptorWords;
    if xs == [] {
      DescriptorReads(d, o, Descriptor(0, 0, 0, 0, 0));
    } else {
      assert DllStands(d, is64, o + 20 * 0, xs[0]);
      DllIsFlat(d, is64, o, xs[0]);
      var rest := xs[1..];
      forall i | 0 <= i < |rest|
        ensures DllStands(d, is64, o + 20 + 20 * i, rest[i])
      {
        assert DllStands(d, is64, o + 20 * (i + 1), xs[i + 1]);
      }
      assert o + 20 + 20 * |rest| == o + 20 * |xs|;
      TableIsFlat(d, is64, o + 20, rest, n - 1);
      assert DllsOf(xs)[1..] == DllsOf(rest);
    }
  }

  /** Exactly these DLLs, with their names and their numbers of ordinals. */
  predicate ImportsAre(r: seq<ImportDll>, xs: seq<ImportedDll>) {
    && |r| == |xs|
    && forall i | 0 <= i < |xs| :: r[i] == ImportDll(xs[i].name, Names(xs[i].imports), Ordinals(xs[i].imports))
  }

  /** An import directory table that stands at the import RVA is reported as it is encoded. */
  lemma ImportsParse(d: Bytes, pe: PeQuick, xs: seq<ImportedDll>)
    requires pe.importRva != 0 && pe.importSize >= 20 && TableStands(d, pe.is64, pe.importRva, xs)
    requires 1 <= |xs| <= 64 && |xs| <= pe.importSize / 20 + 1
    ensures ImportsAre(Imports(d, pe), xs)
  {
    hide DllStands, FlatTable, Stands, Imports, EntryNames, OrdinalCount, Names, Ordinals, EntriesOf;
    TableIsFlat(d, pe.is64, pe.importRva, xs, DescriptorLimit(pe.importSize));
    TableStart(d, pe.is64, pe.importRva, xs);
    forall i | 0 <= i < |xs|
      ensures DllsOf(xs)[i].entries != []
    {
      SomeEntries(d, pe.is64, pe.importRva + 20 * i, xs[i]);
    }
    FlatImportsExact(d, pe, DllsOf(xs));
    forall i | 0 <= i < |xs|
      ensures Imports(d, pe)[i] == ImportDll(xs[i].name, Names(xs[i].imports), Ordinals(xs[i].imports))
    {
      EntriesCount(xs[i].imports);
    }
  }

  lemma SomeEntries(d: Bytes, is64: bool, o: nat, x: ImportedDll)
    requires DllStands(d, is64, o, x)
    ensures EntriesOf(x.imports) != []
  {
  }

  lemma TableStart(d: Bytes, is64: bool, o: nat, xs: seq<ImportedDll>)
    requires TableStands(d, is64, o, xs)
    ensures o < |d|
  {
    hide DllStands;
  }

  // ----- exports

  /** The export directory, its table of name addresses, and the names. */
  predicate ExportsStand(d: Bytes, o: nat, t: ExportTable, rvas: seq<U32>, names: seq<string>) {
    && Stands(d, o, ExportWords(t))
    && |rvas| == |names| == t.numberOfNames > 0
    && t.addressOfNames > 0 && t.addressOfNames + 4 * |names| <= 0x1_0000_0000
    && (forall i | 0 <= i < |names| :: At(d, t.addressOfNames + 4 * i, Bytes32(rvas[i])))
    && (forall i | 0 <= i < |names| :: NameStands(d, rvas[i], names[i]))
  }

  lemma ExportIsFlat(d: Bytes, o: nat, t: ExportTable, rvas: seq<U32>, names: seq<string>, i: nat)
    requires ExportsStand(d, o, t, rvas, names) && i < |names|
    ensures FlatExport(d, t.addressOfNames, i, names[i])
  {
    hide Stands, NameStands, NamedAt, U32At, Bytes32, ExportWords;
    Reads32(d, t.addressOfNames + 4 * i, rvas[i]);
    NameReads(d, rvas[i], names[i]);
  }

  /** An export directory that stands at the export RVA is reported by its first 512 names. */
  lemma ExportsParse(d: Bytes, pe: PeQuick, t: ExportTable, rvas: seq<U32>, names: seq<string>)
    requires pe.exportRva != 0 && pe.exportSize >= 40 && ExportsStand(d, pe.exportRva, t, rvas, names)
    ensures Exports(d, pe) == if |names| <= 512 then names else names[..512]
  {
    hide Stands, Exports, FlatExport, NameStands, U32At, ExportWords, At, ExportDirectoryAt;
    var first := if |names| <= 512 then names else names[..512];
    ExportReads(d, pe.exportRva, t);
    forall k | 0 <= k < |first|
      ensures FlatExport(d, t.addressOfNames, k, first[k])
    {
      ExportIsFlat(d, pe.exportRva, t, rvas, names, k);
    }
    FlatExportsExact(d, pe, ExportDirectory(t.numberOfNames, t.addressOfNames), first);
  }

  // ----- whole images

  /** The two tables stand at the RVAs of their directories, taken as offsets. */
  lemma ImageParses(d: Bytes, h: Headers, entropy: seq<nat> -> real, xs: seq<ImportedDll>, t: ExportTable,
                    rvas: seq<U32>, names: seq<string>)
    requires |d| <= MAX_SIZE && HeadersStand(d, h) && Count(h.optional) >= 2
    ensures var pe, imports := PeOf(d, entropy), h.directories[1];
            imports.rva != 0 && imports.size >= 20 && TableStands(d, h.optional.Large?, imports.rva, xs)
            && 1 <= |xs| <= 64 && |xs| <= imports.size / 20 + 1 ==>
              ImportsAre(pe.imports, xs)
    ensures var pe, exports := PeOf(d, entropy), h.directories[0];
            exports.rva != 0 && exports.size >= 40 && ExportsStand(d, exports.rva, t, rvas, names) ==>
              pe.exports == if |names| <= 512 then names else names[..512]
  {
    hide PeOf, IsPe, HasMagic, HeadersStand, TableStands, ExportsStand, ImportsAre, Imports, Exports;
    HeadersParse(d, h, entropy);
    SixteenDirectories(d, h);
    StartReads(d, h);
    ResultIrrelevant(d, entropy);
    var pe := PeOf(d, entropy);
    var imports, exports := h.directories[1], h.directories[0];
    if imports.rva != 0 && imports.size >= 20 && TableStands(d, h.optional.Large?, imports.rva, xs)
       && 1 <= |xs| <= 64 && |xs| <= imports.size / 20 + 1 {
      ImportsParse(d, pe, xs);
    }
    if exports.rva != 0 && exports.size >= 40 && ExportsStand(d, exports.rva, t, rvas, names) {
      ExportsParse(d, pe, t, rvas, names);
    }
  }

  lemma SixteenDirectories(d: Bytes, h: Headers)
    requires HeadersStand(d, h)
    ensures |h.directories| == 16
  {
    hide Stands, At, OptionalStands, DirectoriesStand, SectionStands;
  }
}
