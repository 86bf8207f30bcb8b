/** The compact PE reading of peparse.cpp as functions of the bytes: layout after the Microsoft PE
    Format specification, limits and fallbacks as in the source. All fields are little-endian. */
module PeFormat {
  import opened Text

  type Byte = x: int | 0 <= x < 0x100
  type U16 = x: int | 0 <= x < 0x1_0000
  type U32 = x: int | 0 <= x < 0x1_0000_0000
  type U64 = x: int | 0 <= x < 0x1_0000_0000_0000_0000

  /** Larger buffers do not exist: a C++ object has at most this many bytes. */
  const MAX_SIZE := 0x7fff_ffff_ffff_ffff

  type Bytes = seq<Byte>

  function U16At(d: Bytes, o: nat): U16
    requires o + 2 <= |d|
  {
    d[o] as int + 0x100 * (d[o + 1] as int)
  }

  function U32At(d: Bytes, o: nat): U32
    requires o + 4 <= |d|
  {
    U16At(d, o) as int + 0x1_0000 * (U16At(d, o + 2) as int)
  }

  function U64At(d: Bytes, o: nat): U64
    requires o + 8 <= |d|
  {
    U32At(d, o) as int + 0x1_0000_0000 * (U32At(d, o + 4) as int)
  }

  // ----- results

  datatype Section = Section(
    name: string,
    virtualAddress: U32,
    virtualSize: U32,
    rawOffset: U32,
    rawSize: U32,
    characteristics: U32,
    entropy: real)

  datatype ImportDll = ImportDll(dll: string, names: seq<string>, ordinalCount: nat)

  datatype PeQuick = PeQuick(
    valid: bool,
    is64: bool,
    hasClr: bool,
    machine: U16,
    sections: U16,
    characteristics: U16,
    subsystem: U16,
    optionalMagic: U16,
    timestamp: U32,
    entryRva: U32,
    sizeOfImage: U32,
    checksum: U32,
    importRva: U32,
    importSize: U32,
    exportRva: U32,
    exportSize: U32,
    rawImageEnd: U64,
    overlaySize: U64,
    imageBase: U64,
    sectionTable: seq<Section>,
    imports: seq<ImportDll>,
    exports: seq<string>)

  const NO_PE := PeQuick(false, false, false, 0, 0, 0, 0, 0, 0, 0, 0, 0, 0, 0, 0, 0, 0, 0, 0, [], [], [])

  // ----- headers

  const DOS_SIZE := 64
  const FILE_SIZE := 20
  const OPTIONAL32_SIZE := 224
  const OPTIONAL64_SIZE := 240
  const SECTION_SIZE := 40
  const DESCRIPTOR_SIZE := 20
  const EXPORT_SIZE := 40

  /** `e_lfanew` is signed: values from 0x80000000 on are negative and rejected, as is zero. */
  predicate IsPe(d: Bytes) {
    && |d| >= DOS_SIZE
    && U16At(d, 0) == 0x5A4D
    && 0 < U32At(d, 60) < 0x8000_0000
    && U32At(d, 60) + 4 + FILE_SIZE <= |d|
    && U32At(d, U32At(d, 60)) == 0x4550
  }

  function FileOffset(d: Bytes): nat
    requires IsPe(d)
  {
    U32At(d, 60) + 4
  }

  function OptionalOffset(d: Bytes): nat
    requires IsPe(d)
  {
    FileOffset(d) + FILE_SIZE
  }

  function OptionalSize(d: Bytes): U16
    requires IsPe(d)
  {
    U16At(d, FileOffset(d) + 16)
  }

  function FileHeader(d: Bytes): PeQuick
    requires IsPe(d)
  {
    var f := FileOffset(d);
    NO_PE.(
      valid := true,
      machine := U16At(d, f),
      sections := U16At(d, f + 2),
      timestamp := U32At(d, f + 4),
      characteristics := U16At(d, f + 18))
  }

  predicate HasMagic(d: Bytes)
    requires IsPe(d)
  {
    OptionalSize(d) >= 2 && OptionalOffset(d) + 2 <= |d|
  }

  function DirectoryVa(d: Bytes, dir: nat, count: U32, n: nat): U32
    requires dir + 8 * n + 8 <= |d|
  {
    if count > n then U32At(d, dir + 8 * n) else 0
  }

  function DirectorySize(d: Bytes, dir: nat, count: U32, n: nat): U32
    requires dir + 8 * n + 8 <= |d|
  {
    if count > n then U32At(d, dir + 8 * n + 4) else 0
  }

  /** The fields both optional header forms share; `dir` is the offset of the data directories. */
  function OptionalFields(d: Bytes, pe: PeQuick, o: nat, dir: nat, is64: bool, imageBase: U64): PeQuick
    requires o + 72 <= dir - 4 && dir + 128 <= |d|
  {
    var count := U32At(d, dir - 4);
    pe.(
      is64 := is64,
      entryRva := U32At(d, o + 16),
      imageBase := imageBase,
      sizeOfImage := U32At(d, o + 56),
      checksum := U32At(d, o + 64),
      subsystem := U16At(d, o + 68),
      exportRva := DirectoryVa(d, dir, count, 0),
      exportSize := DirectorySize(d, dir, count, 0),
      importRva := DirectoryVa(d, dir, count, 1),
      importSize := DirectorySize(d, dir, count, 1),
      hasClr := count > 14 && DirectoryVa(d, dir, count, 14) != 0 && DirectorySize(d, dir, count, 14) != 0)
  }

  function WithOptional(d: Bytes, pe: PeQuick): PeQuick
    requires IsPe(d) && HasMagic(d)
  {
    var o := OptionalOffset(d);
    var magic := U16At(d, o);
    var p := pe.(optionalMagic := magic);
    if magic == 0x10b && o + OPTIONAL32_SIZE <= |d| then
      OptionalFields(d, p, o, o + 96, false, U32At(d, o + 28))
    else if magic == 0x20b && o + OPTIONAL64_SIZE <= |d| then
      OptionalFields(d, p, o, o + 112, true, U64At(d, o + 24))
    else p
  }

  // ----- sections

  /** Eight bytes at most, ended early by a zero byte. */
  function SectionName(d: Bytes, o: nat, n: nat): string
    requires n <= 8 && o + 8 <= |d|
    decreases 8 - n
  {
    if n == 8 || d[o + n] == 0 then "" else [d[o + n] as char] + SectionName(d, o, n + 1)
  }

  function SectionAt(d: Bytes, o: nat): Section
    requires o + SECTION_SIZE <= |d|
  {
    Section(SectionName(d, o, 0), U32At(d, o + 12), U32At(d, o + 8), U32At(d, o + 20), U32At(d, o + 16),
            U32At(d, o + 36), -1.0)
  }

  /** At most `n` section headers from offset `o`, as far as the buffer goes. */
  function SectionsAt(d: Bytes, o: nat, n: nat): (r: seq<Section>)
    ensures |r| <= n
    decreases n
  {
    if n == 0 || o + SECTION_SIZE > |d| then [] else [SectionAt(d, o)] + SectionsAt(d, o + SECTION_SIZE, n - 1)
  }

  function Min(a: int, b: int): int { if a <= b then a else b }

  function Max(a: int, b: int): int { if a >= b then a else b }

  function SectionTable(d: Bytes): (r: seq<Section>)
    requires IsPe(d)
    ensures |r| <= 96
  {
    SectionsAt(d, OptionalOffset(d) + OptionalSize(d), Min(U16At(d, FileOffset(d) + 2), 96))
  }

  /** How often a byte occurs. */
  function Count(d: Bytes, b: Byte): nat {
    if d == [] then 0 else Count(d[..|d| - 1], b) + if d[|d| - 1] == b then 1 else 0
  }

  function Histogram(d: Bytes): (h: seq<nat>)
    ensures |h| == 256
  {
    seq(256, b requires 0 <= b < 256 => Count(d, b))
  }

  /** Shannon entropy is a function of the histogram; its floating-point value is a parameter. */
  function ByteEntropy(d: Bytes, o: nat, length: nat, entropy: seq<nat> -> real): real {
    if o >= |d| || length == 0 then -1.0
    else entropy(Histogram(d[o..o + Min(length, |d| - o)]))
  }

  function SectionEntropy(d: Bytes, s: Section, entropy: seq<nat> -> real): real {
    if s.rawSize != 0 && s.rawOffset < |d| then ByteEntropy(d, s.rawOffset, s.rawSize, entropy)
    else if s.virtualSize != 0 && s.virtualAddress < |d| then
      ByteEntropy(d, s.virtualAddress, s.virtualSize, entropy)
    else s.entropy
  }

  function WithEntropies(d: Bytes, ss: seq<Section>, entropy: seq<nat> -> real): (r: seq<Section>)
    ensures |r| == |ss|
    ensures forall i | 0 <= i < |ss| :: r[i] == ss[i].(entropy := SectionEntropy(d, ss[i], entropy))
  {
    seq(|ss|, i requires 0 <= i < |ss| => ss[i].(entropy := SectionEntropy(d, ss[i], entropy)))
  }

  /** The end of the raw data: the largest end of a section with raw bytes, 0 without any. */
  function RawEnd(ss: seq<Section>): (r: U64)
    ensures r < 0x2_0000_0000
  {
    if ss == [] then 0
    else
      var s := ss[|ss| - 1];
      if s.rawSize != 0 then Max(RawEnd(ss[..|ss| - 1]), s.rawOffset + s.rawSize) else RawEnd(ss[..|ss| - 1])
  }

  function WithStats(d: Bytes, pe: PeQuick, entropy: seq<nat> -> real): PeQuick
    requires |d| <= MAX_SIZE
  {
    var end := RawEnd(pe.sectionTable);
    pe.(
      sectionTable := WithEntropies(d, pe.sectionTable, entropy),
      rawImageEnd := end,
      overlaySize := if end != 0 && end < |d| then |d| - end else pe.overlaySize)
  }

  // ----- addresses

  function Span(s: Section): U32 { Max(s.virtualSize, s.rawSize) }

  /** The section's span holds the RVA. */
  predicate Holds(s: Section, rva: int) { s.virtualAddress <= rva < s.virtualAddress + Span(s) }

  function Mapped(s: Section, rva: int): int { s.rawOffset + (rva - s.virtualAddress) }

  /** The candidate file offsets of an RVA from the first `k` sections: the RVA itself, then each
      section's raw mapping, without repetition. */
  function Offsets(ss: seq<Section>, k: nat, size: nat, rva: U32): seq<nat>
    requires k <= |ss|
  {
    if k == 0 then (if rva < size then [rva] else [])
    else
      var before := Offsets(ss, k - 1, size, rva);
      var s := ss[k - 1];
      if Holds(s, rva) && Mapped(s, rva) < size && Mapped(s, rva) !in before then before + [Mapped(s, rva)]
      else before
  }

  function RvaOffsets(ss: seq<Section>, size: nat, rva: U32): seq<nat> { Offsets(ss, |ss|, size, rva) }

  // ----- strings

  predicate PrintableByte(b: Byte) { 0x20 <= b <= 0x7e }

  const MAX_NAME := 260

  /** A terminated run of printable bytes; empty for anything else. `n` more bytes are allowed. */
  function CString(d: Bytes, o: nat, n: nat): Option<string>
    decreases n
  {
    if o >= |d| || n == 0 then None
    else if d[o] == 0 then Some("")
    else if !PrintableByte(d[o]) then None
    else match CString(d, o + 1, n - 1) case None => None case Some(s) => Some([d[o] as char] + s)
  }

  function NameAt(d: Bytes, o: nat): string { CString(d, o, MAX_NAME).GetOr("") }

  /** The first non-empty name at the candidate offsets, each moved by `skip`. */
  function FirstName(d: Bytes, offs: seq<nat>, skip: nat): string {
    if offs == [] then ""
    else if NameAt(d, offs[0] + skip) != "" then NameAt(d, offs[0] + skip)
    else FirstName(d, offs[1..], skip)
  }

  function NameAtRva(d: Bytes, ss: seq<Section>, rva: U32): string { FirstName(d, RvaOffsets(ss, |d|, rva), 0) }

  /** Import names follow a two-byte hint. */
  function HintNameAtRva(d: Bytes, ss: seq<Section>, rva: U32): string {
    FirstName(d, RvaOffsets(ss, |d|, rva), 2)
  }

  // ----- imports

  datatype Descriptor = Descriptor(originalFirstThunk: U32, timeDateStamp: U32, forwarderChain: U32, name: U32,
                                   firstThunk: U32)
  {
    predicate IsZero() {
      originalFirstThunk == 0 && timeDateStamp == 0 && forwarderChain == 0 && name == 0 && firstThunk == 0
    }

    function Thunk(): U32 { if originalFirstThunk != 0 then originalFirstThunk else firstThunk }
  }

  function DescriptorAt(d: Bytes, o: nat): Option<Descriptor> {
    if o + DESCRIPTOR_SIZE > |d| then None
    else Some(Descriptor(U32At(d, o), U32At(d, o + 4), U32At(d, o + 8), U32At(d, o + 12), U32At(d, o + 16)))
  }

  /** The first candidate whose descriptor is not zero and names a DLL. */
  function FirstTable(d: Bytes, ss: seq<Section>, offs: seq<nat>): Option<nat> {
    if offs == [] then None
    else
      var first := DescriptorAt(d, offs[0]);
      if first.Some? && !first.value.IsZero() && NameAtRva(d, ss, first.value.name) != "" then Some(offs[0])
      else FirstTable(d, ss, offs[1..])
  }

  datatype Thunks = Thunks(names: seq<string>, ordinalCount: nat)
  {
    predicate Empty() { names == [] && ordinalCount == 0 }
  }

  function ThunkSize(is64: bool): nat { if is64 then 8 else 4 }

  /** The offset of thunk `n` of a table. */
  function ThunkOffset(is64: bool, offset: nat, n: nat): nat {
    if is64 then offset + 8 * n else offset + 4 * n
  }

  function ThunkAt(d: Bytes, is64: bool, o: nat): Option<U64> {
    if o + ThunkSize(is64) > |d| then None
    else Some(if is64 then U64At(d, o) else U32At(d, o))
  }

  /** The top bit marks an import by ordinal. */
  predicate IsOrdinal(is64: bool, thunk: U64) {
    thunk >= if is64 then 0x8000_0000_0000_0000 else 0x8000_0000
  }

  function LowRva(thunk: U64): U32 { thunk % 0x1_0000_0000 }

  /** At most `n` thunks from offset `o` up to a zero thunk or the end of the buffer. */
  function ReadThunks(d: Bytes, ss: seq<Section>, is64: bool, o: nat, n: nat): (r: Thunks)
    ensures |r.names| + r.ordinalCount <= n
    decreases n
  {
    var t := ThunkAt(d, is64, o);
    if n == 0 || t.None? || t.value == 0 then Thunks([], 0)
    else
      var rest := ReadThunks(d, ss, is64, o + ThunkSize(is64), n - 1);
      if IsOrdinal(is64, t.value) then Thunks(rest.names, rest.ordinalCount + 1)
      else
        var name := HintNameAtRva(d, ss, LowRva(t.value));
        if name == "" then rest else Thunks([name] + rest.names, rest.ordinalCount)
  }

  const MAX_THUNKS := 256

  /** The thunks at the first candidate that gives any. */
  function FirstThunks(d: Bytes, ss: seq<Section>, is64: bool, offs: seq<nat>): (r: Thunks)
    ensures |r.names| + r.ordinalCount <= MAX_THUNKS
  {
    if offs == [] then Thunks([], 0)
    else
      var t := ReadThunks(d, ss, is64, offs[0], MAX_THUNKS);
      if !t.Empty() then t else FirstThunks(d, ss, is64, offs[1..])
  }

  function DllThunks(d: Bytes, ss: seq<Section>, is64: bool, desc: Descriptor): Thunks {
    if desc.Thunk() == 0 then Thunks([], 0)
    else FirstThunks(d, ss, is64, RvaOffsets(ss, |d|, desc.Thunk()))
  }

  /** At most `n` descriptors from offset `o` up to a zero one; unnamed ones are skipped. */
  function Dlls(d: Bytes, ss: seq<Section>, is64: bool, o: nat, n: nat): (r: seq<ImportDll>)
    ensures |r| <= n
    decreases n
  {
    var desc := DescriptorAt(d, o);
    if n == 0 || desc.None? || desc.value.IsZero() then []
    else
      var rest := Dlls(d, ss, is64, o + DESCRIPTOR_SIZE, n - 1);
      var name := NameAtRva(d, ss, desc.value.name);
      if name == "" then rest
      else
        var t := DllThunks(d, ss, is64, desc.value);
        [ImportDll(name, t.names, t.ordinalCount)] + rest
  }

  function DescriptorLimit(importSize: U32): nat { Min(64, importSize / DESCRIPTOR_SIZE + 1) }

  function Imports(d: Bytes, pe: PeQuick): (r: seq<ImportDll>)
    ensures |r| <= DescriptorLimit(pe.importSize)
  {
    if pe.importRva == 0 || pe.importSize < DESCRIPTOR_SIZE then []
    else
      match FirstTable(d, pe.sectionTable, RvaOffsets(pe.sectionTable, |d|, pe.importRva))
      case None => []
      case Some(o) => Dlls(d, pe.sectionTable, pe.is64, o, DescriptorLimit(pe.importSize))
  }

  // ----- exports

  datatype ExportDirectory = ExportDirectory(numberOfNames: U32, addressOfNames: U32)

  function ExportDirectoryAt(d: Bytes, o: nat): Option<ExportDirectory> {
    if o + EXPORT_SIZE > |d| then None else Some(ExportDirectory(U32At(d, o + 24), U32At(d, o + 32)))
  }

  /** The first candidate that is readable and names something. */
  function FirstDirectory(d: Bytes, offs: seq<nat>): Option<ExportDirectory> {
    if offs == [] then None
    else
      var dir := ExportDirectoryAt(d, offs[0]);
      if dir.Some? && dir.value.numberOfNames != 0 && dir.value.addressOfNames != 0 then dir
      else FirstDirectory(d, offs[1..])
  }

  function FirstU32(d: Bytes, offs: seq<nat>): Option<U32> {
    if offs == [] then None
    else if offs[0] + 4 <= |d| then Some(U32At(d, offs[0]))
    else FirstU32(d, offs[1..])
  }

  /** The address of name entry `i`, computed in 64 bits and truncated to 32. */
  function EntryRva(addressOfNames: U32, i: nat): U32 { (addressOfNames + 4 * i) % 0x1_0000_0000 }

  /** Name entries `i` to `count`, up to the first entry that cannot be read; bad names are skipped. */
  function ExportNames(d: Bytes, ss: seq<Section>, addressOfNames: U32, i: nat, count: nat): (r: seq<string>)
    requires i <= count
    ensures |r| <= count - i
    decreases count - i
  {
    if i == count then []
    else
      match FirstU32(d, RvaOffsets(ss, |d|, EntryRva(addressOfNames, i)))
      case None => []
      case Some(rva) =>
        var rest := ExportNames(d, ss, addressOfNames, i + 1, count);
        var name := NameAtRva(d, ss, rva);
        if name == "" then rest else [name] + rest
  }

  const MAX_EXPORTS := 512

  function Exports(d: Bytes, pe: PeQuick): (r: seq<string>)
    ensures |r| <= MAX_EXPORTS
  {
    if pe.exportRva == 0 || pe.exportSize < EXPORT_SIZE then []
    else
      match FirstDirectory(d, RvaOffsets(pe.sectionTable, |d|, pe.exportRva))
      case None => []
      case Some(dir) =>
        ExportNames(d, pe.sectionTable, dir.addressOfNames, 0, Min(dir.numberOfNames, MAX_EXPORTS))
  }

  // ----- the whole parse

  function PeOf(d: Bytes, entropy: seq<nat> -> real): PeQuick
    requires |d| <= MAX_SIZE
  {
    if !IsPe(d) then NO_PE
    else if !HasMagic(d) then FileHeader(d)
    else
      var p := WithStats(d, WithOptional(d, FileHeader(d)).(sectionTable := SectionTable(d)), entropy);
      p.(imports := Imports(d, p), exports := Exports(d, p))
  }
}
