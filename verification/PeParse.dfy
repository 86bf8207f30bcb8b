/** The loops of peparse.cpp over a byte buffer, proved to compute the functions of `PeFormat`.
    Offsets live in `U64` and header fields in `U32`, so every sum below is shown not to wrap, and
    every read is inside the buffer. */
module PeParse {
  import opened Text
  import opened PeFormat

  // ----- reads

  method ReadU16(data: array<Byte>, offset: U64) returns (ok: bool, v: U16)
    requires data.Length <= MAX_SIZE
    ensures ok <==> offset + 2 <= data.Length
    ensures ok ==> v == U16At(data[..], offset)
  {
    if offset > data.Length || data.Length - offset < 2 {
      return false, 0;
    }
    return true, data[offset] as int + 0x100 * (data[offset + 1] as int);
  }

  method ReadU32(data: array<Byte>, offset: U64) returns (ok: bool, v: U32)
    requires data.Length <= MAX_SIZE
    ensures ok <==> offset + 4 <= data.Length
    ensures ok ==> v == U32At(data[..], offset)
  {
    if offset > data.Length || data.Length - offset < 4 {
      return false, 0;
    }
    var _, low := ReadU16(data, offset);
    var _, high := ReadU16(data, offset + 2);
    return true, low as int + 0x1_0000 * (high as int);
  }

  method ReadU64(data: array<Byte>, offset: U64) returns (ok: bool, v: U64)
    requires data.Length <= MAX_SIZE
    ensures ok <==> offset + 8 <= data.Length
    ensures ok ==> v == U64At(data[..], offset)
  {
    if offset > data.Length || data.Length - offset < 8 {
      return false, 0;
    }
    var _, low := ReadU32(data, offset);
    var _, high := ReadU32(data, offset + 4);
    return true, low as int + 0x1_0000_0000 * (high as int);
  }

  method ReadDescriptor(data: array<Byte>, offset: U64) returns (r: Option<Descriptor>)
    requires data.Length <= MAX_SIZE
    ensures r == DescriptorAt(data[..], offset)
  {
    hide U32At;
    if offset > data.Length || data.Length - offset < DESCRIPTOR_SIZE {
      return None;
    }
    var _, original := ReadU32(data, offset);
    var _, stamp := ReadU32(data, offset + 4);
    var _, chain := ReadU32(data, offset + 8);
    var _, name := ReadU32(data, offset + 12);
    var _, first := ReadU32(data, offset + 16);
    return Some(Descriptor(original, stamp, chain, name, first));
  }

  method ReadExportDirectory(data: array<Byte>, offset: U64) returns (r: Option<ExportDirectory>)
    requires data.Length <= MAX_SIZE
    ensures r == ExportDirectoryAt(data[..], offset)
  {
    hide U32At;
    if offset > data.Length || data.Length - offset < EXPORT_SIZE {
      return None;
    }
    var _, names := ReadU32(data, offset + 24);
    var _, addresses := ReadU32(data, offset + 32);
    return Some(ExportDirectory(names, addresses));
  }

  method ReadThunk(data: array<Byte>, is64: bool, offset: U64) returns (r: Option<U64>)
    requires data.Length <= MAX_SIZE
    ensures r == ThunkAt(data[..], is64, offset)
  {
    hide U32At, U64At;
    if is64 {
      var ok, v := ReadU64(data, offset);
      return if ok then Some(v) else None;
    } else {
      var ok, v := ReadU32(data, offset);
      return if ok then Some(v) else None;
    }
  }

  // ----- addresses

  method CandidateOffsets(ss: seq<Section>, size: U64, rva: U32) returns (out: seq<U64>)
    ensures out == RvaOffsets(ss, size, rva)
    ensures forall i | 0 <= i < |out| :: out[i] < size
  {
    out := [];
    if rva < size {
      out := [rva];
    }
    for k := 0 to |ss|
      invariant out == Offsets(ss, k, size, rva)
      invariant forall i | 0 <= i < |out| :: out[i] < size
    {
      var section := ss[k];
      var span: U32 := Max(section.virtualSize, section.rawSize);
      var start: U64 := section.virtualAddress;
      var end: U64 := start + span;
      if span == 0 || rva < start || rva >= end {
        continue;
      }
      var mapped: U64 := section.rawOffset + (rva - section.virtualAddress);
      if mapped < size && mapped !in out {
        out := out + [mapped];
      }
    }
  }

  // ----- strings

  function Prefixed(out: string, r: Option<string>): Option<string> {
    match r case None => None case Some(s) => Some(out + s)
  }

  method ReadCStringAt(data: array<Byte>, offset: U64) returns (r: string)
    requires data.Length <= MAX_SIZE
    ensures r == NameAt(data[..], offset)
  {
    if offset >= data.Length {
      return "";
    }
    var out := "";
    var i: U64 := offset;
    ghost var d := data[..];
    ghost var whole := CString(d, offset, MAX_NAME);
    PrefixedNothing(whole);
    while i < data.Length && |out| < MAX_NAME
      invariant offset <= i <= data.Length && |out| == i - offset <= MAX_NAME
      invariant whole == Prefixed(out, CString(d, i, MAX_NAME - |out|))
      decreases data.Length - i
    {
      var ch := data[i];
      if ch == 0 {
        assert out + "" == out;
        return out;
      }
      if ch < 0x20 || ch > 0x7e {
        return "";
      }
      PrefixedStep(out, ch as char, CString(d, i + 1, MAX_NAME - |out| - 1));
      out := out + [ch as char];
      i := i + 1;
    }
    return "";
  }

  lemma PrefixedNothing(r: Option<string>)
    ensures Prefixed("", r) == r
  {
    if r.Some? {
      assert "" + r.value == r.value;
    }
  }

  lemma PrefixedStep(out: string, c: char, r: Option<string>)
    ensures Prefixed(out, Prefixed([c], r)) == Prefixed(out + [c], r)
  {
    if r.Some? {
      assert out + ([c] + r.value) == (out + [c]) + r.value;
    }
  }

  /** The first non-empty name at the candidates, each moved by `skip`. */
  method FirstNameAt(data: array<Byte>, offs: seq<U64>, skip: nat) returns (r: string)
    requires data.Length <= MAX_SIZE && skip <= 2
    requires forall i | 0 <= i < |offs| :: offs[i] < data.Length
    ensures r == FirstName(data[..], offs, skip)
  {
    hide NameAt;
    ghost var d := data[..];
    for i := 0 to |offs|
      invariant FirstName(d, offs, skip) == FirstName(d, offs[i..], skip)
    {
      var at: U64 := offs[i] + skip;
      var name := ReadCStringAt(data, at);
      if name != "" {
        return name;
      }
      assert offs[i..][1..] == offs[i + 1..];
    }
    return "";
  }

  method ReadCStringRva(data: array<Byte>, ss: seq<Section>, rva: U32) returns (r: string)
    requires data.Length <= MAX_SIZE
    ensures r == NameAtRva(data[..], ss, rva)
  {
    var offs := CandidateOffsets(ss, data.Length, rva);
    r := FirstNameAt(data, offs, 0);
  }

  method ReadHintName(data: array<Byte>, ss: seq<Section>, rva: U32) returns (r: string)
    requires data.Length <= MAX_SIZE
    ensures r == HintNameAtRva(data[..], ss, rva)
  {
    var offs := CandidateOffsets(ss, data.Length, rva);
    r := FirstNameAt(data, offs, 2);
  }

  /** `ReadPodRva` for a 32-bit value. */
  method ReadU32Rva(data: array<Byte>, ss: seq<Section>, rva: U32) returns (r: Option<U32>)
    requires data.Length <= MAX_SIZE
    ensures r == FirstU32(data[..], RvaOffsets(ss, data.Length, rva))
  {
    hide U32At;
    var offs := CandidateOffsets(ss, data.Length, rva);
    ghost var d := data[..];
    for i := 0 to |offs|
      invariant FirstU32(d, offs) == FirstU32(d, offs[i..])
    {
      var ok, v := ReadU32(data, offs[i]);
      if ok {
        return Some(v);
      }
      assert offs[i..][1..] == offs[i + 1..];
    }
    return None;
  }

  // ----- imports

  method FindTable(data: array<Byte>, ss: seq<Section>, offs: seq<U64>) returns (r: Option<U64>)
    requires data.Length <= MAX_SIZE
    requires forall i | 0 <= i < |offs| :: offs[i] < data.Length
    ensures r == FirstTable(data[..], ss, offs)
    ensures r.Some? ==> r.value < data.Length
  {
    hide NameAtRva, DescriptorAt;
    ghost var d := data[..];
    for i := 0 to |offs|
      invariant FirstTable(d, ss, offs) == FirstTable(d, ss, offs[i..])
    {
      var first := ReadDescriptor(data, offs[i]);
      if first.Some? && !first.value.IsZero() {
        var name := ReadCStringRva(data, ss, first.value.name);
        if name != "" {
          return Some(offs[i]);
        }
      }
      assert offs[i..][1..] == offs[i + 1..];
    }
    return None;
  }

  function WithThunks(names: seq<string>, ordinals: nat, t: Thunks): Thunks {
    Thunks(names + t.names, ordinals + t.ordinalCount)
  }

  /** What one thunk adds before the rest of its table. */
  function AddThunk(d: Bytes, ss: seq<Section>, is64: bool, thunk: U64, rest: Thunks): Thunks {
    if IsOrdinal(is64, thunk) then Thunks(rest.names, rest.ordinalCount + 1)
    else if HintNameAtRva(d, ss, LowRva(thunk)) == "" then rest
    else Thunks([HintNameAtRva(d, ss, LowRva(thunk))] + rest.names, rest.ordinalCount)
  }

  lemma ThunkStep(d: Bytes, ss: seq<Section>, is64: bool, offset: nat, n: nat)
    requires n < MAX_THUNKS
    ensures var t := ThunkAt(d, is64, ThunkOffset(is64, offset, n));
            ReadThunks(d, ss, is64, ThunkOffset(is64, offset, n), MAX_THUNKS - n) ==
            if t.None? || t.value == 0 then Thunks([], 0)
            else AddThunk(d, ss, is64, t.value,
                          ReadThunks(d, ss, is64, ThunkOffset(is64, offset, n + 1), MAX_THUNKS - n - 1))
  {
    assert ThunkOffset(is64, offset, n + 1) == ThunkOffset(is64, offset, n) + ThunkSize(is64);
  }

  lemma WithThunksName(names: seq<string>, ordinals: nat, name: string, t: Thunks)
    ensures WithThunks(names, ordinals, Thunks([name] + t.names, t.ordinalCount)) ==
            WithThunks(names + [name], ordinals, t)
  {
    assert names + ([name] + t.names) == (names + [name]) + t.names;
  }

  lemma WithThunksNothing(t: Thunks)
    ensures WithThunks([], 0, t) == t
  {
    assert [] + t.names == t.names;
  }

  method ReadThunkTable(data: array<Byte>, ss: seq<Section>, is64: bool, offset: U64)
    returns (names: seq<string>, ordinalCount: nat)
    requires data.Length <= MAX_SIZE && offset < data.Length
    ensures Thunks(names, ordinalCount) == ReadThunks(data[..], ss, is64, offset, MAX_THUNKS)
  {
    hide HintNameAtRva, ThunkAt, ReadThunks;
    names, ordinalCount := [], 0;
    ghost var d := data[..];
    ghost var whole := ReadThunks(d, ss, is64, offset, MAX_THUNKS);
    WithThunksNothing(whole);
    for n := 0 to MAX_THUNKS
      invariant whole == WithThunks(names, ordinalCount,
                                    ReadThunks(d, ss, is64, ThunkOffset(is64, offset, n), MAX_THUNKS - n))
    {
      ThunkStep(d, ss, is64, offset, n);
      var off: U64 := if is64 then offset + 8 * n else offset + 4 * n;
      var thunk := ReadThunk(data, is64, off);
      if thunk.None? || thunk.value == 0 {
        assert names + [] == names;
        return;
      }
      ghost var rest := ReadThunks(d, ss, is64, ThunkOffset(is64, offset, n + 1), MAX_THUNKS - n - 1);
      if IsOrdinal(is64, thunk.value) {
        ordinalCount := ordinalCount + 1;
        continue;
      }
      var name := ReadHintName(data, ss, thunk.value % 0x1_0000_0000);
      if name != "" {
        WithThunksName(names, ordinalCount, name, rest);
        names := names + [name];
      }
    }
    assert names + [] == names;
  }

  method ReadDllThunks(data: array<Byte>, ss: seq<Section>, is64: bool, desc: Descriptor)
    returns (names: seq<string>, ordinalCount: nat)
    requires data.Length <= MAX_SIZE
    ensures Thunks(names, ordinalCount) == DllThunks(data[..], ss, is64, desc)
  {
    hide ReadThunks, RvaOffsets;
    names, ordinalCount := [], 0;
    var rva := if desc.originalFirstThunk != 0 then desc.originalFirstThunk else desc.firstThunk;
    if rva == 0 {
      return;
    }
    var offs := CandidateOffsets(ss, data.Length, rva);
    ghost var d := data[..];
    for i := 0 to |offs|
      invariant FirstThunks(d, ss, is64, offs) == FirstThunks(d, ss, is64, offs[i..])
      invariant names == [] && ordinalCount == 0
    {
      var ns, count := ReadThunkTable(data, ss, is64, offs[i]);
      if ns != [] || count != 0 {
        return ns, count;
      }
      assert offs[i..][1..] == offs[i + 1..];
    }
  }

  method ParseImports(data: array<Byte>, pe: PeQuick) returns (out: PeQuick)
    requires data.Length <= MAX_SIZE
    ensures out == pe.(imports := pe.imports + Imports(data[..], pe))
  {
    hide RvaOffsets, DescriptorAt, DllThunks, NameAtRva, FirstTable;
    var imports := pe.imports;
    out := pe;
    if pe.importRva == 0 || pe.importSize < DESCRIPTOR_SIZE {
      assert imports + [] == imports;
      return;
    }
    var ss := pe.sectionTable;
    var offs := CandidateOffsets(ss, data.Length, pe.importRva);
    var table := FindTable(data, ss, offs);
    if table.None? {
      assert imports + [] == imports;
      return;
    }
    var limit: nat := Min(64, pe.importSize / DESCRIPTOR_SIZE + 1);
    ghost var d := data[..];
    ghost var whole := pe.imports + Dlls(d, ss, pe.is64, table.value, limit);
    for i := 0 to limit
      invariant whole == imports + Dlls(d, ss, pe.is64, table.value + i * DESCRIPTOR_SIZE, limit - i)
    {
      var at: U64 := table.value + i * DESCRIPTOR_SIZE;
      var desc := ReadDescriptor(data, at);
      if desc.None? || desc.value.IsZero() {
        break;
      }
      var name := ReadCStringRva(data, ss, desc.value.name);
      if name == "" {
        continue;
      }
      var names, count := ReadDllThunks(data, ss, pe.is64, desc.value);
      ghost var rest := Dlls(d, ss, pe.is64, table.value + (i + 1) * DESCRIPTOR_SIZE, limit - i - 1);
      assert imports + ([ImportDll(name, names, count)] + rest) == (imports + [ImportDll(name, names, count)]) + rest;
      imports := imports + [ImportDll(name, names, count)];
    }
    assert imports + [] == imports;
    out := pe.(imports := imports);
  }

  // ----- exports

  method FindDirectory(data: array<Byte>, offs: seq<U64>) returns (r: Option<ExportDirectory>)
    requires data.Length <= MAX_SIZE
    ensures r == FirstDirectory(data[..], offs)
  {
    hide ExportDirectoryAt;
    ghost var d := data[..];
    for i := 0 to |offs|
      invariant FirstDirectory(d, offs) == FirstDirectory(d, offs[i..])
    {
      var dir := ReadExportDirectory(data, offs[i]);
      if dir.Some? && dir.value.numberOfNames != 0 && dir.value.addressOfNames != 0 {
        return dir;
      }
      assert offs[i..][1..] == offs[i + 1..];
    }
    return None;
  }

  method ParseExports(data: array<Byte>, pe: PeQuick) returns (out: PeQuick)
    requires data.Length <= MAX_SIZE
    ensures out == pe.(exports := pe.exports + Exports(data[..], pe))
  {
    hide RvaOffsets, NameAtRva, FirstU32, FirstDirectory;
    var exports := pe.exports;
    out := pe;
    if pe.exportRva == 0 || pe.exportSize < EXPORT_SIZE {
      assert exports + [] == exports;
      return;
    }
    var ss := pe.sectionTable;
    var offs := CandidateOffsets(ss, data.Length, pe.exportRva);
    var dir := FindDirectory(data, offs);
    if dir.None? {
      assert exports + [] == exports;
      return;
    }
    var count: nat := Min(dir.value.numberOfNames, MAX_EXPORTS);
    var addresses := dir.value.addressOfNames;
    ghost var d := data[..];
    ghost var whole := pe.exports + ExportNames(d, ss, addresses, 0, count);
    for i := 0 to count
      invariant whole == exports + ExportNames(d, ss, addresses, i, count)
    {
      var wide: U64 := addresses + 4 * i;
      var rva := ReadU32Rva(data, ss, wide % 0x1_0000_0000);
      if rva.None? {
        break;
      }
      var name := ReadCStringRva(data, ss, rva.value);
      if name != "" {
        ghost var rest := ExportNames(d, ss, addresses, i + 1, count);
        assert exports + ([name] + rest) == (exports + [name]) + rest;
        exports := exports + [name];
      }
    }
    assert exports + [] == exports;
    out := pe.(exports := exports);
  }

  // ----- sections

  method ReadSectionName(data: array<Byte>, offset: U64) returns (name: string)
    requires offset + SECTION_SIZE <= data.Length
    ensures name == SectionName(data[..], offset, 0)
  {
    var n := 0;
    name := "";
    ghost var d := data[..];
    while n < 8 && data[offset + n] != 0
      invariant n <= 8
      invariant SectionName(d, offset, 0) == name + SectionName(d, offset, n)
    {
      assert name + ([data[offset + n] as char] + SectionName(d, offset, n + 1)) ==
             (name + [data[offset + n] as char]) + SectionName(d, offset, n + 1);
      name := name + [data[offset + n] as char];
      n := n + 1;
    }
    assert name + "" == name;
  }

  method ReadSection(data: array<Byte>, offset: U64) returns (s: Section)
    requires data.Length <= MAX_SIZE && offset + SECTION_SIZE <= data.Length
    ensures s == SectionAt(data[..], offset)
  {
    hide U32At;
    var name := ReadSectionName(data, offset);
    var _, virtualSize := ReadU32(data, offset + 8);
    var _, virtualAddress := ReadU32(data, offset + 12);
    var _, rawSize := ReadU32(data, offset + 16);
    var _, rawOffset := ReadU32(data, offset + 20);
    var _, characteristics := ReadU32(data, offset + 36);
    return Section(name, virtualAddress, virtualSize, rawOffset, rawSize, characteristics, -1.0);
  }

  method ReadSections(data: array<Byte>, offset: U64, count: nat) returns (table: seq<Section>)
    requires data.Length <= MAX_SIZE && offset <= 0xffff_ffff && count <= 96
    ensures table == SectionsAt(data[..], offset, count)
  {
    hide SectionAt;
    table := [];
    ghost var d := data[..];
    ghost var whole := SectionsAt(d, offset, count);
    for i := 0 to count
      invariant whole == table + SectionsAt(d, offset + i * SECTION_SIZE, count - i)
    {
      var off: U64 := offset + i * SECTION_SIZE;
      if off + SECTION_SIZE > data.Length {
        break;
      }
      var item := ReadSection(data, off);
      ghost var rest := SectionsAt(d, offset + (i + 1) * SECTION_SIZE, count - i - 1);
      assert table + ([item] + rest) == (table + [item]) + rest;
      table := table + [item];
    }
    assert table + [] == table;
  }

  method CountBytes(data: array<Byte>, offset: nat, available: nat) returns (counts: array<nat>)
    requires offset + available <= data.Length
    ensures fresh(counts) && counts[..] == Histogram(data[offset..offset + available])
  {
    counts := new nat[256](_ => 0);
    ghost var d := data[..];
    for i := 0 to available
      invariant fresh(counts) && counts.Length == 256
      invariant data[..] == d
      invariant forall b | 0 <= b < 256 :: counts[b] == Count(d[offset..offset + i], b)
    {
      var ch := data[offset + i];
      assert d[offset..offset + i + 1] == d[offset..offset + i] + [ch];
      assert d[offset..offset + i + 1][..i] == d[offset..offset + i];
      counts[ch] := counts[ch] + 1;
    }
    assert d[offset..offset + available] == data[offset..offset + available];
  }

  method EntropyOf(data: array<Byte>, offset: nat, length: nat, entropy: seq<nat> -> real) returns (r: real)
    ensures r == ByteEntropy(data[..], offset, length, entropy)
  {
    if offset >= data.Length || length == 0 {
      return -1.0;
    }
    var available := Min(length, data.Length - offset);
    ghost var d := data[..];
    var counts := CountBytes(data, offset, available);
    assert data[offset..offset + available] == d[offset..offset + available];
    return entropy(counts[..]);
  }

  lemma RawEndOfNone(ss: seq<Section>)
    ensures RawEnd(ss[..0]) == 0
  {
  }

  lemma RawEndStep(ss: seq<Section>, i: nat)
    requires i < |ss|
    ensures RawEnd(ss[..i + 1]) ==
            if ss[i].rawSize != 0 then Max(RawEnd(ss[..i]), ss[i].rawOffset + ss[i].rawSize) else RawEnd(ss[..i])
  {
    assert ss[..i + 1][..i] == ss[..i];
  }

  method FillSectionStats(data: array<Byte>, pe: PeQuick, entropy: seq<nat> -> real) returns (out: PeQuick)
    requires data.Length <= MAX_SIZE
    ensures out == WithStats(data[..], pe, entropy)
  {
    hide ByteEntropy, RawEnd;
    var table := pe.sectionTable;
    var rawEnd: U64 := 0;
    ghost var d := data[..];
    ghost var done := WithEntropies(d, pe.sectionTable, entropy);
    RawEndOfNone(pe.sectionTable);
    for i := 0 to |table|
      invariant |table| == |pe.sectionTable|
      invariant rawEnd == RawEnd(pe.sectionTable[..i])
      invariant data[..] == d
      invariant forall j | 0 <= j < i :: table[j] == done[j]
      invariant forall j | i <= j < |table| :: table[j] == pe.sectionTable[j]
    {
      var section := table[i];
      RawEndStep(pe.sectionTable, i);
      if section.rawSize != 0 {
        var end: U64 := section.rawOffset + section.rawSize;
        rawEnd := Max(rawEnd, end);
      }
      var e := section.entropy;
      if section.rawSize != 0 && section.rawOffset < data.Length {
        e := EntropyOf(data, section.rawOffset, section.rawSize, entropy);
      } else if section.virtualSize != 0 && section.virtualAddress < data.Length {
        e := EntropyOf(data, section.virtualAddress, section.virtualSize, entropy);
      }
      table := table[i := section.(entropy := e)];
    }
    assert pe.sectionTable[..|table|] == pe.sectionTable;
    assert table == done;
    out := pe.(sectionTable := table, rawImageEnd := rawEnd);
    if rawEnd != 0 && rawEnd < data.Length {
      out := out.(overlaySize := data.Length - rawEnd);
    }
  }

  // ----- the whole parse

  method ReadDirectory(data: array<Byte>, dir: U64, count: U32, n: nat) returns (va: U32, size: U32)
    requires data.Length <= MAX_SIZE && dir + 8 * n + 8 <= data.Length
    ensures va == DirectoryVa(data[..], dir, count, n) && size == DirectorySize(data[..], dir, count, n)
  {
    hide U32At;
    va, size := 0, 0;
    if count > n {
      var _, v := ReadU32(data, dir + 8 * n);
      var _, s := ReadU32(data, dir + 8 * n + 4);
      return v, s;
    }
  }

  method ReadOptionalFields(data: array<Byte>, pe: PeQuick, o: U64, dir: U64, is64: bool, imageBase: U64)
    returns (out: PeQuick)
    requires data.Length <= MAX_SIZE && o + 72 <= dir - 4 && dir + 128 <= data.Length
    ensures out == OptionalFields(data[..], pe, o, dir, is64, imageBase)
  {
    hide U32At, U16At, DirectoryVa, DirectorySize;
    var _, count := ReadU32(data, dir - 4);
    var _, entry := ReadU32(data, o + 16);
    var _, imageSize := ReadU32(data, o + 56);
    var _, checksum := ReadU32(data, o + 64);
    var _, subsystem := ReadU16(data, o + 68);
    var exportRva, exportSize := ReadDirectory(data, dir, count, 0);
    var importRva, importSize := ReadDirectory(data, dir, count, 1);
    var clrRva, clrSize := ReadDirectory(data, dir, count, 14);
    out := pe.(
      is64 := is64,
      entryRva := entry,
      imageBase := imageBase,
      sizeOfImage := imageSize,
      checksum := checksum,
      subsystem := subsystem,
      exportRva := exportRva,
      exportSize := exportSize,
      importRva := importRva,
      importSize := importSize,
      hasClr := count > 14 && clrRva != 0 && clrSize != 0);
  }

  method ReadOptional(data: array<Byte>, pe: PeQuick, o: U64) returns (out: PeQuick)
    requires data.Length <= MAX_SIZE && IsPe(data[..]) && HasMagic(data[..]) && o == OptionalOffset(data[..])
    ensures out == WithOptional(data[..], pe)
  {
    hide U32At, U16At, U64At, OptionalFields, IsPe;
    var _, magic := ReadU16(data, o);
    out := pe.(optionalMagic := magic);
    if magic == 0x10b && o + OPTIONAL32_SIZE <= data.Length {
      var _, imageBase := ReadU32(data, o + 28);
      out := ReadOptionalFields(data, out, o, o + 96, false, imageBase);
    } else if magic == 0x20b && o + OPTIONAL64_SIZE <= data.Length {
      var _, imageBase := ReadU64(data, o + 24);
      out := ReadOptionalFields(data, out, o, o + 112, true, imageBase);
    }
  }

  /** The offset of the NT headers of a PE image; none for anything else. */
  method FindNtHeaders(data: array<Byte>) returns (r: Option<U64>)
    requires data.Length <= MAX_SIZE
    ensures r.Some? <==> IsPe(data[..])
    ensures r.Some? ==> r.value == U32At(data[..], 60)
  {
    hide U32At, U16At;
    if data.Length < DOS_SIZE {
      return None;
    }
    var _, magic := ReadU16(data, 0);
    if magic != 0x5A4D {
      return None;
    }
    var _, lfanew := ReadU32(data, 60);
    if lfanew == 0 || lfanew >= 0x8000_0000 {
      return None;
    }
    var nt: U64 := lfanew;
    var headersEnd: U64 := nt + 4 + FILE_SIZE;
    if headersEnd > data.Length {
      return None;
    }
    var _, signature := ReadU32(data, nt);
    return if signature == 0x4550 then Some(nt) else None;
  }

  method ParsePe(data: array<Byte>, entropy: seq<nat> -> real) returns (out: PeQuick)
    requires data.Length <= MAX_SIZE
    ensures out == PeOf(data[..], entropy)
  {
    hide U32At, U16At, IsPe, WithOptional, SectionsAt, WithStats, Imports, Exports;
    out := NO_PE;
    var nt := FindNtHeaders(data);
    if nt.None? {
      return;
    }
    ghost var d := data[..];
    NtInside(d);
    var file: U64 := nt.value + 4;
    var _, machine := ReadU16(data, file);
    var _, sections := ReadU16(data, file + 2);
    var _, timestamp := ReadU32(data, file + 4);
    var _, optionalSize := ReadU16(data, file + 16);
    var _, characteristics := ReadU16(data, file + 18);
    out := out.(valid := true, machine := machine, sections := sections, timestamp := timestamp,
                characteristics := characteristics);
    assert out == FileHeader(d);
    var o: U64 := file + FILE_SIZE;
    if optionalSize < 2 || o + 2 > data.Length {
      return;
    }
    out := ReadOptional(data, out, o);
    var table := ReadSections(data, o + optionalSize, Min(sections, 96));
    assert table == SectionTable(d);
    StartEmpty(d);
    out := FillSectionStats(data, out.(sectionTable := table), entropy);
    StatsKeep(d, WithOptional(d, FileHeader(d)).(sectionTable := table), entropy);
    ghost var p := out;
    out := ParseImports(data, out);
    ImportsIgnored(d, p, out.imports);
    out := ParseExports(data, out);
    assert [] + Imports(d, p) == Imports(d, p) && [] + Exports(d, p) == Exports(d, p);
  }

  lemma NtInside(d: Bytes)
    requires IsPe(d)
    ensures 64 <= |d| && U32At(d, 60) < 0x8000_0000 && U32At(d, 60) + 24 <= |d|
  {
  }

  lemma StartEmpty(d: Bytes)
    requires IsPe(d) && HasMagic(d)
    ensures var p := WithOptional(d, FileHeader(d));
            p.imports == [] && p.exports == []
  {
    hide IsPe, U16At, U32At, U64At, DirectoryVa, DirectorySize;
  }

  lemma StatsKeep(d: Bytes, p: PeQuick, entropy: seq<nat> -> real)
    requires |d| <= MAX_SIZE
    ensures WithStats(d, p, entropy).imports == p.imports && WithStats(d, p, entropy).exports == p.exports
  {
  }

  lemma ImportsIgnored(d: Bytes, p: PeQuick, imports: seq<ImportDll>)
    ensures Exports(d, p.(imports := imports)) == Exports(d, p)
  {
  }
}
