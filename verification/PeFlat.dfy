/** Flat images: tables and names stand at their RVAs taken as file offsets. They parse exactly,
    whatever the section table says, since the flat offset is the first candidate; only an empty
    table of thunks makes the parser go on to the other candidates. */
module PeFlat {
  import opened Text
  import opened PeFormat
  import opened PeProperties

  datatype Entry = ByName(name: string) | ByOrdinal

  datatype Dll = Dll(name: string, entries: seq<Entry>)

  // ----- what a flat image encodes

  predicate FlatEntry(d: Bytes, is64: bool, o: nat, e: Entry) {
    var t := ThunkAt(d, is64, o);
    && t.Some? && t.value != 0
    && match e
       case ByOrdinal => IsOrdinal(is64, t.value)
       case ByName(name) => !IsOrdinal(is64, t.value) && LowRva(t.value) < |d| && NamedAt(d, LowRva(t.value) + 2, name)
  }

  /** The entries stand at `o`, and the table ends with a zero thunk, the buffer or the limit `n`. */
  predicate FlatEntries(d: Bytes, is64: bool, o: nat, es: seq<Entry>, n: nat)
    decreases n
  {
    if es == [] then
      n == 0 || ThunkAt(d, is64, o) == None || ThunkAt(d, is64, o) == Some(0)
    else
      n > 0 && FlatEntry(d, is64, o, es[0]) && FlatEntries(d, is64, o + ThunkSize(is64), es[1..], n - 1)
  }

  predicate FlatDll(d: Bytes, is64: bool, o: nat, dll: Dll) {
    var desc := DescriptorAt(d, o);
    && desc.Some? && !desc.value.IsZero()
    && desc.value.name < |d| && NamedAt(d, desc.value.name, dll.name)
    && var thunk := desc.value.Thunk();
       if thunk == 0 then dll.entries == []
       else thunk < |d| && FlatEntries(d, is64, thunk, dll.entries, MAX_THUNKS)
  }

  /** The descriptors stand at `o` up to a zero one, the end of the buffer or the limit `n`. */
  predicate FlatTable(d: Bytes, is64: bool, o: nat, dlls: seq<Dll>, n: nat)
    decreases n
  {
    if dlls == [] then
      n == 0 || DescriptorAt(d, o).None? || DescriptorAt(d, o).value.IsZero()
    else
      n > 0 && FlatDll(d, is64, o, dlls[0]) && FlatTable(d, is64, o + DESCRIPTOR_SIZE, dlls[1..], n - 1)
  }

  // ----- what the parser should report for it

  function EntryNames(es: seq<Entry>): seq<string> {
    if es == [] then []
    else (match es[0] case ByName(name) => [name] case ByOrdinal => []) + EntryNames(es[1..])
  }

  function OrdinalCount(es: seq<Entry>): nat {
    if es == [] then 0 else (if es[0].ByOrdinal? then 1 else 0) + OrdinalCount(es[1..])
  }

  function Reported(dlls: seq<Dll>): (r: seq<ImportDll>)
    ensures |r| == |dlls|
    ensures forall i | 0 <= i < |dlls| ::
              r[i] == ImportDll(dlls[i].name, EntryNames(dlls[i].entries), OrdinalCount(dlls[i].entries))
  {
    seq(|dlls|, i requires 0 <= i < |dlls| =>
      ImportDll(dlls[i].name, EntryNames(dlls[i].entries), OrdinalCount(dlls[i].entries)))
  }

  // ----- exactness

  lemma FlatNameFirst(d: Bytes, ss: seq<Section>, rva: U32, skip: nat, s: string)
    requires rva < |d| && NamedAt(d, rva + skip, s)
    ensures FirstName(d, RvaOffsets(ss, |d|, rva), skip) == s
  {
    hide RvaOffsets, RunAt, NameAt;
    RvaOffsetsExact(ss, |d|, rva);
    NameAtIff(d, rva + skip, s);
  }

  lemma {:induction false} FlatThunks(d: Bytes, ss: seq<Section>, is64: bool, o: nat, es: seq<Entry>, n: nat)
    requires FlatEntries(d, is64, o, es, n)
    ensures ReadThunks(d, ss, is64, o, n) == Thunks(EntryNames(es), OrdinalCount(es))
    decreases n
  {
    hide ThunkAt, NamedAt, RvaOffsets, FirstName;
    if es != [] {
      FlatThunks(d, ss, is64, o + ThunkSize(is64), es[1..], n - 1);
      match es[0] {
        case ByOrdinal =>
        case ByName(name) =>
          FlatNameFirst(d, ss, LowRva(ThunkAt(d, is64, o).value), 2, name);
          NamedIsNotEmpty(d, LowRva(ThunkAt(d, is64, o).value) + 2, name);
      }
    }
  }

  lemma NamedIsNotEmpty(d: Bytes, o: nat, s: string)
    requires NamedAt(d, o, s)
    ensures s != ""
  {
  }

  lemma {:induction false} SomethingReported(es: seq<Entry>)
    ensures es == [] <==> EntryNames(es) == [] && OrdinalCount(es) == 0
  {
  }

  /** No candidate of the thunk RVA has a table with anything in it. */
  predicate NoThunks(d: Bytes, ss: seq<Section>, is64: bool, rva: U32) {
    rva == 0 ||
    forall i | 0 <= i < |RvaOffsets(ss, |d|, rva)| ::
      ReadThunks(d, ss, is64, RvaOffsets(ss, |d|, rva)[i], MAX_THUNKS).Empty()
  }

  lemma {:induction false} FirstThunksEmptyIff(d: Bytes, ss: seq<Section>, is64: bool, offs: seq<nat>)
    ensures FirstThunks(d, ss, is64, offs).Empty() <==>
            forall i | 0 <= i < |offs| :: ReadThunks(d, ss, is64, offs[i], MAX_THUNKS).Empty()
  {
    hide ReadThunks;
    if offs != [] {
      FirstThunksEmptyIff(d, ss, is64, offs[1..]);
      forall i | 0 < i < |offs|
        ensures offs[i] == offs[1..][i - 1]
      {
      }
      if i :| 0 <= i < |offs[1..]| && !ReadThunks(d, ss, is64, offs[1..][i], MAX_THUNKS).Empty() {
        assert !ReadThunks(d, ss, is64, offs[i + 1], MAX_THUNKS).Empty();
      }
    }
  }

  /** The DLL is reported with exactly its entries. */
  predicate ThunksExact(d: Bytes, ss: seq<Section>, is64: bool, o: nat, dll: Dll)
    requires FlatDll(d, is64, o, dll)
  {
    DllThunks(d, ss, is64, DescriptorAt(d, o).value) == Thunks(EntryNames(dll.entries), OrdinalCount(dll.entries))
  }

  lemma FlatDllThunksIff(d: Bytes, ss: seq<Section>, is64: bool, o: nat, dll: Dll)
    requires FlatDll(d, is64, o, dll)
    ensures ThunksExact(d, ss, is64, o, dll) <==>
            dll.entries != [] || NoThunks(d, ss, is64, DescriptorAt(d, o).value.Thunk())
  {
    hide NamedAt, RvaOffsets, FlatEntries, ReadThunks, DescriptorAt;
    var rva := DescriptorAt(d, o).value.Thunk();
    SomethingReported(dll.entries);
    if rva != 0 {
      RvaOffsetsExact(ss, |d|, rva);
      FlatThunks(d, ss, is64, rva, dll.entries, MAX_THUNKS);
      FirstThunksEmptyIff(d, ss, is64, RvaOffsets(ss, |d|, rva));
    }
  }

  /** Every DLL of the table has entries, or no candidate of its thunk RVA has any. */
  predicate NothingElsewhere(d: Bytes, ss: seq<Section>, is64: bool, o: nat, dlls: seq<Dll>)
    decreases dlls
  {
    dlls == [] ||
    (&& (dlls[0].entries != [] || (DescriptorAt(d, o).Some? && NoThunks(d, ss, is64, DescriptorAt(d, o).value.Thunk())))
     && NothingElsewhere(d, ss, is64, o + DESCRIPTOR_SIZE, dlls[1..]))
  }

  lemma {:induction false} FlatDlls(d: Bytes, ss: seq<Section>, is64: bool, o: nat, dlls: seq<Dll>, n: nat)
    requires FlatTable(d, is64, o, dlls, n)
    ensures Dlls(d, ss, is64, o, n) == Reported(dlls) <==> NothingElsewhere(d, ss, is64, o, dlls)
    ensures |Dlls(d, ss, is64, o, n)| == |dlls|
    decreases n
  {
    hide DescriptorAt, NamedAt, RvaOffsets, FirstName, DllThunks, FlatEntries, EntryNames, OrdinalCount;
    hide NoThunks, Reported;
    NothingReported(dlls);
    if dlls != [] {
      FlatDlls(d, ss, is64, o + DESCRIPTOR_SIZE, dlls[1..], n - 1);
      FlatDllThunksIff(d, ss, is64, o, dlls[0]);
      FlatNameFirst(d, ss, DescriptorAt(d, o).value.name, 0, dlls[0].name);
      NamedIsNotEmpty(d, DescriptorAt(d, o).value.name, dlls[0].name);
      ReportedStep(dlls);
      var t := DllThunks(d, ss, is64, DescriptorAt(d, o).value);
      SameCons(ImportDll(dlls[0].name, t.names, t.ordinalCount), Dlls(d, ss, is64, o + DESCRIPTOR_SIZE, n - 1),
               ImportDll(dlls[0].name, EntryNames(dlls[0].entries), OrdinalCount(dlls[0].entries)),
               Reported(dlls[1..]));
    }
  }

  lemma NothingReported(dlls: seq<Dll>)
    ensures dlls == [] ==> Reported(dlls) == []
  {
  }

  lemma ReportedStep(dlls: seq<Dll>)
    requires dlls != []
    ensures Reported(dlls) ==
            [ImportDll(dlls[0].name, EntryNames(dlls[0].entries), OrdinalCount(dlls[0].entries))] + Reported(dlls[1..])
  {
  }

  lemma SameCons(x: ImportDll, xs: seq<ImportDll>, y: ImportDll, ys: seq<ImportDll>)
    ensures [x] + xs == [y] + ys <==> x == y && xs == ys
  {
    if [x] + xs == [y] + ys {
      assert x == ([x] + xs)[0] && y == ([y] + ys)[0];
      assert xs == ([x] + xs)[1..] && ys == ([y] + ys)[1..];
    }
  }

  /** The image has a flat import table of these DLLs, at least one. */
  predicate FlatImports(d: Bytes, pe: PeQuick, dlls: seq<Dll>) {
    && pe.importRva != 0 && pe.importSize >= DESCRIPTOR_SIZE && pe.importRva < |d|
    && dlls != [] && FlatTable(d, pe.is64, pe.importRva, dlls, DescriptorLimit(pe.importSize))
  }

  /** A flat import table is reported exactly as it is encoded if and only if no DLL without entries
      gets some from another candidate of its thunk RVA. */
  lemma FlatImportsExact(d: Bytes, pe: PeQuick, dlls: seq<Dll>)
    requires FlatImports(d, pe, dlls)
    ensures Imports(d, pe) == Reported(dlls) <==> NothingElsewhere(d, pe.sectionTable, pe.is64, pe.importRva, dlls)
    ensures (forall i | 0 <= i < |dlls| :: dlls[i].entries != []) ==> Imports(d, pe) == Reported(dlls)
  {
    hide DescriptorAt, NamedAt, RvaOffsets, FirstName, Dlls, Reported, NothingElsewhere;
    var ss := pe.sectionTable;
    RvaOffsetsExact(ss, |d|, pe.importRva);
    var first := DescriptorAt(d, pe.importRva).value;
    FlatNameFirst(d, ss, first.name, 0, dlls[0].name);
    NamedIsNotEmpty(d, first.name, dlls[0].name);
    FlatDlls(d, ss, pe.is64, pe.importRva, dlls, DescriptorLimit(pe.importSize));
    if forall i | 0 <= i < |dlls| :: dlls[i].entries != [] {
      AllHaveEntries(d, ss, pe.is64, pe.importRva, dlls);
    }
  }

  lemma {:induction false} AllHaveEntries(d: Bytes, ss: seq<Section>, is64: bool, o: nat, dlls: seq<Dll>)
    requires forall i | 0 <= i < |dlls| :: dlls[i].entries != []
    ensures NothingElsewhere(d, ss, is64, o, dlls)
    decreases dlls
  {
    hide DescriptorAt, NoThunks;
    if dlls != [] {
      AllHaveEntries(d, ss, is64, o + DESCRIPTOR_SIZE, dlls[1..]);
    }
  }

  /** A descriptor that is not zero and names a DLL stands at the offset. */
  predicate NamesDll(d: Bytes, ss: seq<Section>, o: nat) {
    && DescriptorAt(d, o).Some? && !DescriptorAt(d, o).value.IsZero()
    && NameAtRva(d, ss, DescriptorAt(d, o).value.name) != ""
  }

  lemma {:induction false} FirstTableIff(d: Bytes, ss: seq<Section>, offs: seq<nat>)
    ensures FirstTable(d, ss, offs).None? <==> forall i | 0 <= i < |offs| :: !NamesDll(d, ss, offs[i])
    ensures FirstTable(d, ss, offs).Some? ==> NamesDll(d, ss, FirstTable(d, ss, offs).value)
  {
    hide DescriptorAt, NameAtRva;
    if offs != [] {
      FirstTableIff(d, ss, offs[1..]);
      forall i | 0 < i < |offs|
        ensures offs[i] == offs[1..][i - 1]
      {
      }
      if i :| 0 <= i < |offs[1..]| && NamesDll(d, ss, offs[1..][i]) {
        assert NamesDll(d, ss, offs[i + 1]);
      }
    }
  }

  /** An image imports nothing exactly when no candidate of its import RVA names a DLL: an empty table
      at the flat offset alone is not enough. */
  lemma NoImportsIff(d: Bytes, pe: PeQuick)
    requires pe.importRva != 0 && pe.importSize >= DESCRIPTOR_SIZE
    ensures var offs := RvaOffsets(pe.sectionTable, |d|, pe.importRva);
            Imports(d, pe) == [] <==> forall i | 0 <= i < |offs| :: !NamesDll(d, pe.sectionTable, offs[i])
  {
    hide DescriptorAt, NameAtRva, RvaOffsets, FirstTable, DllThunks;
    FirstTableIff(d, pe.sectionTable, RvaOffsets(pe.sectionTable, |d|, pe.importRva));
  }

  /** Name entry `i` of a flat export directory. */
  predicate FlatExport(d: Bytes, addressOfNames: U32, i: nat, name: string) {
    var entry := EntryRva(addressOfNames, i);
    && entry + 4 <= |d|
    && U32At(d, entry) < |d|
    && NamedAt(d, U32At(d, entry), name)
  }

  lemma FlatExportEntry(d: Bytes, ss: seq<Section>, addressOfNames: U32, i: nat, name: string)
    requires FlatExport(d, addressOfNames, i, name)
    ensures FirstU32(d, RvaOffsets(ss, |d|, EntryRva(addressOfNames, i))) == Some(U32At(d, EntryRva(addressOfNames, i)))
    ensures NameAtRva(d, ss, U32At(d, EntryRva(addressOfNames, i))) == name && name != ""
  {
    hide NamedAt, RvaOffsets, FirstName, U32At;
    var entry := EntryRva(addressOfNames, i);
    RvaOffsetsExact(ss, |d|, entry);
    FlatNameFirst(d, ss, U32At(d, entry), 0, name);
    NamedIsNotEmpty(d, U32At(d, entry), name);
  }

  lemma {:induction false} FlatExportNames(d: Bytes, ss: seq<Section>, addressOfNames: U32, i: nat, names: seq<string>)
    requires i <= |names|
    requires forall k | i <= k < |names| :: FlatExport(d, addressOfNames, k, names[k])
    ensures ExportNames(d, ss, addressOfNames, i, |names|) == names[i..]
    decreases |names| - i
  {
    hide FlatExport, RvaOffsets, NameAtRva, FirstU32, U32At, EntryRva;
    if i < |names| {
      FlatExportNames(d, ss, addressOfNames, i + 1, names);
      FlatExportEntry(d, ss, addressOfNames, i, names[i]);
    }
  }

  /** The image has a flat export directory with these names, up to the limit. */
  predicate FlatExports(d: Bytes, pe: PeQuick, dir: ExportDirectory, names: seq<string>) {
    && pe.exportRva != 0 && pe.exportSize >= EXPORT_SIZE
    && ExportDirectoryAt(d, pe.exportRva) == Some(dir)
    && dir.numberOfNames != 0 && dir.addressOfNames != 0
    && |names| == Min(dir.numberOfNames, MAX_EXPORTS)
    && forall k | 0 <= k < |names| :: FlatExport(d, dir.addressOfNames, k, names[k])
  }

  /** A flat export directory parses to exactly its first 512 names. */
  lemma FlatExportsExact(d: Bytes, pe: PeQuick, dir: ExportDirectory, names: seq<string>)
    requires FlatExports(d, pe, dir, names)
    ensures Exports(d, pe) == names
  {
    hide RvaOffsets, FlatExport, ExportNames, U32At;
    RvaOffsetsExact(pe.sectionTable, |d|, pe.exportRva);
    FlatExportNames(d, pe.sectionTable, dir.addressOfNames, 0, names);
    assert names[0..] == names;
  }

  /** Both for the result of the whole parse, each on its own. */
  lemma FlatImageParses(d: Bytes, entropy: seq<nat> -> real, dlls: seq<Dll>, dir: ExportDirectory, names: seq<string>)
    requires |d| <= MAX_SIZE && IsPe(d) && HasMagic(d)
    ensures var pe := PeOf(d, entropy);
            && (FlatImports(d, pe, dlls) ==>
                  (pe.imports == Reported(dlls) <==> NothingElsewhere(d, pe.sectionTable, pe.is64, pe.importRva, dlls)))
            && (FlatExports(d, pe, dir, names) ==> pe.exports == names)
  {
    hide FlatImports, FlatExports, NothingElsewhere, Reported, IsPe, HasMagic, PeOf, Imports, Exports;
    var pe := PeOf(d, entropy);
    if FlatImports(d, pe, dlls) {
      FlatImportsExact(d, pe, dlls);
    }
    if FlatExports(d, pe, dir, names) {
      FlatExportsExact(d, pe, dir, names);
    }
    ResultIrrelevant(d, entropy);
  }

  lemma ResultIrrelevant(d: Bytes, entropy: seq<nat> -> real)
    requires |d| <= MAX_SIZE && IsPe(d) && HasMagic(d)
    ensures var pe := PeOf(d, entropy);
            pe.imports == Imports(d, pe) && pe.exports == Exports(d, pe)
  {
    hide IsPe, HasMagic, Dlls, ExportNames, FirstTable, FirstDirectory, RvaOffsets, WithStats, WithOptional;
    hide SectionTable;
  }
}
