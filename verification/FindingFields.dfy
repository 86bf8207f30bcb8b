/** What every field of a finding is, told from what the system answers: protections and types by
    their numbers, bytes by the reads that give them, threads by where they start. */
module FindingFields {
  import opened Text
  import opened Json
  import opened PeFormat
  import opened PeProperties
  import opened Memory
  import opened Metadata
  import opened Anomalies
  import opened Classify
  import opened ReasonLists
  import opened Signals
  import opened Scan
  import opened Walk

  // ----- tables

  function GuardMark(protect: U32): string { if protect / 0x100 % 2 == 1 then "G" else "" }

  /** The page protections of the Windows API: no access, read, read-write, write-copy, execute,
      execute-read, execute-read-write, execute-write-copy; the guard bit is 0x100. */
  lemma ProtectTable(protect: U32)
    ensures var b, s, g := protect % 0x100, ProtectToString(protect), GuardMark(protect);
            && (b == 0x01 ==> s == "NOACC")
            && (b == 0x02 ==> s == "R--" + g)
            && (b == 0x04 || b == 0x08 ==> s == "RW-" + g)
            && (b == 0x10 ==> s == "--X" + g)
            && (b == 0x20 ==> s == "R-X" + g)
            && (b == 0x40 || b == 0x80 ==> s == "RWX" + g)
            && (b !in {0x01, 0x02, 0x04, 0x08, 0x10, 0x20, 0x40, 0x80} ==> s == "---" + g)
  {
  }

  lemma ProtectTests(protect: U32)
    ensures HasExecute(protect) <==> protect % 0x100 in {0x10, 0x20, 0x40, 0x80}
    ensures HasWriteExec(protect) <==> protect % 0x100 in {0x40, 0x80}
    ensures Readable(protect) <==> protect % 0x100 != 0x01 && protect / 0x100 % 2 == 0
  {
  }

  lemma TypeTable(kind: U32)
    ensures TypeToString(kind) ==
            if kind == 0x1000000 then "IMAGE" else if kind == 0x40000 then "MAPPED" else "PRIVATE"
  {
  }

  lemma TypeTests(r: Region)
    ensures IsImage(r) <==> r.kind == 0x1000000
    ensures IsPrivate(r) <==> r.kind == 0x20000
    ensures AtImageBase(r) <==> r.kind == 0x1000000 && r.base == r.allocationBase
  {
  }

  /** Bits 30, 31 and 29 of the section characteristics. */
  lemma SectionFlagsTable(c: U32)
    ensures var s := SectionFlags(c);
            && |s| == 3
            && s[0] == (if c / 0x40000000 % 2 == 1 then 'R' else '-')
            && s[1] == (if c >= 0x80000000 then 'W' else '-')
            && s[2] == (if c / 0x20000000 % 2 == 1 then 'X' else '-')
  {
  }

  /** The twelve reasons as they are written, in their order. */
  lemma ReasonNames()
    ensures ORDER == [
      "PrivatePE", "Write+Exec", "ImageRWX", "ImageHeaderNotMZ", "ImageHeaderMismatch", "ImageNotInModuleList",
      "ModulePathMismatch", "SectionProtectionMismatch", "SuspiciousImports", "HighEntropyExecutable",
      "LargeOverlay", "PrivateThreadStart"]
  {
  }

  /** Two headers have the same identity exactly when both are PE and these six fields agree. */
  lemma IdentityIff(a: PeQuick, b: PeQuick)
    ensures SamePeIdentity(a, b) <==>
            && a.valid && b.valid
            && (a.machine, a.sections, a.optionalMagic, a.timestamp, a.characteristics, a.subsystem) ==
               (b.machine, b.sections, b.optionalMagic, b.timestamp, b.characteristics, b.subsystem)
  {
  }

  /** One MiB makes an overlay large, sixteen findings get evidence, and 64 MiB can be read. */
  lemma Limits()
    ensures LARGE == 1048576 && EVIDENCE_LIMIT == 16 && READ_LIMIT == 67108864
  {
  }

  // ----- paths

  /** Slashes are turned, one long-path prefix is dropped, and case is folded: with case folding left
      out, character `i` of the result is character `i`, or `i + 4`, of the path. */
  lemma NormalizeExact(fs: FileSystem, path: string)
    requires forall s :: fs.lower(s) == s
    ensures var skip := if |path| >= 4 && LongPrefixed(path) then 4 else 0;
            && |NormalizePath(fs, path)| == |path| - skip
            && forall i | 0 <= i < |path| - skip ::
                 NormalizePath(fs, path)[i] == if path[i + skip] == '/' then '\\' else path[i + skip]
  {
    PrefixIff(path);
  }

  predicate Slash(c: char) { c == '/' || c == '\\' }

  /** The path starts with two slashes of either kind, a question mark and a slash. */
  predicate LongPrefixed(path: string)
    requires |path| >= 4
  {
    Slash(path[0]) && Slash(path[1]) && path[2] == '?' && Slash(path[3])
  }

  lemma PrefixIff(path: string)
    ensures LONG_PREFIX <= Backslashes(path) <==> |path| >= 4 && LongPrefixed(path)
  {
    var p := Backslashes(path);
    var q := ['\\', '\\', '?', '\\'];
    assert LONG_PREFIX == q;
    if |path| >= 4 {
      assert p[0] == (if path[0] == '/' then '\\' else path[0]) && p[1] == (if path[1] == '/' then '\\' else path[1]);
      assert p[2] == (if path[2] == '/' then '\\' else path[2]) && p[3] == (if path[3] == '/' then '\\' else path[3]);
    }
    assert q <= p <==> |p| >= 4 && p[0] == q[0] && p[1] == q[1] && p[2] == q[2] && p[3] == q[3];
  }

  /** Case folding comes last. */
  lemma NormalizeFolds(fs: FileSystem, path: string)
    ensures NormalizePath(fs, path) == fs.lower(NormalizePath(fs.(lower := (s: string) => s), path))
  {
  }

  // ----- what was read

  /** A read that gives at most the wanted bytes. */
  function Got(w: World, base: U64, n: nat): Bytes {
    if |w.memory(base, n)| <= n then w.memory(base, n) else w.memory(base, n)[..n]
  }

  function Lesser(a: nat, b: nat): nat { if a < b then a else b }

  lemma HistogramExact(d: Bytes, b: Byte)
    ensures Histogram(d)[b] == multiset(d)[b]
  {
    CountIs(d, b);
  }

  lemma {:induction false} CountIs(d: Bytes, b: Byte)
    ensures Count(d, b) == multiset(d)[b]
  {
    if d != [] {
      CountIs(d[..|d| - 1], b);
      assert d == d[..|d| - 1] + [d[|d| - 1]];
    }
  }

  /** The protection lets the region be read: not without access, and not guarded. */
  predicate Touchable(r: Region) { r.protect % 0x100 != 0x01 && r.protect / 0x100 % 2 == 0 }

  /** The first 4 KiB of a region that can be read. */
  function FirstBytes(w: World, r: Region): (d: Bytes)
    ensures |d| <= 4096
  {
    if Touchable(r) then Got(w, r.base, Lesser(r.size, 4096)) else []
  }

  lemma FirstBytesAreHead(w: World, r: Region)
    ensures Head(w, r) == FirstBytes(w, r)
  {
  }

  /** The entropy is that of the first bytes, and the PE flag needs 256 of them. */
  lemma HeadExact(w: World, r: Region)
    ensures HeadIsPe(w, r) <==> |FirstBytes(w, r)| >= 256 && PeOf(FirstBytes(w, r), w.files.entropy).valid
    ensures FirstBytes(w, r) == [] ==> RegionEntropy(w, r) == 0.0
    ensures FirstBytes(w, r) != [] ==> RegionEntropy(w, r) == w.files.entropy(Histogram(FirstBytes(w, r)))
  {
    hide PeOf, Histogram, FirstBytes, Head;
    FirstBytesAreHead(w, r);
  }

  /** An image is parsed from the longest of three reads that gives anything. */
  function ImageBytes(w: World, base: U64): Bytes {
    if Got(w, base, 65536) != [] then Got(w, base, 65536)
    else if Got(w, base, 16384) != [] then Got(w, base, 16384)
    else Got(w, base, 4096)
  }

  lemma NothingIsNoPe(entropy: seq<nat> -> real)
    ensures PeOf([], entropy) == NO_PE
  {
  }

  lemma LayoutExact(w: World, base: U64)
    ensures |ImageBytes(w, base)| <= 65536
    ensures LayoutOf(w, base).pe == PeOf(ImageBytes(w, base), w.files.entropy)
    ensures LayoutOf(w, base).valid == PeOf(ImageBytes(w, base), w.files.entropy).valid
  {
    hide PeOf;
    NothingIsNoPe(w.files.entropy);
  }

  /** The parsed header a finding takes its imports from: of the image, or of a private region that
      starts with a PE header, read again up to 64 KiB. */
  function HeaderRead(w: World, r: Region): PeQuick {
    if r.kind == 0x1000000 then PeOf(ImageBytes(w, r.allocationBase), w.files.entropy)
    else if r.kind == 0x20000 && HeadIsPe(w, r) then PeOf(Got(w, r.base, Lesser(r.size, 65536)), w.files.entropy)
    else NO_PE
  }

  lemma NoNames(entropy: seq<nat> -> real)
    ensures MetadataOf(NO_PE) == NO_METADATA && NO_PE.overlaySize == 0 && !NO_PE.valid
  {
  }

  lemma InvalidIsNone(d: Bytes, entropy: seq<nat> -> real)
    requires |d| <= MAX_SIZE && !PeOf(d, entropy).valid
    ensures PeOf(d, entropy) == NO_PE
  {
    hide IsPe, HasMagic, Imports, Exports, SectionTable, U16At, U32At, U64At, DirectoryVa, DirectorySize, RawEnd;
  }

  lemma HeadReadable(w: World, r: Region)
    requires HeadIsPe(w, r)
    ensures Readable(r.protect)
  {
    hide PeOf;
  }

  lemma HeaderExact(w: World, r: Region, fileOverlay: nat)
    ensures RegionMetadata(w, r, LayoutOf(w, r.allocationBase)) == MetadataOf(HeaderRead(w, r))
    ensures RegionOverlay(w, r, fileOverlay) ==
            if r.kind == 0x1000000 then fileOverlay else HeaderRead(w, r).overlaySize
  {
    hide PeOf, LayoutOf, HeadIsPe, ImageBytes, MetadataOf, Readable;
    LayoutExact(w, r.allocationBase);
    NoNames(w.files.entropy);
    NothingIsNoPe(w.files.entropy);
    if HeadIsPe(w, r) {
      HeadReadable(w, r);
    }
    if r.kind == 0x1000000 && !HeaderRead(w, r).valid {
      InvalidIsNone(ImageBytes(w, r.allocationBase), w.files.entropy);
    } else if r.kind == 0x20000 && HeadIsPe(w, r) && !HeaderRead(w, r).valid {
      InvalidIsNone(Got(w, r.base, Lesser(r.size, 65536)), w.files.entropy);
    }
  }

  // ----- module and section

  /** The first module of this base, among those listed. */
  lemma {:induction false} FirstModule(modules: seq<Module>, base: U64)
    ensures FindModule(modules, base).None? <==> forall i | 0 <= i < |modules| :: modules[i].base != base
    ensures FindModule(modules, base).Some? ==>
              exists i ::
                && 0 <= i < |modules| && modules[i].base == base && FindModule(modules, base) == Some(modules[i])
                && forall j | 0 <= j < i :: modules[j].base != base
  {
    if modules != [] && modules[0].base != base {
      FirstModule(modules[1..], base);
      forall i | 0 < i < |modules|
        ensures modules[i] == modules[1..][i - 1]
      {
      }
      if FindModule(modules[1..], base).Some? {
        var i :| && 0 <= i < |modules[1..]| && modules[1..][i].base == base
                 && FindModule(modules[1..], base) == Some(modules[1..][i])
                 && forall j | 0 <= j < i :: modules[1..][j].base != base;
        assert modules[i + 1].base == base;
      }
    }
  }

  /** The RVA lies in the section, whose span is the larger of its two sizes. */
  predicate InSection(s: Section, rva: nat) {
    s.virtualAddress <= rva && (rva - s.virtualAddress < s.virtualSize || rva - s.virtualAddress < s.rawSize)
  }

  lemma HoldsIff(s: Section, rva: nat)
    ensures Holds(s, rva) <==> InSection(s, rva)
  {
  }

  lemma {:induction false} FirstSection(ss: seq<Section>, rva: nat)
    ensures FindSection(ss, rva).None? <==> forall i | 0 <= i < |ss| :: !InSection(ss[i], rva)
    ensures FindSection(ss, rva).Some? ==>
              exists i ::
                && 0 <= i < |ss| && InSection(ss[i], rva) && FindSection(ss, rva) == Some(ss[i])
                && forall j | 0 <= j < i :: !InSection(ss[j], rva)
  {
    hide InSection, Holds;
    if ss != [] {
      HoldsIff(ss[0], rva);
      if !Holds(ss[0], rva) {
        FirstSection(ss[1..], rva);
        forall i | 0 < i < |ss|
          ensures ss[i] == ss[1..][i - 1]
        {
        }
        if FindSection(ss[1..], rva).Some? {
          var i :| && 0 <= i < |ss[1..]| && InSection(ss[1..][i], rva) && FindSection(ss[1..], rva) == Some(ss[1..][i])
                   && forall j | 0 <= j < i :: !InSection(ss[1..][j], rva);
          assert InSection(ss[i + 1], rva);
        }
      }
    }
  }

  // ----- threads

  /** A thread starts in the region, and the end of the region does not wrap. */
  ghost predicate StartsIn(w: World, r: Region, t: U32) {
    && r.base + r.size < ADDRESS_SPACE
    && exists k :: 0 <= k < |w.threads| && w.threads[k].tid == t && r.base <= w.threads[k].address < r.base + r.size
  }

  predicate PrivateCode(r: Region) { r.kind == 0x20000 && r.protect % 0x100 in {0x10, 0x20, 0x40, 0x80} }

  lemma ThreadsExact(w: World, r: Region, t: U32)
    ensures t in RegionThreads(w, r) <==> PrivateCode(r) && StartsIn(w, r, t)
  {
    hide ThreadsInRegion;
    ThreadsIff(w.threads, r.base, r.size, t);
    ProtectTests(r.protect);
  }

  lemma AnyThread(w: World, r: Region)
    ensures RegionThreads(w, r) != [] <==> exists t: U32 :: PrivateCode(r) && StartsIn(w, r, t)
  {
    hide RegionThreads, PrivateCode, StartsIn;
    if RegionThreads(w, r) != [] {
      var t := RegionThreads(w, r)[0];
      assert t in RegionThreads(w, r);
      ThreadsExact(w, r, t);
    }
    if t: U32 :| PrivateCode(r) && StartsIn(w, r, t) {
      ThreadsExact(w, r, t);
    }
  }

  // ----- when a region is reported

  lemma BaseIff(w: World, r: Region, layout: ImageLayout, mapped: string)
    ensures BaseReasons(w, r, layout, mapped) != [] <==>
            || (IsPrivate(r) && HeadIsPe(w, r))
            || HasWriteExec(r.protect)
            || (AtImageBase(r) && Readable(r.protect) && !HeadIsPe(w, r))
            || (AtImageBase(r) && HeadIsPe(w, r) && HeaderDiffers(w.files, Head(w, r), mapped))
            || ModuleReasons(w, r, HeadIsPe(w, r), mapped) != []
  {
    hide HeadIsPe, HeaderDiffers, Readable, Head, ModuleReasons, SectionOf;
  }

  lemma ReasonsIff(w: World, r: Region, layout: ImageLayout, mapped: string, overlay: nat)
    ensures Reasons(w, r, layout, mapped, overlay) != [] <==>
            || BaseReasons(w, r, layout, mapped) != []
            || (IsPrivate(r) && HasExecute(r.protect) && RegionEntropy(w, r) >= 7.2)
            || RegionThreads(w, r) != []
  {
    hide BaseReasons, RegionMetadata, RegionOverlay, RegionThreads, RegionEntropy, HasExecute, IsPrivate;
    if IsPrivate(r) && RegionMetadata(w, r, layout).apiTags != [] {
      PrivateTagsHaveReason(w, r, layout, mapped);
    }
  }

  /** The image of a listed or unlisted module does not fit the module list. */
  predicate ModuleDiffers(w: World, r: Region) {
    && w.modulesKnown
    && (FindModule(w.modules, r.base).None? ||
        var path, mapped := FindModule(w.modules, r.base).value.path, w.mappedPath(r.base);
        path != "" && mapped != "" && NormalizePath(w.files, path) != NormalizePath(w.files, mapped))
  }

  lemma ModuleReasonsIff(w: World, r: Region)
    ensures ModuleReasons(w, r, HeadIsPe(w, r), w.mappedPath(r.base)) != [] <==>
            AtImageBase(r) && HeadIsPe(w, r) && ModuleDiffers(w, r)
  {
    hide NormalizePath, FindModule, HeadIsPe;
  }

  /** Private executable bytes of high entropy, or with a thread that starts in them. */
  ghost predicate SuspectCode(w: World, r: Region) {
    PrivateCode(r) && (RegionEntropy(w, r) >= 7.2 || exists t: U32 :: StartsIn(w, r, t))
  }

  /** A readable image base without a PE header, or one whose header or module differs. */
  predicate SuspectImage(w: World, r: Region) {
    if HeadIsPe(w, r) then HeaderDiffers(w.files, Head(w, r), w.mappedPath(r.base)) || ModuleDiffers(w, r)
    else Touchable(r)
  }

  lemma SuspectCodeIs(w: World, r: Region)
    ensures SuspectCode(w, r) <==>
            (PrivateCode(r) && RegionEntropy(w, r) >= 7.2) || exists t: U32 :: PrivateCode(r) && StartsIn(w, r, t)
  {
    hide PrivateCode, StartsIn, RegionEntropy;
  }

  lemma SuspectImageIs(w: World, r: Region)
    ensures SuspectImage(w, r) <==>
            || (HeadIsPe(w, r) && HeaderDiffers(w.files, Head(w, r), w.mappedPath(r.base)))
            || (HeadIsPe(w, r) && ModuleDiffers(w, r))
            || (!HeadIsPe(w, r) && Readable(r.protect))
  {
    hide HeadIsPe, HeaderDiffers, ModuleDiffers, Head;
    ProtectTests(r.protect);
  }

  /** A committed region that is not ignored is a finding exactly in these cases; the overlay of its
      file never decides. */
  lemma FindingIff(w: World, pid: nat, r: Region, overlay: nat)
    ensures Finding(w, pid, r, overlay).Some? <==>
            || r.protect % 0x100 in {0x40, 0x80}
            || (r.kind == 0x20000 && HeadIsPe(w, r))
            || SuspectCode(w, r)
            || (r.kind == 0x1000000 && r.base == r.allocationBase && SuspectImage(w, r))
  {
    hide *;
    SuspectCodeIs(w, r);
    SuspectImageIs(w, r);
    var mapped, layout := w.mappedPath(r.base), LayoutOf(w, r.allocationBase);
    FindingShows(w, pid, r, overlay);
    ReasonsIff(w, r, layout, mapped, overlay);
    BaseIff(w, r, layout, mapped);
    ModuleReasonsIff(w, r);
    AnyThread(w, r);
    TypeTests(r);
    ProtectTests(r.protect);
    CodeIs(r);
  }

  lemma CodeIs(r: Region)
    ensures PrivateCode(r) <==> IsPrivate(r) && HasExecute(r.protect)
  {
  }

  // ----- the fields

  /** The fields that come straight from the answers of the system. */
  lemma AnswerFields(w: World, pid: nat, r: Region, overlay: nat)
    requires Finding(w, pid, r, overlay).Some?
    ensures var a := Finding(w, pid, r, overlay).value;
            && a.pid == pid && a.process == w.process
            && a.base == r.base && a.allocationBase == r.allocationBase && a.size == r.size
            && a.kind == TypeToString(r.kind) && a.protect == ProtectToString(r.protect)
            && a.mappedPath == w.mappedPath(r.base)
            && a.isPe == HeadIsPe(w, r) && a.regionEntropy == RegionEntropy(w, r)
            && (forall t: U32 :: t in a.threadIds <==> PrivateCode(r) && StartsIn(w, r, t))
  {
    hide Reasons, LayoutOf, RegionMetadata, RegionThreads, SectionOf, Fingerprint, HeadIsPe, RegionOverlay;
    hide RegionEntropy;
    hide ModulePath, Severity, PrivateCode, StartsIn, TypeToString, ProtectToString, SectionFlags;
    forall t: U32
      ensures t in RegionThreads(w, r) <==> PrivateCode(r) && StartsIn(w, r, t)
    {
      ThreadsExact(w, r, t);
    }
  }

  lemma ModuleField(w: World, pid: nat, r: Region, overlay: nat)
    requires Finding(w, pid, r, overlay).Some?
    ensures var a, m := Finding(w, pid, r, overlay).value, FindModule(w.modules, r.base);
            a.modulePath == if r.kind == 0x1000000 && r.base == r.allocationBase && m.Some? then m.value.path else ""
  {
    hide Reasons, LayoutOf, RegionMetadata, RegionThreads, SectionOf, Fingerprint, HeadIsPe, RegionOverlay;
    hide RegionEntropy;
    hide Severity, FindModule, TypeToString, ProtectToString, SectionFlags;
  }

  /** The fields of the section the region lies in; its RVA is taken from the allocation base. */
  lemma SectionFieldsExact(w: World, pid: nat, r: Region, overlay: nat)
    requires Finding(w, pid, r, overlay).Some?
    ensures var a := Finding(w, pid, r, overlay).value;
            var s := FindSection(PeOf(ImageBytes(w, r.allocationBase), w.files.entropy).sectionTable,
                                 (r.base - r.allocationBase) % ADDRESS_SPACE);
            if r.kind == 0x1000000 && s.Some? then
              && a.sectionName == s.value.name && a.sectionFlags == SectionFlags(s.value.characteristics)
              && a.sectionEntropy == s.value.entropy
            else a.sectionName == "" && a.sectionFlags == "" && a.sectionEntropy == -1.0
  {
    hide Reasons, LayoutOf, RegionMetadata, RegionThreads, Fingerprint, HeadIsPe, RegionOverlay, RegionEntropy, PeOf;
    hide Severity, ModulePath, TypeToString, ProtectToString, SectionFlags, ImageBytes, FindSection;
    LayoutExact(w, r.allocationBase);
    NoSections(w.files.entropy);
    if !LayoutOf(w, r.allocationBase).valid {
      InvalidIsNone(ImageBytes(w, r.allocationBase), w.files.entropy);
      EmptyTable((r.base - r.allocationBase) % ADDRESS_SPACE);
    }
  }

  lemma NoSections(entropy: seq<nat> -> real)
    ensures NO_PE.sectionTable == []
  {
  }

  lemma EmptyTable(rva: nat)
    ensures FindSection([], rva) == None
  {
  }

  /** The names and the overlay come from the header read; the lists keep the first distinct names. */
  lemma HeaderFields(w: World, pid: nat, r: Region, overlay: nat)
    requires Finding(w, pid, r, overlay).Some?
    ensures var a, pe := Finding(w, pid, r, overlay).value, HeaderRead(w, r);
            && a.importDlls == Upto(Metadata.Distinct(DllNames(pe.imports)), 32)
            && a.importNames == Upto(Metadata.Distinct(ImportedNames(pe.imports)), 96)
            && a.exportNames == Upto(Metadata.Distinct(pe.exports), 96)
            && a.apiTags == Metadata.Distinct(TagsOfAll(ImportedNames(pe.imports)))
            && a.overlaySize == if r.kind == 0x1000000 then overlay else pe.overlaySize
  {
    hide Reasons, LayoutOf, RegionMetadata, RegionThreads, Fingerprint, HeadIsPe, RegionOverlay, RegionEntropy, PeOf;
    hide Severity, ModulePath, TypeToString, ProtectToString, SectionFlags, SectionOf, MetadataOf, HeaderRead;
    HeaderExact(w, r, overlay);
    MetadataExact(HeaderRead(w, r));
  }

  // ----- the report

  /** The finding of a visited region that is committed, not ignored and not in the baseline. */
  ghost predicate ReportedFor(w: World, o: Options, pid: nat, r: Region, a: Anomaly) {
    && r.state == 0x1000
    && (forall p | p in o.ignoreProcesses :: !w.files.matches(w.process, p))
    && (forall p | p in o.ignorePaths :: !w.files.matches(w.mappedPath(r.base), p))
    && Finding(w, pid, r, OverlayOf(w.files, w.mappedPath(r.base))) == Some(a)
    && (forall f | f in o.baseline :: w.files.lower(f) != w.files.lower(a.fingerprint))
  }

  lemma SkippedIff(w: World, o: Options, r: Region)
    ensures Skipped(w, o, r) <==>
            || r.state != 0x1000
            || (exists p :: p in o.ignoreProcesses && w.files.matches(w.process, p))
            || (exists p :: p in o.ignorePaths && w.files.matches(w.mappedPath(r.base), p))
  {
    if i :| 0 <= i < |o.ignoreProcesses| && w.files.matches(w.process, o.ignoreProcesses[i]) {
      assert o.ignoreProcesses[i] in o.ignoreProcesses;
    }
    if i :| 0 <= i < |o.ignorePaths| && w.files.matches(w.mappedPath(r.base), o.ignorePaths[i]) {
      assert o.ignorePaths[i] in o.ignorePaths;
    }
  }

  lemma SuppressedIff(fs: FileSystem, baseline: seq<string>, a: Anomaly)
    ensures Suppressed(fs, baseline, a) <==> exists f :: f in baseline && fs.lower(f) == fs.lower(a.fingerprint)
  {
    if i :| 0 <= i < |baseline| && fs.lower(baseline[i]) == fs.lower(a.fingerprint) {
      assert baseline[i] in baseline;
    }
  }

  lemma EmittedIff(w: World, o: Options, pid: nat, r: Region, a: Anomaly)
    ensures a in Emitted(w, o, pid, r, OverlayOf(w.files, w.mappedPath(r.base))) <==> ReportedFor(w, o, pid, r, a)
  {
    hide Finding, Skipped, Suppressed, OverlayOf;
    SkippedIff(w, o, r);
    SuppressedIff(w.files, o.baseline, a);
  }

  lemma {:induction false} ScanIff(w: World, o: Options, pid: nat, rs: seq<Region>, a: Anomaly)
    ensures a in ScanRegions(w, o, pid, rs) <==> exists i :: 0 <= i < |rs| && ReportedFor(w, o, pid, rs[i], a)
  {
    hide Emitted, OverlayOf, ReportedFor;
    if rs != [] {
      EmittedIff(w, o, pid, rs[0], a);
      ScanIff(w, o, pid, rs[1..], a);
      forall i | 0 < i < |rs|
        ensures rs[i] == rs[1..][i - 1]
      {
      }
      if i :| 0 <= i < |rs[1..]| && ReportedFor(w, o, pid, rs[1..][i], a) {
        assert ReportedFor(w, o, pid, rs[i + 1], a);
      }
    }
  }

  /** The report holds exactly the findings of the visited regions that are committed, match no ignore
      pattern and have a fingerprint that is, up to case, not in the baseline. */
  lemma ReportIff(w: World, o: Options, pid: nat, a: Anomaly)
    requires PathsAgree(w, o, Visited(w, 0))
    ensures a in Output(w, o, pid) <==>
            exists i :: 0 <= i < |Visited(w, 0)| && ReportedFor(w, o, pid, Visited(w, 0)[i], a)
  {
    hide Visited, CachedScan, ScanRegions, PathsAgree, ReportedFor;
    WalkIsTransparent(w, o, pid);
    ScanIff(w, o, pid, Visited(w, 0), a);
  }
}
