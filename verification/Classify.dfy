/** The cache-free meaning of one region: which reasons it gets and the finding it becomes. */
module Classify {
  import opened Text
  import opened PeFormat
  import opened PeProperties
  import opened Memory
  import opened Metadata
  import opened Anomalies

  const PRIVATE_PE := "PrivatePE"
  const WRITE_EXEC := "Write+Exec"
  const IMAGE_RWX := "ImageRWX"
  const HEADER_NOT_MZ := "ImageHeaderNotMZ"
  const HEADER_MISMATCH := "ImageHeaderMismatch"
  const NOT_IN_MODULES := "ImageNotInModuleList"
  const PATH_MISMATCH := "ModulePathMismatch"
  const SECTION_MISMATCH := "SectionProtectionMismatch"
  const SUSPICIOUS_IMPORTS := "SuspiciousImports"
  const HIGH_ENTROPY := "HighEntropyExecutable"
  const LARGE_OVERLAY := "LargeOverlay"
  const THREAD_START := "PrivateThreadStart"

  function When(c: bool, reason: string): seq<string> { if c then [reason] else [] }

  predicate IsImage(r: Region) { r.kind == MEM_IMAGE }

  predicate IsPrivate(r: Region) { r.kind == MEM_PRIVATE }

  predicate AtImageBase(r: Region) { IsImage(r) && r.allocationBase == r.base }

  // ----- what is read

  function Head(w: World, r: Region): (d: Bytes)
    ensures |d| <= 4096
  {
    if Readable(r.protect) then ReadRemote(w, r.base, Min(r.size, 4096)) else []
  }

  predicate HeadIsPe(w: World, r: Region) { ContainsPe(w.files, Head(w, r)) }

  function RegionEntropy(w: World, r: Region): real { EntropyOf(w.files, Head(w, r)) }

  /** The header in memory and the one on disk are both PE, neither managed, and differ. */
  predicate HeaderDiffers(fs: FileSystem, head: Bytes, mapped: string)
    requires |head| <= 4096
  {
    && head != [] && mapped != ""
    && Pe(fs, head).valid
    && var disk := ReadFilePrefix(fs, mapped, 4096);
       && disk != [] && Pe(fs, disk).valid
       && !Pe(fs, head).hasClr && !Pe(fs, disk).hasClr
       && !SamePeIdentity(Pe(fs, head), Pe(fs, disk))
  }

  // ----- module list

  function ModulePath(w: World, r: Region): string {
    if !AtImageBase(r) then ""
    else match FindModule(w.modules, r.allocationBase) case None => "" case Some(m) => m.path
  }

  function ModuleReasons(w: World, r: Region, isPe: bool, mapped: string): seq<string> {
    if !AtImageBase(r) || !w.modulesKnown || !isPe then []
    else
      match FindModule(w.modules, r.allocationBase)
      case None => [NOT_IN_MODULES]
      case Some(m) =>
        When(mapped != "" && m.path != "" && NormalizePath(w.files, mapped) != NormalizePath(w.files, m.path),
             PATH_MISMATCH)
  }

  // ----- section

  function Rva(r: Region): U64 { (r.base - r.allocationBase) % ADDRESS_SPACE }

  /** The section of the image the region lies in. */
  function SectionOf(layout: ImageLayout, r: Region): Option<Section> {
    if IsImage(r) && layout.valid then FindSection(layout.pe.sectionTable, Rva(r)) else None
  }

  predicate SectionDiffers(r: Region, s: Option<Section>) {
    && s.Some? && IsImage(r) && HasWriteExec(r.protect)
    && !(SectionWrite(s.value.characteristics) && SectionExecute(s.value.characteristics))
  }

  // ----- imports and overlay

  /** The private image of a region, read up to 64 KiB. */
  function PrivateImage(w: World, r: Region): Option<PeQuick> {
    if IsPrivate(r) && HeadIsPe(w, r) && Readable(r.protect) then
      var d := ReadRemote(w, r.base, Min(r.size, 65536));
      if d != [] && Pe(w.files, d).valid then Some(Pe(w.files, d)) else None
    else None
  }

  function RegionMetadata(w: World, r: Region, layout: ImageLayout): PeMetadata {
    if IsImage(r) && layout.valid then MetadataOf(layout.pe)
    else match PrivateImage(w, r) case None => NO_METADATA case Some(pe) => MetadataOf(pe)
  }

  function RegionOverlay(w: World, r: Region, fileOverlay: nat): nat {
    if IsImage(r) then fileOverlay
    else match PrivateImage(w, r) case None => 0 case Some(pe) => pe.overlaySize
  }

  function RegionThreads(w: World, r: Region): seq<U32> {
    if IsPrivate(r) && HasExecute(r.protect) then ThreadsInRegion(w.threads, r.base, r.size) else []
  }

  // ----- reasons

  function BaseReasons(w: World, r: Region, layout: ImageLayout, mapped: string): seq<string> {
    var isPe := HeadIsPe(w, r);
    When(IsPrivate(r) && isPe, PRIVATE_PE) +
    When(HasWriteExec(r.protect), WRITE_EXEC) +
    When(IsImage(r) && HasWriteExec(r.protect), IMAGE_RWX) +
    When(AtImageBase(r) && Readable(r.protect) && !isPe, HEADER_NOT_MZ) +
    When(AtImageBase(r) && isPe && HeaderDiffers(w.files, Head(w, r), mapped), HEADER_MISMATCH) +
    ModuleReasons(w, r, isPe, mapped) +
    When(SectionDiffers(r, SectionOf(layout, r)), SECTION_MISMATCH)
  }

  function WithImports(r: Region, metadata: PeMetadata, before: seq<string>): seq<string> {
    before + When(metadata.apiTags != [] && (IsPrivate(r) || (before != [] && |metadata.apiTags| >= 2)),
                  SUSPICIOUS_IMPORTS)
  }

  function WithEntropy(r: Region, entropy: real, before: seq<string>): seq<string> {
    before + When(HasExecute(r.protect) && entropy >= 7.2 && (IsPrivate(r) || before != []), HIGH_ENTROPY)
  }

  const LARGE := 1024 * 1024

  function WithOverlay(overlay: nat, before: seq<string>): seq<string> {
    before + When(overlay >= LARGE && before != [], LARGE_OVERLAY)
  }

  function WithThreads(threads: seq<U32>, before: seq<string>): seq<string> {
    before + When(threads != [], THREAD_START)
  }

  function Reasons(w: World, r: Region, layout: ImageLayout, mapped: string, fileOverlay: nat): seq<string> {
    var a := BaseReasons(w, r, layout, mapped);
    var b := WithImports(r, RegionMetadata(w, r, layout), a);
    var c := WithEntropy(r, RegionEntropy(w, r), b);
    var d := WithOverlay(RegionOverlay(w, r, fileOverlay), c);
    WithThreads(RegionThreads(w, r), d)
  }

  const HIGH_REASONS := [
    PRIVATE_PE, IMAGE_RWX, HEADER_MISMATCH, NOT_IN_MODULES, PATH_MISMATCH, SECTION_MISMATCH, SUSPICIOUS_IMPORTS,
    HIGH_ENTROPY, LARGE_OVERLAY, THREAD_START]

  function Severity(reasons: seq<string>): string {
    if exists i :: 0 <= i < |HIGH_REASONS| && HIGH_REASONS[i] in reasons then "high"
    else if WRITE_EXEC in reasons then "medium"
    else "low"
  }

  // ----- fingerprint

  function Joined(reasons: seq<string>): string {
    if reasons == [] then "" else reasons[0] + ("," + Joined(reasons[1..]))
  }

  /** The text that is hashed. */
  function FingerprintText(process: string, mapped: string, kind: string, protect: string, isPe: bool, section: string,
                           reasons: seq<string>): string {
    process + ("|" + (mapped + ("|" + (kind + ("|" + (protect + ("|" + ((if isPe then "pe" else "raw") +
    ("|" + (section + ("|" + Joined(reasons))))))))))))
  }

  function Fingerprint(fs: FileSystem, process: string, mapped: string, r: Region, isPe: bool, section: string,
                       reasons: seq<string>): string {
    fs.sha(FingerprintText(fs.lower(process), fs.lower(mapped), TypeToString(r.kind), ProtectToString(r.protect),
                           isPe, section, reasons))
  }

  // ----- the finding

  function SectionNameOf(s: Option<Section>): string { if s.Some? then s.value.name else "" }

  /** The finding for a committed region, given the overlay of its file; none without a reason. */
  function Finding(w: World, pid: nat, r: Region, fileOverlay: nat): Option<Anomaly> {
    var mapped := w.mappedPath(r.base);
    var layout := LayoutOf(w, r.allocationBase);
    var reasons := Reasons(w, r, layout, mapped, fileOverlay);
    if reasons == [] then None
    else
      var s := SectionOf(layout, r);
      var m := RegionMetadata(w, r, layout);
      Some(Anomaly(
        pid,
        w.process,
        r.base,
        r.allocationBase,
        r.size,
        TypeToString(r.kind),
        ProtectToString(r.protect),
        mapped,
        ModulePath(w, r),
        SectionNameOf(s),
        if s.Some? then SectionFlags(s.value.characteristics) else "",
        RegionEntropy(w, r),
        if s.Some? then s.value.entropy else -1.0,
        RegionOverlay(w, r, fileOverlay),
        m.importDlls,
        m.importNames,
        m.exportNames,
        m.apiTags,
        HeadIsPe(w, r),
        reasons,
        Severity(reasons),
        Fingerprint(w.files, w.process, mapped, r, HeadIsPe(w, r), SectionNameOf(s), reasons),
        RegionThreads(w, r)))
  }

  predicate Suppressed(fs: FileSystem, baseline: seq<string>, a: Anomaly) {
    exists i :: 0 <= i < |baseline| && fs.lower(baseline[i]) == fs.lower(a.fingerprint)
  }

  predicate Skipped(w: World, o: Options, r: Region) {
    r.state != MEM_COMMIT || ShouldIgnore(w.files, o, w.process, w.mappedPath(r.base))
  }

  function AsList(a: Option<Anomaly>): seq<Anomaly> { if a.Some? then [a.value] else [] }

  /** What one region adds to the report, given the overlay of its file. */
  function Emitted(w: World, o: Options, pid: nat, r: Region, fileOverlay: nat): seq<Anomaly> {
    if Skipped(w, o, r) then []
    else
      var a := Finding(w, pid, r, fileOverlay);
      if a.Some? && Suppressed(w.files, o.baseline, a.value) then [] else AsList(a)
  }

  // ----- the walk

  function Next(r: Region): U64 { (r.base + r.size) % ADDRESS_SPACE }

  /** The regions visited from address `p` on; the walk stops at the limit, when a query fails, and
      when an answer would not move it forward, also after an address wrap. */
  function Visited(w: World, p: U64): seq<Region>
    decreases ADDRESS_SPACE - p
  {
    if p >= w.maxAddr then []
    else
      match w.query(p)
      case None => []
      case Some(r) => if Next(r) <= p then [] else [r] + Visited(w, Next(r))
  }

  /** The cache-free scan: every visited region on its own. */
  function ScanRegions(w: World, o: Options, pid: nat, rs: seq<Region>): seq<Anomaly> {
    if rs == [] then []
    else
      Emitted(w, o, pid, rs[0], OverlayOf(w.files, w.mappedPath(rs[0].base))) + ScanRegions(w, o, pid, rs[1..])
  }

  function ScanOf(w: World, o: Options, pid: nat): seq<Anomaly> { ScanRegions(w, o, pid, Visited(w, 0)) }
}
