/** `ScanPid` of memscan.cpp as an object: the cursor, both caches, the output and the evidence
    counter are its fields, and its loop is proved against the cache-free scan of `Classify`. */
module Scan {
  import opened Text
  import opened PeFormat
  import opened PeProperties
  import PeParse
  import opened Memory
  import opened Metadata
  import opened Anomalies
  import opened Classify
  import Evidence

  // ----- the overlay cache as a value

  function CachedOverlay(fs: FileSystem, cache: map<string, nat>, path: string): nat {
    var key := NormalizePath(fs, path);
    if key in cache then cache[key] else OverlayOf(fs, path)
  }

  function UpdatedCache(fs: FileSystem, cache: map<string, nat>, path: string): map<string, nat> {
    var key := NormalizePath(fs, path);
    if key in cache then cache else cache[key := OverlayOf(fs, path)]
  }

  /** The overlay of a file is looked up for the image regions that are not skipped. */
  predicate LooksUp(w: World, o: Options, r: Region) { !Skipped(w, o, r) && IsImage(r) }

  /** The scan with the overlay cache threaded through; a cached value may come from another path
      with the same key. */
  function CachedScan(w: World, o: Options, pid: nat, rs: seq<Region>, cache: map<string, nat>): seq<Anomaly>
    decreases rs
  {
    if rs == [] then []
    else
      var r := rs[0];
      var mapped := w.mappedPath(r.base);
      if LooksUp(w, o, r) then
        Emitted(w, o, pid, r, CachedOverlay(w.files, cache, mapped)) +
        CachedScan(w, o, pid, rs[1..], UpdatedCache(w.files, cache, mapped))
      else Emitted(w, o, pid, r, 0) + CachedScan(w, o, pid, rs[1..], cache)
  }

  lemma OverlayIgnored(w: World, o: Options, pid: nat, r: Region, x: nat, y: nat)
    requires !LooksUp(w, o, r)
    ensures Emitted(w, o, pid, r, x) == Emitted(w, o, pid, r, y)
  {
    hide BaseReasons, LayoutOf, RegionMetadata, RegionThreads, PrivateImage, SectionOf, Fingerprint, Suppressed;
  }

  /** Looked-up paths among these regions that share a key have files with the same overlay. */
  ghost predicate PathsAgree(w: World, o: Options, rs: seq<Region>) {
    forall i, j | 0 <= i < |rs| && 0 <= j < |rs| && LooksUp(w, o, rs[i]) && LooksUp(w, o, rs[j]) ::
      NormalizePath(w.files, w.mappedPath(rs[i].base)) == NormalizePath(w.files, w.mappedPath(rs[j].base)) ==>
        OverlayOf(w.files, w.mappedPath(rs[i].base)) == OverlayOf(w.files, w.mappedPath(rs[j].base))
  }

  /** What the cache holds for these regions is what their files say. */
  ghost predicate CacheAgrees(w: World, o: Options, rs: seq<Region>, cache: map<string, nat>) {
    forall i | 0 <= i < |rs| && LooksUp(w, o, rs[i]) ::
      var path := w.mappedPath(rs[i].base);
      NormalizePath(w.files, path) in cache ==> cache[NormalizePath(w.files, path)] == OverlayOf(w.files, path)
  }

  lemma {:induction false} CacheIsTransparent(w: World, o: Options, pid: nat, rs: seq<Region>, cache: map<string, nat>)
    requires PathsAgree(w, o, rs) && CacheAgrees(w, o, rs, cache)
    ensures CachedScan(w, o, pid, rs, cache) == ScanRegions(w, o, pid, rs)
    decreases rs
  {
    hide Emitted, LooksUp, NormalizePath, OverlayOf;
    if rs != [] {
      var r := rs[0];
      var mapped := w.mappedPath(r.base);
      var rest := rs[1..];
      assert forall i | 0 <= i < |rest| :: rest[i] == rs[i + 1];
      assert PathsAgree(w, o, rest);
      if LooksUp(w, o, r) {
        CacheAgreesAfter(w, o, rs, cache);
        CacheIsTransparent(w, o, pid, rest, UpdatedCache(w.files, cache, mapped));
      } else {
        CacheIsTransparent(w, o, pid, rest, cache);
        OverlayIgnored(w, o, pid, r, 0, OverlayOf(w.files, mapped));
      }
    }
  }

  lemma CacheAgreesAfter(w: World, o: Options, rs: seq<Region>, cache: map<string, nat>)
    requires rs != [] && LooksUp(w, o, rs[0])
    requires PathsAgree(w, o, rs) && CacheAgrees(w, o, rs, cache)
    ensures CacheAgrees(w, o, rs[1..], UpdatedCache(w.files, cache, w.mappedPath(rs[0].base)))
    ensures CachedOverlay(w.files, cache, w.mappedPath(rs[0].base)) == OverlayOf(w.files, w.mappedPath(rs[0].base))
  {
    hide LooksUp, NormalizePath, OverlayOf;
    var rest := rs[1..];
    forall i | 0 <= i < |rest| && LooksUp(w, o, rest[i])
      ensures var path := w.mappedPath(rest[i].base);
              var cache' := UpdatedCache(w.files, cache, w.mappedPath(rs[0].base));
              NormalizePath(w.files, path) in cache' ==>
                cache'[NormalizePath(w.files, path)] == OverlayOf(w.files, path)
    {
      assert rest[i] == rs[i + 1];
    }
  }

  /** In a finding for an image the overlay is shown. */
  lemma OverlayShows(w: World, o: Options, pid: nat, r: Region, x: nat, y: nat)
    requires LooksUp(w, o, r) && x != y && Emitted(w, o, pid, r, y) != []
    ensures Emitted(w, o, pid, r, x) != Emitted(w, o, pid, r, y)
  {
    hide Reasons, LayoutOf, RegionMetadata, RegionThreads, SectionOf, Fingerprint, Suppressed, HeadIsPe;
  }

  // ----- reading

  method ParseBytes(fs: FileSystem, d: Bytes) returns (pe: PeQuick)
    requires |d| <= 0x1_0000
    ensures pe == Pe(fs, d)
  {
    hide PeOf;
    var data := new Byte[|d|](i requires 0 <= i < |d| => d[i]);
    assert data[..] == d;
    pe := PeParse.ParsePe(data, fs.entropy);
  }

  /** `ByteEntropy` of memscan.cpp: the counts of all bytes, then the entropy of the counts. */
  method EntropyOfBytes(fs: FileSystem, d: Bytes) returns (entropy: real)
    ensures entropy == EntropyOf(fs, d)
  {
    if d == [] {
      return 0.0;
    }
    var data := new Byte[|d|](i requires 0 <= i < |d| => d[i]);
    var counts := PeParse.CountBytes(data, 0, data.Length);
    assert data[0..data.Length] == d;
    return fs.entropy(counts[..]);
  }

  method ProbeHead(w: World, r: Region) returns (head: Bytes, entropy: real, isPe: bool)
    ensures head == Head(w, r) && entropy == RegionEntropy(w, r) && isPe == HeadIsPe(w, r)
  {
    hide PeOf, Histogram, EntropyOf;
    head, entropy, isPe := [], 0.0, false;
    NoEntropy(w.files);
    if Readable(r.protect) {
      head := ReadRemote(w, r.base, Min(r.size, 4096));
      if head != [] {
        entropy := EntropyOfBytes(w.files, head);
        if |head| >= 0x100 {
          var pe := ParseBytes(w.files, head);
          isPe := pe.valid;
        }
      }
    }
  }

  lemma NoEntropy(fs: FileSystem)
    ensures EntropyOf(fs, []) == 0.0
  {
  }

  /** The probe sizes are tried in turn; the first that reads anything decides. */
  method ReadLayout(w: World, base: U64) returns (layout: ImageLayout)
    ensures layout == LayoutOf(w, base)
  {
    hide PeOf;
    var probes := [65536, 16384, 4096];
    for i := 0 to |probes|
      invariant i >= 1 ==> ReadRemote(w, base, 65536) == []
      invariant i >= 2 ==> ReadRemote(w, base, 16384) == []
      invariant i >= 3 ==> ReadRemote(w, base, 4096) == []
    {
      var head := ReadRemote(w, base, probes[i]);
      if head != [] {
        var pe := ParseBytes(w.files, head);
        return ImageLayout(pe.valid, pe);
      }
    }
    return ImageLayout(false, NO_PE);
  }

  method ReadOverlay(fs: FileSystem, path: string) returns (overlay: nat)
    ensures overlay == OverlayOf(fs, path)
  {
    hide PeOf;
    overlay := 0;
    if path != "" && fs.size(path).Some? {
      var head := ReadFilePrefix(fs, path, 65536);
      if head != [] {
        var pe := ParseBytes(fs, head);
        if pe.valid && pe.rawImageEnd != 0 && fs.size(path).value > pe.rawImageEnd {
          overlay := fs.size(path).value - pe.rawImageEnd;
        }
      }
    }
  }

  method ReadPrivateImage(w: World, r: Region, isPe: bool) returns (pe: Option<PeQuick>)
    requires isPe == HeadIsPe(w, r)
    ensures pe == PrivateImage(w, r)
  {
    hide PeOf, HeadIsPe;
    pe := None;
    if r.kind == MEM_PRIVATE && isPe && Readable(r.protect) {
      var bytes := ReadRemote(w, r.base, Min(r.size, 65536));
      if bytes != [] {
        var p := ParseBytes(w.files, bytes);
        if p.valid {
          pe := Some(p);
        }
      }
    }
  }

  // ----- searches

  method IsIgnored(fs: FileSystem, o: Options, process: string, path: string) returns (ignored: bool)
    ensures ignored == ShouldIgnore(fs, o, process, path)
  {
    for i := 0 to |o.ignoreProcesses|
      invariant forall k | 0 <= k < i :: !fs.matches(process, o.ignoreProcesses[k])
    {
      if fs.matches(process, o.ignoreProcesses[i]) {
        return true;
      }
    }
    for i := 0 to |o.ignorePaths|
      invariant forall k | 0 <= k < i :: !fs.matches(path, o.ignorePaths[k])
    {
      if fs.matches(path, o.ignorePaths[i]) {
        return true;
      }
    }
    return false;
  }

  method FindModuleByBase(modules: seq<Module>, base: U64) returns (r: Option<Module>)
    ensures r == FindModule(modules, base)
  {
    for i := 0 to |modules|
      invariant FindModule(modules, base) == FindModule(modules[i..], base)
    {
      if modules[i].base == base {
        return Some(modules[i]);
      }
    }
    return None;
  }

  method FindSectionForRva(ss: seq<Section>, rva: U64) returns (r: Option<Section>)
    ensures r == FindSection(ss, rva)
  {
    for i := 0 to |ss|
      invariant FindSection(ss, rva) == FindSection(ss[i..], rva)
    {
      var section := ss[i];
      var span: U32 := Max(section.virtualSize, section.rawSize);
      if span == 0 {
        continue;
      }
      var start: U64 := section.virtualAddress;
      var end: U64 := start + span;
      if rva >= start && rva < end {
        return Some(section);
      }
    }
    return None;
  }

  method CollectThreads(threads: seq<ThreadStart>, base: U64, size: U64) returns (tids: seq<U32>)
    ensures tids == ThreadsInRegion(threads, base, size)
  {
    tids := [];
    var end: U64 := (base + size) % ADDRESS_SPACE;
    if end <= base {
      return;
    }
    hide ThreadsInRegion;
    ghost var all := ThreadsInRegion(threads, base, size);
    for i := 0 to |threads|
      invariant all == tids + ThreadsInRegion(threads[i..], base, size)
    {
      ThreadStep(threads, i, base, size, tids);
      if threads[i].address >= base && threads[i].address < end {
        tids := tids + [threads[i].tid];
      }
    }
    NoThreads(base, size, tids);
  }

  lemma ThreadStep(threads: seq<ThreadStart>, i: nat, base: U64, size: U64, tids: seq<U32>)
    requires i < |threads|
    ensures var end := (base + size) % ADDRESS_SPACE;
            end > base ==>
              tids + ThreadsInRegion(threads[i..], base, size) ==
              (if base <= threads[i].address < end then tids + [threads[i].tid] else tids) +
              ThreadsInRegion(threads[i + 1..], base, size)
  {
    assert threads[i..][1..] == threads[i + 1..];
  }

  lemma NoThreads(base: U64, size: U64, tids: seq<U32>)
    ensures tids + ThreadsInRegion([], base, size) == tids
  {
  }

  method HashFingerprint(fs: FileSystem, process: string, mapped: string, r: Region, isPe: bool, section: string,
                         reasons: seq<string>)
    returns (fingerprint: string)
    ensures fingerprint == Fingerprint(fs, process, mapped, r, isPe, section, reasons)
  {
    hide TypeToString, ProtectToString;
    var list := "";
    for i := 0 to |reasons|
      invariant Joined(reasons) == list + Joined(reasons[i..])
    {
      assert reasons[i..][1..] == reasons[i + 1..];
      assert list + (reasons[i] + ("," + Joined(reasons[i + 1..]))) ==
          (list + (reasons[i] + ",")) + Joined(reasons[i + 1..]);
      list := list + (reasons[i] + ",");
    }
    assert list + "" == list;
    var head := fs.lower(process) + ("|" + (fs.lower(mapped) + "|"));
    var tail := TypeToString(r.kind) + ("|" + (ProtectToString(r.protect) + ("|" + ((if isPe then "pe" else "raw") +
                ("|" + (section + ("|" + list)))))));
    assert head + tail == fs.lower(process) + ("|" + (fs.lower(mapped) + ("|" + tail)));
    fingerprint := fs.sha(head + tail);
  }

  // ----- reasons, step by step

  method AddImageHeaderComparison(fs: FileSystem, head: Bytes, mapped: string, reasons: seq<string>)
    returns (r: seq<string>)
    requires |head| <= 4096
    ensures r == reasons + When(HeaderDiffers(fs, head, mapped), HEADER_MISMATCH)
  {
    hide PeOf;
    r := reasons;
    if head == [] || mapped == "" {
      return;
    }
    var memoryPe := ParseBytes(fs, head);
    if !memoryPe.valid {
      return;
    }
    var disk := ReadFilePrefix(fs, mapped, 4096);
    if disk == [] {
      return;
    }
    var diskPe := ParseBytes(fs, disk);
    if !diskPe.valid {
      return;
    }
    if memoryPe.hasClr || diskPe.hasClr {
      return;
    }
    if !SamePeIdentity(memoryPe, diskPe) {
      r := r + [HEADER_MISMATCH];
    }
  }

  method AddModuleConsistency(w: World, r: Region, isPe: bool, mapped: string, reasons: seq<string>)
    returns (modulePath: string, rs: seq<string>)
    ensures modulePath == ModulePath(w, r)
    ensures rs == reasons + ModuleReasons(w, r, isPe, mapped)
  {
    hide NormalizePath, FindModule;
    modulePath, rs := "", reasons;
    if r.kind != MEM_IMAGE || r.allocationBase != r.base {
      return;
    }
    var m := FindModuleByBase(w.modules, r.allocationBase);
    if m.Some? {
      modulePath := m.value.path;
    }
    if !w.modulesKnown || !isPe {
      return;
    }
    if m.None? {
      rs := rs + [NOT_IN_MODULES];
      return;
    }
    if mapped != "" && m.value.path != "" && NormalizePath(w.files, mapped) != NormalizePath(w.files, m.value.path) {
      rs := rs + [PATH_MISMATCH];
    }
  }

  /** The reasons that need neither imports nor caches, in the order they are pushed. */
  method AddHeaderReasons(w: World, r: Region, head: Bytes, isPe: bool, mapped: string)
    returns (modulePath: string, reasons: seq<string>)
    requires head == Head(w, r) && isPe == HeadIsPe(w, r)
    ensures modulePath == ModulePath(w, r)
    ensures forall layout :: BaseReasons(w, r, layout, mapped) ==
              reasons + When(SectionDiffers(r, SectionOf(layout, r)), SECTION_MISMATCH)
  {
    hide HeaderDiffers, ModuleReasons, SectionDiffers, HeadIsPe, ModulePath, Head;
    reasons := [];
    if r.kind == MEM_PRIVATE && isPe {
      reasons := reasons + [PRIVATE_PE];
    }
    if HasWriteExec(r.protect) {
      reasons := reasons + [WRITE_EXEC];
    }
    if r.kind == MEM_IMAGE && HasWriteExec(r.protect) {
      reasons := reasons + [IMAGE_RWX];
    }
    if r.kind == MEM_IMAGE && r.allocationBase == r.base && Readable(r.protect) && !isPe {
      reasons := reasons + [HEADER_NOT_MZ];
    }
    assert reasons ==
      When(IsPrivate(r) && isPe, PRIVATE_PE) + When(HasWriteExec(r.protect), WRITE_EXEC) +
      When(IsImage(r) && HasWriteExec(r.protect), IMAGE_RWX) +
      When(AtImageBase(r) && Readable(r.protect) && !isPe, HEADER_NOT_MZ);
    if r.kind == MEM_IMAGE && r.allocationBase == r.base && isPe {
      reasons := AddImageHeaderComparison(w.files, head, mapped, reasons);
    }
    modulePath, reasons := AddModuleConsistency(w, r, isPe, mapped, reasons);
  }

  method AddSectionProtectionCheck(r: Region, s: Option<Section>, reasons: seq<string>) returns (rs: seq<string>)
    requires s.Some? ==> IsImage(r)
    ensures rs == reasons + When(SectionDiffers(r, s), SECTION_MISMATCH)
  {
    rs := reasons;
    if s.None? {
      return;
    }
    var write := SectionWrite(s.value.characteristics);
    var exec := SectionExecute(s.value.characteristics);
    if r.kind == MEM_IMAGE && HasWriteExec(r.protect) && !(write && exec) {
      rs := rs + [SECTION_MISMATCH];
    }
  }

  method AddContextReasons(r: Region, metadata: PeMetadata, entropy: real, overlay: nat, threads: seq<U32>,
                           reasons: seq<string>)
    returns (rs: seq<string>)
    ensures rs == WithThreads(threads, WithOverlay(overlay, WithEntropy(r, entropy, WithImports(r, metadata, reasons))))
  {
    rs := reasons;
    if metadata.apiTags != [] && (r.kind == MEM_PRIVATE || (rs != [] && |metadata.apiTags| >= 2)) {
      rs := rs + [SUSPICIOUS_IMPORTS];
    }
    if HasExecute(r.protect) && entropy >= 7.2 && (r.kind == MEM_PRIVATE || rs != []) {
      rs := rs + [HIGH_ENTROPY];
    }
    if overlay >= 1024 * 1024 && rs != [] {
      rs := rs + [LARGE_OVERLAY];
    }
    if threads != [] {
      rs := rs + [THREAD_START];
    }
  }

  method SeverityOf(reasons: seq<string>) returns (s: string)
    ensures s == Severity(reasons)
  {
    var high :=
      PRIVATE_PE in reasons || IMAGE_RWX in reasons || HEADER_MISMATCH in reasons || NOT_IN_MODULES in reasons ||
      PATH_MISMATCH in reasons || SECTION_MISMATCH in reasons || SUSPICIOUS_IMPORTS in reasons ||
      HIGH_ENTROPY in reasons || LARGE_OVERLAY in reasons || THREAD_START in reasons;
    assert high <==> exists i :: 0 <= i < |HIGH_REASONS| && HIGH_REASONS[i] in reasons by {
      HighListed(reasons);
    }
    s := if high then "high" else if WRITE_EXEC in reasons then "medium" else "low";
  }

  lemma HighListed(reasons: seq<string>)
    ensures (exists i :: 0 <= i < |HIGH_REASONS| && HIGH_REASONS[i] in reasons) <==>
            HIGH_REASONS[0] in reasons || HIGH_REASONS[1] in reasons || HIGH_REASONS[2] in reasons ||
            HIGH_REASONS[3] in reasons || HIGH_REASONS[4] in reasons || HIGH_REASONS[5] in reasons ||
            HIGH_REASONS[6] in reasons || HIGH_REASONS[7] in reasons || HIGH_REASONS[8] in reasons ||
            HIGH_REASONS[9] in reasons
  {
  }

  method IsSuppressed(fs: FileSystem, baseline: seq<string>, a: Anomaly) returns (suppressed: bool)
    ensures suppressed == Suppressed(fs, baseline, a)
  {
    suppressed := false;
    for i := 0 to |baseline|
      invariant forall k | 0 <= k < i :: fs.lower(baseline[k]) != fs.lower(a.fingerprint)
    {
      if fs.lower(baseline[i]) == fs.lower(a.fingerprint) {
        return true;
      }
    }
  }

  // ----- the scan of one process

  const EVIDENCE_LIMIT := 16

  function FirstFew(items: seq<Anomaly>): seq<Anomaly> {
    if |items| <= EVIDENCE_LIMIT then items else items[..EVIDENCE_LIMIT]
  }

  // ----- captures

  function BytesText(d: Bytes): string { seq(|d|, i requires 0 <= i < |d| => d[i] as char) }

  /** The capture of a finding: its memory is read again, from its base. */
  function CaptureOf(w: World, a: Anomaly, sys: Evidence.Outcome): Evidence.Capture {
    Evidence.Capture(a, (n: nat) => if a.base < ADDRESS_SPACE then BytesText(ReadRemote(w, a.base, n)) else "", sys)
  }

  /** The calls of the evidence writer for these findings; `luck` is what the system answers to each. */
  function CallsOf(w: World, e: Evidence.Options, luck: nat -> Evidence.Outcome, items: seq<Anomaly>):
    (r: seq<Evidence.Call>)
    ensures |r| == |items|
  {
    seq(|items|, i requires 0 <= i < |items| => Evidence.Call(e, CaptureOf(w, items[i], luck(i))))
  }

  /** The evidence directory after a scan with these findings. */
  function Written(w: World, e: Evidence.Options, luck: nat -> Evidence.Outcome, s: Evidence.Store, out: seq<Anomaly>):
    Evidence.Store
  {
    if e.directory == "" then s else Evidence.Run(s, CallsOf(w, e, luck, FirstFew(out)))
  }

  lemma WrittenNothing(w: World, e: Evidence.Options, luck: nat -> Evidence.Outcome, s: Evidence.Store)
    ensures Written(w, e, luck, s, []) == s
  {
    assert CallsOf(w, e, luck, FirstFew([])) == [];
  }

  lemma WrittenNext(w: World, e: Evidence.Options, luck: nat -> Evidence.Outcome, s: Evidence.Store,
                    out: seq<Anomaly>, a: Anomaly)
    ensures Written(w, e, luck, s, out + [a]) ==
            if e.directory == "" || |out| >= EVIDENCE_LIMIT then Written(w, e, luck, s, out)
            else Evidence.Step(e, Written(w, e, luck, s, out), CaptureOf(w, a, luck(|out|))).0
  {
    hide Evidence.Step, CaptureOf;
    if |out| >= EVIDENCE_LIMIT {
      assert FirstFew(out + [a]) == FirstFew(out);
    } else {
      var cs := CallsOf(w, e, luck, FirstFew(out + [a]));
      assert cs[..|cs| - 1] == CallsOf(w, e, luck, FirstFew(out));
    }
  }

  class ProcessScan {
    const w: World
    const o: Options
    const pid: nat
    /** No evidence is written when this names no directory. */
    const evidence: Evidence.Options
    const directory: Evidence.EvidenceDirectory
    const luck: nat -> Evidence.Outcome

    var cursor: U64
    var imageCache: map<U64, ImageLayout>
    var overlayCache: map<string, nat>
    var out: seq<Anomaly>
    var evidenceCount: nat

    constructor (w: World, o: Options, pid: nat, evidence: Evidence.Options, directory: Evidence.EvidenceDirectory,
                 luck: nat -> Evidence.Outcome)
      ensures this.w == w && this.o == o && this.pid == pid
      ensures this.evidence == evidence && this.directory == directory && this.luck == luck
      ensures cursor == 0 && imageCache == map[] && overlayCache == map[] && out == [] && evidenceCount == 0
    {
      this.w, this.o, this.pid, this.evidence, this.directory, this.luck := w, o, pid, evidence, directory, luck;
      cursor, imageCache, overlayCache, out, evidenceCount := 0, map[], map[], [], 0;
    }

    /** Every cached layout is the one a fresh read would give. */
    ghost predicate ImagesCached()
      reads this
    {
      forall base :: base in imageCache ==> imageCache[base] == LayoutOf(w, base)
    }

    method LoadImageLayout(base: U64) returns (layout: ImageLayout)
      requires ImagesCached()
      modifies this`imageCache
      ensures ImagesCached()
      ensures layout == LayoutOf(w, base)
    {
      hide LayoutOf;
      if base in imageCache {
        return imageCache[base];
      }
      layout := ReadLayout(w, base);
      imageCache := imageCache[base := layout];
    }

    method OverlaySizeForFile(path: string) returns (overlay: nat)
      modifies this`overlayCache
      ensures overlay == CachedOverlay(w.files, old(overlayCache), path)
      ensures overlayCache == UpdatedCache(w.files, old(overlayCache), path)
    {
      hide OverlayOf, NormalizePath;
      var key := NormalizePath(w.files, path);
      if key in overlayCache {
        return overlayCache[key];
      }
      overlay := ReadOverlay(w.files, path);
      overlayCache := overlayCache[key := overlay];
    }

    /** The finding for a committed region that is not ignored. */
    method Examine(r: Region) returns (a: Option<Anomaly>)
      requires ImagesCached()
      modifies this`imageCache, this`overlayCache
      ensures ImagesCached()
      ensures var mapped := w.mappedPath(r.base);
              a == Finding(w, pid, r, if IsImage(r) then CachedOverlay(w.files, old(overlayCache), mapped) else 0)
      ensures overlayCache == if IsImage(r) then UpdatedCache(w.files, old(overlayCache), w.mappedPath(r.base))
                              else old(overlayCache)
    {
      hide LayoutOf, HeadIsPe, RegionEntropy, Head, BaseReasons, CachedOverlay, UpdatedCache, PrivateImage;
      hide WithImports, WithEntropy, WithOverlay, WithThreads, Severity, MetadataOf, Fingerprint;
      var mapped := w.mappedPath(r.base);
      var head, entropy, isPe := ProbeHead(w, r);
      var modulePath, reasons := AddHeaderReasons(w, r, head, isPe, mapped);
      var s: Option<Section> := None;
      var metadata := NO_METADATA;
      var overlay := 0;
      ghost var fileOverlay := 0;
      if r.kind == MEM_IMAGE {
        var layout := LoadImageLayout(r.allocationBase);
        if layout.valid {
          s := FindSectionForRva(layout.pe.sectionTable, Rva(r));
          metadata := ExtractPeMetadata(layout.pe);
        }
        overlay := OverlaySizeForFile(mapped);
        fileOverlay := overlay;
      }
      ghost var layout := LayoutOf(w, r.allocationBase);
      assert s == SectionOf(layout, r);
      reasons := AddSectionProtectionCheck(r, s, reasons);
      assert reasons == BaseReasons(w, r, layout, mapped);
      var image := ReadPrivateImage(w, r, isPe);
      if image.Some? {
        metadata := ExtractPeMetadata(image.value);
        overlay := image.value.overlaySize;
      }
      PrivateImageIsPrivate(w, r);
      assert metadata == RegionMetadata(w, r, layout) && overlay == RegionOverlay(w, r, fileOverlay);
      var threads: seq<U32> := [];
      if r.kind == MEM_PRIVATE && HasExecute(r.protect) {
        threads := CollectThreads(w.threads, r.base, r.size);
      }
      reasons := AddContextReasons(r, metadata, entropy, overlay, threads, reasons);
      if reasons == [] {
        return None;
      }
      var sectionName := SectionNameOf(s);
      var severity := SeverityOf(reasons);
      var fingerprint := HashFingerprint(w.files, w.process, mapped, r, isPe, sectionName, reasons);
      a := Some(Anomaly(
        pid, w.process, r.base, r.allocationBase, r.size, TypeToString(r.kind), ProtectToString(r.protect), mapped,
        modulePath, sectionName, if s.Some? then SectionFlags(s.value.characteristics) else "", entropy,
        if s.Some? then s.value.entropy else -1.0, overlay, metadata.importDlls, metadata.importNames,
        metadata.exportNames, metadata.apiTags, isPe, reasons, severity, fingerprint, threads));
    }

    /** The counter counts the captures, and the directory is what they made of `start`. */
    ghost predicate EvidenceIs(start: Evidence.Store)
      reads this, directory
    {
      && evidenceCount == (if evidence.directory == "" then 0 else |FirstFew(out)|)
      && directory.Contents() == Written(w, evidence, luck, start, out)
    }

    /** One region of the walk: skipped, suppressed or reported. */
    method Visit(r: Region, ghost start: Evidence.Store)
      requires ImagesCached()
      requires EvidenceIs(start)
      modifies this`imageCache, this`overlayCache, this`out, this`evidenceCount, directory
      ensures ImagesCached()
      ensures EvidenceIs(start)
      ensures var mapped := w.mappedPath(r.base);
              if LooksUp(w, o, r) then
                && out == old(out) + Emitted(w, o, pid, r, CachedOverlay(w.files, old(overlayCache), mapped))
                && overlayCache == UpdatedCache(w.files, old(overlayCache), mapped)
              else
                out == old(out) + Emitted(w, o, pid, r, 0) && overlayCache == old(overlayCache)
    {
      hide Finding, CachedOverlay, UpdatedCache, Suppressed, ShouldIgnore, Written, CaptureOf, Evidence.Step;
      if r.state != MEM_COMMIT {
        return;
      }
      var mapped := w.mappedPath(r.base);
      var ignored := IsIgnored(w.files, o, w.process, mapped);
      if ignored {
        return;
      }
      var a := Examine(r);
      if a.None? {
        return;
      }
      var suppressed := IsSuppressed(w.files, o.baseline, a.value);
      if suppressed {
        return;
      }
      WrittenNext(w, evidence, luck, start, out, a.value);
      out := out + [a.value];
      if evidence.directory != "" && evidenceCount < EVIDENCE_LIMIT {
        var _ := directory.WriteEvidence(evidence, CaptureOf(w, a.value, luck(evidenceCount)));
        evidenceCount := evidenceCount + 1;
      }
    }

    /** The walk over the address space, from the start. */
    method ScanPid()
      requires cursor == 0 && imageCache == map[] && overlayCache == map[] && out == []
      requires evidenceCount == 0
      modifies this, directory
      ensures out == CachedScan(w, o, pid, Visited(w, 0), map[])
      ensures PathsAgree(w, o, Visited(w, 0)) ==> out == ScanOf(w, o, pid)
      ensures directory.Contents() == Written(w, evidence, luck, old(directory.Contents()), out)
    {
      hide Emitted, CachedOverlay, UpdatedCache, LayoutOf, LooksUp, PathsAgree, CachedScan, Visited, FirstFew;
      hide ScanOf, Written;
      ghost var start := directory.Contents();
      NothingFirst();
      WrittenNothing(w, evidence, luck, start);
      ghost var all := CachedScan(w, o, pid, Visited(w, 0), map[]);
      while cursor < w.maxAddr
        invariant ImagesCached()
        invariant EvidenceIs(start)
        invariant all == out + CachedScan(w, o, pid, Visited(w, cursor), overlayCache)
        decreases ADDRESS_SPACE - cursor
      {
        var answer := w.query(cursor);
        VisitStop(w, o, pid, cursor, overlayCache);
        if answer.None? {
          break;
        }
        var r := answer.value;
        var next: U64 := (r.base + r.size) % ADDRESS_SPACE;
        if next <= cursor {
          break;
        }
        VisitStep(w, o, pid, cursor, r, overlayCache);
        cursor := next;
        Visit(r, start);
      }
      VisitStop(w, o, pid, cursor, overlayCache);
      assert out + [] == out;
      WalkIsTransparent(w, o, pid);
    }
  }

  lemma PrivateImageIsPrivate(w: World, r: Region)
    ensures PrivateImage(w, r).Some? ==> IsPrivate(r) && !IsImage(r)
  {
  }

  lemma EmptyCacheAgrees(w: World, o: Options, rs: seq<Region>)
    ensures CacheAgrees(w, o, rs, map[])
  {
  }

  /** Where the walk stops there is nothing more to report. */
  lemma VisitStop(w: World, o: Options, pid: nat, p: U64, cache: map<string, nat>)
    ensures p >= w.maxAddr || w.query(p).None? || Next(w.query(p).value) <= p ==>
              CachedScan(w, o, pid, Visited(w, p), cache) == []
  {
    hide Emitted, CachedOverlay, UpdatedCache, LooksUp;
  }

  lemma WalkIsTransparent(w: World, o: Options, pid: nat)
    ensures PathsAgree(w, o, Visited(w, 0)) ==> CachedScan(w, o, pid, Visited(w, 0), map[]) == ScanOf(w, o, pid)
  {
    hide PathsAgree, CachedScan, Visited, ScanRegions;
    if PathsAgree(w, o, Visited(w, 0)) {
      EmptyCacheAgrees(w, o, Visited(w, 0));
      CacheIsTransparent(w, o, pid, Visited(w, 0), map[]);
    }
  }

  lemma NothingFirst()
    ensures FirstFew([]) == []
  {
  }

  lemma VisitStep(w: World, o: Options, pid: nat, p: U64, r: Region, cache: map<string, nat>)
    requires p < w.maxAddr && w.query(p) == Some(r) && Next(r) > p
    ensures var mapped := w.mappedPath(r.base);
            CachedScan(w, o, pid, Visited(w, p), cache) ==
            if LooksUp(w, o, r) then
              Emitted(w, o, pid, r, CachedOverlay(w.files, cache, mapped)) +
              CachedScan(w, o, pid, Visited(w, Next(r)), UpdatedCache(w.files, cache, mapped))
            else Emitted(w, o, pid, r, 0) + CachedScan(w, o, pid, Visited(w, Next(r)), cache)
  {
    hide Emitted, CachedOverlay, UpdatedCache, LooksUp;
    assert ([r] + Visited(w, Next(r)))[1..] == Visited(w, Next(r));
  }
}
