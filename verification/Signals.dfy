/** What each reported reason says, in terms of the finding it stands in and of the documentation. */
module Signals {
  import opened PeFormat
  import opened Memory
  import opened Anomalies
  import opened Classify
  import opened ReasonLists

  // ----- which reasons are in a list

  lemma InModuleReasons(w: World, r: Region, isPe: bool, mapped: string, x: string)
    ensures x in ModuleReasons(w, r, isPe, mapped) <==>
            && AtImageBase(r) && w.modulesKnown && isPe
            && (|| (x == NOT_IN_MODULES && FindModule(w.modules, r.allocationBase).None?)
                || (x == PATH_MISMATCH && mapped != "" && ModulePath(w, r) != "" &&
                    NormalizePath(w.files, mapped) != NormalizePath(w.files, ModulePath(w, r))))
  {
    hide NormalizePath, FindModule;
  }

  lemma InBase(w: World, r: Region, layout: ImageLayout, mapped: string, x: string)
    ensures x in BaseReasons(w, r, layout, mapped) <==>
            || (x == PRIVATE_PE && IsPrivate(r) && HeadIsPe(w, r))
            || (x == WRITE_EXEC && HasWriteExec(r.protect))
            || (x == IMAGE_RWX && IsImage(r) && HasWriteExec(r.protect))
            || (x == HEADER_NOT_MZ && AtImageBase(r) && Readable(r.protect) && !HeadIsPe(w, r))
            || (x == HEADER_MISMATCH && AtImageBase(r) && HeadIsPe(w, r) && HeaderDiffers(w.files, Head(w, r), mapped))
            || x in ModuleReasons(w, r, HeadIsPe(w, r), mapped)
            || (x == SECTION_MISMATCH && SectionDiffers(r, SectionOf(layout, r)))
  {
    hide HeadIsPe, HeaderDiffers, HasWriteExec, Readable, ModuleReasons, SectionDiffers, SectionOf, Head;
  }

  /** The reasons before the overlay is looked at. */
  function BeforeOverlay(w: World, r: Region, layout: ImageLayout, mapped: string): seq<string> {
    WithEntropy(r, RegionEntropy(w, r), WithImports(r, RegionMetadata(w, r, layout), BaseReasons(w, r, layout, mapped)))
  }

  lemma InReasons(w: World, r: Region, layout: ImageLayout, mapped: string, overlay: nat, x: string)
    ensures var a := BaseReasons(w, r, layout, mapped);
            var tags := RegionMetadata(w, r, layout).apiTags;
            x in Reasons(w, r, layout, mapped, overlay) <==>
            || x in a
            || (x == SUSPICIOUS_IMPORTS && tags != [] && (IsPrivate(r) || (a != [] && |tags| >= 2)))
            || (x == HIGH_ENTROPY && HasExecute(r.protect) && RegionEntropy(w, r) >= 7.2 && (IsPrivate(r) || a != []))
            || (x == LARGE_OVERLAY && RegionOverlay(w, r, overlay) >= LARGE
                && BeforeOverlay(w, r, layout, mapped) != [])
            || (x == THREAD_START && RegionThreads(w, r) != [])
  {
    hide BaseReasons, RegionMetadata, RegionOverlay, RegionThreads, RegionEntropy, HasExecute;
  }

  /** Without a private region there is no context without a base reason. */
  lemma ImageNeedsBase(w: World, r: Region, layout: ImageLayout, mapped: string, overlay: nat)
    requires !IsPrivate(r) && Reasons(w, r, layout, mapped, overlay) != []
    ensures BaseReasons(w, r, layout, mapped) != []
  {
    hide BaseReasons, RegionMetadata, RegionOverlay, RegionEntropy, HasExecute;
  }

  lemma OnlyThreads(w: World, r: Region, layout: ImageLayout, mapped: string, overlay: nat)
    requires Reasons(w, r, layout, mapped, overlay) != []
    ensures BeforeOverlay(w, r, layout, mapped) == [] <==> Reasons(w, r, layout, mapped, overlay)[0] == THREAD_START
  {
    hide BaseReasons, RegionMetadata, RegionOverlay, RegionThreads, RegionEntropy, HasExecute, Below;
    Lengths();
    var a := BaseReasons(w, r, layout, mapped);
    if a != [] {
      BaseCanonical(w, r, layout, mapped);
      FirstIsNotThread(a);
    }
  }

  lemma FirstIsNotThread(a: seq<string>)
    requires a != [] && Below(a, 8)
    ensures a[0] != THREAD_START
  {
    Lengths();
    assert Rank(a[0]) < 8;
  }

  // ----- the fields that are shown

  predicate ShowsWrite(flags: string) { |flags| >= 3 && flags[1] == 'W' }

  predicate ShowsExecute(flags: string) { |flags| >= 3 && flags[2] == 'X' }

  lemma ProtectShows(protect: U32)
    ensures var s := ProtectToString(protect);
            && (ShowsWrite(s) && ShowsExecute(s) <==> HasWriteExec(protect))
            && (ShowsExecute(s) <==> HasExecute(protect))
            && (|s| == 3 <==> Readable(protect))
  {
  }

  lemma FlagsShow(characteristics: U32)
    ensures var s := SectionFlags(characteristics);
            && (ShowsWrite(s) <==> SectionWrite(characteristics))
            && (ShowsExecute(s) <==> SectionExecute(characteristics))
            && s != ""
  {
  }

  lemma KindShows(kind: U32)
    ensures TypeToString(kind) == "IMAGE" <==> kind == MEM_IMAGE
  {
    assert |"IMAGE"| == 5 && |"MAPPED"| == 6 && |"PRIVATE"| == 7;
  }

  predicate ShownAtBase(a: Anomaly) { a.kind == "IMAGE" && a.base == a.allocationBase }

  /** What a finding shows of its region and its reasons. */
  lemma FindingShows(w: World, pid: nat, r: Region, overlay: nat)
    ensures var mapped, layout := w.mappedPath(r.base), LayoutOf(w, r.allocationBase);
            var f := Finding(w, pid, r, overlay);
            && (f.Some? <==> Reasons(w, r, layout, mapped, overlay) != [])
            && (f.Some? ==>
                  var a := f.value;
                  && a.reasons == Reasons(w, r, layout, mapped, overlay)
                  && a.isPe == HeadIsPe(w, r) && a.mappedPath == mapped && a.modulePath == ModulePath(w, r)
                  && a.kind == TypeToString(r.kind) && a.protect == ProtectToString(r.protect)
                  && (ShownAtBase(a) <==> AtImageBase(r))
                  && a.regionEntropy == RegionEntropy(w, r) && a.overlaySize == RegionOverlay(w, r, overlay)
                  && a.apiTags == RegionMetadata(w, r, layout).apiTags && a.threadIds == RegionThreads(w, r)
                  && a.sectionFlags == (var s := SectionOf(layout, r);
                                        if s.Some? then SectionFlags(s.value.characteristics) else ""))
  {
    hide Reasons, LayoutOf, HeadIsPe, RegionEntropy, RegionOverlay, RegionMetadata, RegionThreads, SectionOf;
    hide ModulePath, Fingerprint, Severity, ProtectToString, SectionFlags, TypeToString;
    KindShows(r.kind);
  }

  lemma InBaseOf(w: World, r: Region, layout: ImageLayout, mapped: string, overlay: nat, x: string)
    requires x !in [SUSPICIOUS_IMPORTS, HIGH_ENTROPY, LARGE_OVERLAY, THREAD_START]
    ensures x in Reasons(w, r, layout, mapped, overlay) <==>
            || (x == PRIVATE_PE && IsPrivate(r) && HeadIsPe(w, r))
            || (x == WRITE_EXEC && HasWriteExec(r.protect))
            || (x == IMAGE_RWX && IsImage(r) && HasWriteExec(r.protect))
            || (x == HEADER_NOT_MZ && AtImageBase(r) && Readable(r.protect) && !HeadIsPe(w, r))
            || (x == HEADER_MISMATCH && AtImageBase(r) && HeadIsPe(w, r) && HeaderDiffers(w.files, Head(w, r), mapped))
            || (x == NOT_IN_MODULES && AtImageBase(r) && HeadIsPe(w, r) && w.modulesKnown &&
                FindModule(w.modules, r.allocationBase).None?)
            || (x == PATH_MISMATCH && AtImageBase(r) && HeadIsPe(w, r) && w.modulesKnown &&
                mapped != "" && ModulePath(w, r) != "" &&
                NormalizePath(w.files, mapped) != NormalizePath(w.files, ModulePath(w, r)))
            || (x == SECTION_MISMATCH && SectionDiffers(r, SectionOf(layout, r)))
  {
    hide *;
    InReasons(w, r, layout, mapped, overlay, x);
    InBase(w, r, layout, mapped, x);
    InModuleReasons(w, r, HeadIsPe(w, r), mapped, x);
  }

  lemma SectionShows(layout: ImageLayout, r: Region)
    ensures var s := SectionOf(layout, r);
            var flags := if s.Some? then SectionFlags(s.value.characteristics) else "";
            SectionDiffers(r, s) <==>
            && IsImage(r) && HasWriteExec(r.protect) && flags != ""
            && !(ShowsWrite(flags) && ShowsExecute(flags))
  {
    hide HasWriteExec, SectionFlags, SectionWrite, SectionExecute, ShowsWrite, ShowsExecute;
    var s := SectionOf(layout, r);
    if s.Some? {
      FlagsShow(s.value.characteristics);
    }
  }

  /** The reasons of a region's own state can be told from the fields of the finding. */
  lemma StateExplained(w: World, pid: nat, r: Region, overlay: nat)
    requires Finding(w, pid, r, overlay).Some?
    ensures var a := Finding(w, pid, r, overlay).value;
            var wx := ShowsWrite(a.protect) && ShowsExecute(a.protect);
            && (PRIVATE_PE in a.reasons <==> IsPrivate(r) && a.isPe)
            && (WRITE_EXEC in a.reasons <==> wx)
            && (IMAGE_RWX in a.reasons <==> a.kind == "IMAGE" && wx)
            && (SECTION_MISMATCH in a.reasons <==>
                  && a.kind == "IMAGE" && wx && a.sectionFlags != ""
                  && !(ShowsWrite(a.sectionFlags) && ShowsExecute(a.sectionFlags)))
  {
    hide *;
    FindingShows(w, pid, r, overlay);
    var mapped, layout := w.mappedPath(r.base), LayoutOf(w, r.allocationBase);
    ProtectShows(r.protect);
    KindShows(r.kind);
    KindIs(r);
    SectionShows(layout, r);
    Lengths();
    InBaseOf(w, r, layout, mapped, overlay, PRIVATE_PE);
    InBaseOf(w, r, layout, mapped, overlay, WRITE_EXEC);
    InBaseOf(w, r, layout, mapped, overlay, IMAGE_RWX);
    InBaseOf(w, r, layout, mapped, overlay, SECTION_MISMATCH);
  }

  lemma KindIs(r: Region)
    ensures IsImage(r) <==> r.kind == MEM_IMAGE
  {
  }

  /** The reasons of an image base can be told from the fields of the finding, but for what is not
      shown: the module list and the file on disk. */
  lemma ImageBaseExplained(w: World, pid: nat, r: Region, overlay: nat)
    requires Finding(w, pid, r, overlay).Some?
    ensures var a := Finding(w, pid, r, overlay).value;
            && (HEADER_NOT_MZ in a.reasons <==> ShownAtBase(a) && |a.protect| == 3 && !a.isPe)
            && (HEADER_MISMATCH in a.reasons <==>
                  ShownAtBase(a) && a.isPe && HeaderDiffers(w.files, Head(w, r), a.mappedPath))
            && (NOT_IN_MODULES in a.reasons <==>
                  ShownAtBase(a) && a.isPe && w.modulesKnown && FindModule(w.modules, r.allocationBase).None?)
            && (PATH_MISMATCH in a.reasons <==>
                  && ShownAtBase(a) && a.isPe && w.modulesKnown && a.mappedPath != "" && a.modulePath != ""
                  && NormalizePath(w.files, a.mappedPath) != NormalizePath(w.files, a.modulePath))
  {
    hide *;
    FindingShows(w, pid, r, overlay);
    var mapped, layout := w.mappedPath(r.base), LayoutOf(w, r.allocationBase);
    ProtectShows(r.protect);
    Lengths();
    InBaseOf(w, r, layout, mapped, overlay, HEADER_NOT_MZ);
    InBaseOf(w, r, layout, mapped, overlay, HEADER_MISMATCH);
    InBaseOf(w, r, layout, mapped, overlay, NOT_IN_MODULES);
    InBaseOf(w, r, layout, mapped, overlay, PATH_MISMATCH);
  }

  /** The context reasons can be told from the fields of the finding: in a finding, imports of a
      private image and high entropy of executable bytes need nothing else, and a large overlay only
      needs a reason other than a thread start. */
  lemma ContextExplained(w: World, pid: nat, r: Region, overlay: nat)
    requires Finding(w, pid, r, overlay).Some?
    ensures var a := Finding(w, pid, r, overlay).value;
            && (SUSPICIOUS_IMPORTS in a.reasons <==> a.apiTags != [] && (IsPrivate(r) || |a.apiTags| >= 2))
            && (HIGH_ENTROPY in a.reasons <==> ShowsExecute(a.protect) && a.regionEntropy >= 7.2)
            && (LARGE_OVERLAY in a.reasons <==> a.overlaySize >= LARGE && a.reasons[0] != THREAD_START)
            && (THREAD_START in a.reasons <==> a.threadIds != [])
  {
    hide *;
    FindingShows(w, pid, r, overlay);
    var mapped, layout := w.mappedPath(r.base), LayoutOf(w, r.allocationBase);
    ProtectShows(r.protect);
    Lengths();
    OnlyThreads(w, r, layout, mapped, overlay);
    if !IsPrivate(r) {
      ImageNeedsBase(w, r, layout, mapped, overlay);
    }
    BaseHasNoContext(w, r, layout, mapped);
    InReasons(w, r, layout, mapped, overlay, SUSPICIOUS_IMPORTS);
    InReasons(w, r, layout, mapped, overlay, HIGH_ENTROPY);
    InReasons(w, r, layout, mapped, overlay, LARGE_OVERLAY);
    InReasons(w, r, layout, mapped, overlay, THREAD_START);
  }

  lemma BaseHasNoContext(w: World, r: Region, layout: ImageLayout, mapped: string)
    ensures var a := BaseReasons(w, r, layout, mapped);
            SUSPICIOUS_IMPORTS !in a && HIGH_ENTROPY !in a && LARGE_OVERLAY !in a && THREAD_START !in a
  {
    hide BaseReasons, Rank;
    BaseCanonical(w, r, layout, mapped);
    Lengths();
    Rank4();
  }

  lemma Rank4()
    ensures Rank(SUSPICIOUS_IMPORTS) == 8 && Rank(HIGH_ENTROPY) == 9 && Rank(LARGE_OVERLAY) == 10
            && Rank(THREAD_START) == 11
  {
    Lengths();
  }
}
