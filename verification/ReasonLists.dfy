/** Every reason list is canonical, and severity follows from it exactly. */
module ReasonLists {
  import opened PeFormat
  import opened Memory
  import opened Metadata
  import opened Classify

  const ORDER := [
    PRIVATE_PE, WRITE_EXEC, IMAGE_RWX, HEADER_NOT_MZ, HEADER_MISMATCH, NOT_IN_MODULES, PATH_MISMATCH, SECTION_MISMATCH,
    SUSPICIOUS_IMPORTS, HIGH_ENTROPY, LARGE_OVERLAY, THREAD_START]

  /** All reasons are different: in length, or in their first letter. */
  lemma Lengths()
    ensures |PRIVATE_PE| == 9 && |WRITE_EXEC| == 10 && |IMAGE_RWX| == 8 && |HEADER_NOT_MZ| == 16
    ensures |HEADER_MISMATCH| == 19 && |NOT_IN_MODULES| == 20 && |PATH_MISMATCH| == 18 && |SECTION_MISMATCH| == 25
    ensures |SUSPICIOUS_IMPORTS| == 17 && |HIGH_ENTROPY| == 21 && |LARGE_OVERLAY| == 12 && |THREAD_START| == 18
    ensures PATH_MISMATCH != THREAD_START
  {
    assert PATH_MISMATCH[0] == 'M' && THREAD_START[0] == 'P';
  }

  /** The position of a reason in the fixed order; 12 for anything else. */
  function Rank(reason: string): nat {
    if reason == PRIVATE_PE then 0
    else if reason == WRITE_EXEC then 1
    else if reason == IMAGE_RWX then 2
    else if reason == HEADER_NOT_MZ then 3
    else if reason == HEADER_MISMATCH then 4
    else if reason == NOT_IN_MODULES then 5
    else if reason == PATH_MISMATCH then 6
    else if reason == SECTION_MISMATCH then 7
    else if reason == SUSPICIOUS_IMPORTS then 8
    else if reason == HIGH_ENTROPY then 9
    else if reason == LARGE_OVERLAY then 10
    else if reason == THREAD_START then 11
    else 12
  }

  lemma RankOfOrder()
    ensures forall i | 0 <= i < 12 :: Rank(ORDER[i]) == i
  {
    Lengths();
  }

  /** Known reasons in strictly increasing position: a subsequence of the fixed order. */
  predicate Canonical(reasons: seq<string>) {
    && (forall i | 0 <= i < |reasons| :: Rank(reasons[i]) < 12 && ORDER[Rank(reasons[i])] == reasons[i])
    && (forall i, j | 0 <= i < j < |reasons| :: Rank(reasons[i]) < Rank(reasons[j]))
  }

  /** A canonical list with all positions below `n`. */
  predicate Below(reasons: seq<string>, n: nat) {
    Canonical(reasons) && forall i | 0 <= i < |reasons| :: Rank(reasons[i]) < n
  }

  lemma AddReason(before: seq<string>, n: nat, c: bool, i: nat)
    requires Below(before, n) && n <= i < 12
    ensures Below(before + When(c, ORDER[i]), i + 1)
  {
    RankOfOrder();
  }

  /** Canonical lists are determined by the set of their reasons. */
  lemma {:induction false} CanonicalUnique(a: seq<string>, b: seq<string>)
    requires Canonical(a) && Canonical(b)
    requires forall x :: x in a <==> x in b
    ensures a == b
  {
    hide Canonical;
    if a == [] {
      HasMember(b);
    } else {
      assert a[|a| - 1] in b;
      assert b != [];
      SameLast(a, b);
      var p, q := a[..|a| - 1], b[..|b| - 1];
      assert a == p + [a[|a| - 1]] && b == q + [b[|b| - 1]];
      forall x
        ensures x in p <==> x in q
      {
        InitMembers(a, x);
        InitMembers(b, x);
      }
      InitCanonical(a);
      InitCanonical(b);
      CanonicalUnique(p, q);
    }
  }

  lemma InitCanonical(a: seq<string>)
    requires Canonical(a) && a != []
    ensures Canonical(a[..|a| - 1])
  {
    hide Rank;
  }

  lemma HasMember(b: seq<string>)
    ensures b != [] ==> exists x :: x in b
  {
    if b != [] {
      assert b[0] in b;
    }
  }

  lemma SameLast(a: seq<string>, b: seq<string>)
    requires Canonical(a) && Canonical(b) && a != [] && b != []
    requires forall x :: x in a <==> x in b
    ensures a[|a| - 1] == b[|b| - 1]
  {
    var x, y := a[|a| - 1], b[|b| - 1];
    assert x in b && y in a;
    var i :| 0 <= i < |b| && b[i] == x;
    var j :| 0 <= j < |a| && a[j] == y;
    assert Rank(x) <= Rank(y) && Rank(y) <= Rank(x);
  }

  lemma InitMembers(a: seq<string>, x: string)
    requires Canonical(a) && a != []
    ensures x in a[..|a| - 1] <==> x in a && x != a[|a| - 1]
  {
    if x in a && x != a[|a| - 1] {
      var i :| 0 <= i < |a| && a[i] == x;
      assert a[..|a| - 1][i] == x;
    }
  }

  // ----- the reasons of a region

  lemma EmptyBelow()
    ensures Below([], 0)
  {
  }

  /** The first four reasons, before anything on disk is compared. */
  function ShapeReasons(w: World, r: Region): seq<string> {
    When(IsPrivate(r) && HeadIsPe(w, r), PRIVATE_PE) +
    When(HasWriteExec(r.protect), WRITE_EXEC) +
    When(IsImage(r) && HasWriteExec(r.protect), IMAGE_RWX) +
    When(AtImageBase(r) && Readable(r.protect) && !HeadIsPe(w, r), HEADER_NOT_MZ)
  }

  lemma ShapeCanonical(w: World, r: Region)
    ensures Below(ShapeReasons(w, r), 4)
  {
    hide HeadIsPe, Below, When, Readable, HasWriteExec, IsPrivate, IsImage, AtImageBase, Rank, Canonical;
    EmptyBelow();
    var c := IsPrivate(r) && HeadIsPe(w, r);
    assert [] + When(c, PRIVATE_PE) == When(c, PRIVATE_PE);
    AddReason([], 0, c, 0);
    var a0 := When(c, PRIVATE_PE);
    AddReason(a0, 1, HasWriteExec(r.protect), 1);
    var a1 := a0 + When(HasWriteExec(r.protect), WRITE_EXEC);
    AddReason(a1, 2, IsImage(r) && HasWriteExec(r.protect), 2);
    var a2 := a1 + When(IsImage(r) && HasWriteExec(r.protect), IMAGE_RWX);
    AddReason(a2, 3, AtImageBase(r) && Readable(r.protect) && !HeadIsPe(w, r), 3);
  }

  lemma BaseCanonical(w: World, r: Region, layout: ImageLayout, mapped: string)
    ensures Below(BaseReasons(w, r, layout, mapped), 8)
  {
    hide HeadIsPe, HeaderDiffers, SectionDiffers, Below, When, ModuleReasons, Readable, HasWriteExec, SectionOf;
    var isPe := HeadIsPe(w, r);
    ShapeCanonical(w, r);
    var a3 := ShapeReasons(w, r);
    var c4 := AtImageBase(r) && isPe && HeaderDiffers(w.files, Head(w, r), mapped);
    var a4 := a3 + When(c4, HEADER_MISMATCH);
    AddReason(a3, 4, c4, 4);
    var a5 := a4 + ModuleReasons(w, r, isPe, mapped);
    ModuleCanonical(w, r, isPe, mapped, a4);
    AddReason(a5, 7, SectionDiffers(r, SectionOf(layout, r)), 7);
  }

  lemma ModuleCanonical(w: World, r: Region, isPe: bool, mapped: string, before: seq<string>)
    requires Below(before, 5)
    ensures Below(before + ModuleReasons(w, r, isPe, mapped), 7)
  {
    hide NormalizePath, FindModule;
    RankOfOrder();
    assert before + [] == before;
    AddReason(before, 5, true, 5);
    var m := FindModule(w.modules, r.allocationBase);
    if m.Some? {
      var differ := NormalizePath(w.files, mapped) != NormalizePath(w.files, m.value.path);
      AddReason(before, 5, mapped != "" && m.value.path != "" && differ, 6);
    }
  }

  lemma ReasonsCanonical(w: World, r: Region, layout: ImageLayout, mapped: string, fileOverlay: nat)
    ensures Canonical(Reasons(w, r, layout, mapped, fileOverlay))
  {
    hide BaseReasons, RegionMetadata, RegionEntropy, RegionOverlay, RegionThreads, Below, When, HasExecute;
    var a := BaseReasons(w, r, layout, mapped);
    BaseCanonical(w, r, layout, mapped);
    var tags := RegionMetadata(w, r, layout).apiTags;
    var b := WithImports(r, RegionMetadata(w, r, layout), a);
    AddReason(a, 8, tags != [] && (IsPrivate(r) || (a != [] && |tags| >= 2)), 8);
    var c := WithEntropy(r, RegionEntropy(w, r), b);
    AddReason(b, 9, HasExecute(r.protect) && RegionEntropy(w, r) >= 7.2 && (IsPrivate(r) || b != []), 9);
    var d := WithOverlay(RegionOverlay(w, r, fileOverlay), c);
    AddReason(c, 10, RegionOverlay(w, r, fileOverlay) >= LARGE && c != [], 10);
    AddReason(d, 11, RegionThreads(w, r) != [], 11);
    BelowIsCanonical(WithThreads(RegionThreads(w, r), d), 12);
  }

  lemma BelowIsCanonical(reasons: seq<string>, n: nat)
    requires Below(reasons, n)
    ensures Canonical(reasons)
  {
  }

  /** Import tags of a private region come from a PE header, which is a reason by itself. */
  lemma PrivateTagsHaveReason(w: World, r: Region, layout: ImageLayout, mapped: string)
    requires IsPrivate(r) && RegionMetadata(w, r, layout).apiTags != []
    ensures BaseReasons(w, r, layout, mapped) != []
  {
    hide HeadIsPe, ModuleReasons, HeaderDiffers, SectionDiffers, MetadataOf, PeOf;
  }

  /** Imports and overlay are context only: they never stand first. */
  lemma ContextNeverFirst(w: World, r: Region, layout: ImageLayout, mapped: string, fileOverlay: nat)
    ensures var reasons := Reasons(w, r, layout, mapped, fileOverlay);
            reasons != [] ==> reasons[0] != SUSPICIOUS_IMPORTS && reasons[0] != LARGE_OVERLAY
  {
    hide BaseReasons, RegionMetadata, RegionEntropy, RegionOverlay, RegionThreads, HasExecute, Canonical, Below, Rank;
    Lengths();
    var a := BaseReasons(w, r, layout, mapped);
    if a == [] {
      if IsPrivate(r) && RegionMetadata(w, r, layout).apiTags != [] {
        PrivateTagsHaveReason(w, r, layout, mapped);
      }
    } else {
      BaseCanonical(w, r, layout, mapped);
      FirstIsEarly(a);
    }
  }

  lemma FirstIsEarly(a: seq<string>)
    requires a != [] && Below(a, 8)
    ensures a[0] != SUSPICIOUS_IMPORTS && a[0] != LARGE_OVERLAY && a[0] != HIGH_ENTROPY
  {
    Lengths();
    assert Rank(a[0]) < 8;
  }

  /** High entropy does stand first, exactly for an executable private region that is not writable
      and holds no PE header: such a region is reported for its entropy. */
  lemma EntropyFirstIff(w: World, r: Region, layout: ImageLayout, mapped: string, fileOverlay: nat)
    ensures var reasons := Reasons(w, r, layout, mapped, fileOverlay);
            reasons != [] && reasons[0] == HIGH_ENTROPY <==>
            && IsPrivate(r) && HasExecute(r.protect) && !HasWriteExec(r.protect)
            && !HeadIsPe(w, r) && RegionEntropy(w, r) >= 7.2
  {
    hide BaseReasons, HasWriteExec, HeadIsPe, RegionMetadata, RegionEntropy, RegionOverlay, RegionThreads;
    hide HasExecute, Canonical, Below, Rank;
    Lengths();
    var a := BaseReasons(w, r, layout, mapped);
    if IsPrivate(r) {
      PrivateBase(w, r, layout, mapped);
    }
    if a == [] {
      if IsPrivate(r) && RegionMetadata(w, r, layout).apiTags != [] {
        PrivateTagsHaveReason(w, r, layout, mapped);
      }
    } else {
      BaseCanonical(w, r, layout, mapped);
      FirstIsEarly(a);
    }
  }

  /** A private region has at most two base reasons. */
  lemma PrivateBase(w: World, r: Region, layout: ImageLayout, mapped: string)
    requires IsPrivate(r)
    ensures BaseReasons(w, r, layout, mapped) ==
            When(HeadIsPe(w, r), PRIVATE_PE) + When(HasWriteExec(r.protect), WRITE_EXEC)
    ensures BaseReasons(w, r, layout, mapped) == [] <==> !HeadIsPe(w, r) && !HasWriteExec(r.protect)
  {
    hide HeadIsPe, HeaderDiffers, HasWriteExec, FindModule, NormalizePath, SectionOf;
  }

  // ----- severity

  predicate High(reason: string) { reason in HIGH_REASONS }

  lemma HighByRank(reason: string)
    requires Rank(reason) < 12 && ORDER[Rank(reason)] == reason
    ensures High(reason) <==> Rank(reason) != 1 && Rank(reason) != 3
  {
    Lengths();
    var k := Rank(reason);
    if k != 1 && k != 3 {
      assert HIGH_REASONS[if k == 0 then 0 else if k == 2 then 1 else k - 2] == reason;
    }
    if High(reason) {
      var i :| 0 <= i < |HIGH_REASONS| && HIGH_REASONS[i] == reason;
    }
  }

  /** Missing header and writable code together make the image writable, which is high. */
  lemma HeaderAndWriteIsRwx(w: World, r: Region, layout: ImageLayout, mapped: string, fileOverlay: nat)
    ensures var reasons := Reasons(w, r, layout, mapped, fileOverlay);
            WRITE_EXEC in reasons && HEADER_NOT_MZ in reasons ==> IMAGE_RWX in reasons
  {
    hide HeadIsPe, HeaderDiffers, SectionDiffers, RegionMetadata, RegionEntropy, RegionOverlay, RegionThreads;
    hide HasExecute;
    hide HasWriteExec, Readable, NormalizePath, FindModule;
    Lengths();
  }

  /** "medium" is exactly `[Write+Exec]`, "low" exactly `[ImageHeaderNotMZ]`, and everything else "high". */
  lemma SeverityExact(w: World, r: Region, layout: ImageLayout, mapped: string, fileOverlay: nat)
    ensures var reasons := Reasons(w, r, layout, mapped, fileOverlay);
            reasons != [] ==>
              && (Severity(reasons) == "medium" <==> reasons == [WRITE_EXEC])
              && (Severity(reasons) == "low" <==> reasons == [HEADER_NOT_MZ])
              && (Severity(reasons) == "high" <==> reasons != [WRITE_EXEC] && reasons != [HEADER_NOT_MZ])
  {
    hide Reasons;
    var reasons := Reasons(w, r, layout, mapped, fileOverlay);
    ReasonsCanonical(w, r, layout, mapped, fileOverlay);
    HeaderAndWriteIsRwx(w, r, layout, mapped, fileOverlay);
    if reasons != [] {
      CanonicalSeverity(reasons);
    }
  }

  lemma CanonicalSeverity(reasons: seq<string>)
    requires Canonical(reasons) && reasons != []
    requires WRITE_EXEC in reasons && HEADER_NOT_MZ in reasons ==> IMAGE_RWX in reasons
    ensures Severity(reasons) == "medium" <==> reasons == [WRITE_EXEC]
    ensures Severity(reasons) == "low" <==> reasons == [HEADER_NOT_MZ]
    ensures Severity(reasons) == "high" <==> reasons != [WRITE_EXEC] && reasons != [HEADER_NOT_MZ]
  {
    hide Rank;
    SeverityByHigh(reasons);
    Ranks();
    if exists i :: 0 <= i < |reasons| && High(reasons[i]) {
      var i :| 0 <= i < |reasons| && High(reasons[i]);
      HighByRank(reasons[i]);
    } else {
      NoneHigh(reasons);
    }
  }

  lemma Ranks()
    ensures Rank(WRITE_EXEC) == 1 && Rank(HEADER_NOT_MZ) == 3 && Rank(IMAGE_RWX) == 2
    ensures WRITE_EXEC != HEADER_NOT_MZ
  {
    Lengths();
  }

  lemma SeverityByHigh(reasons: seq<string>)
    ensures Severity(reasons) ==
            if exists i :: 0 <= i < |reasons| && High(reasons[i]) then "high"
            else if WRITE_EXEC in reasons then "medium" else "low"
  {
    if exists i :: 0 <= i < |reasons| && High(reasons[i]) {
      var i :| 0 <= i < |reasons| && High(reasons[i]);
      var k :| 0 <= k < |HIGH_REASONS| && HIGH_REASONS[k] == reasons[i];
      assert HIGH_REASONS[k] in reasons;
    }
    if exists k :: 0 <= k < |HIGH_REASONS| && HIGH_REASONS[k] in reasons {
      var k :| 0 <= k < |HIGH_REASONS| && HIGH_REASONS[k] in reasons;
      var i :| 0 <= i < |reasons| && reasons[i] == HIGH_REASONS[k];
      assert High(reasons[i]);
    }
  }

  lemma AtMostTwo(reasons: seq<string>)
    requires Canonical(reasons) && reasons != []
    requires forall i | 0 <= i < |reasons| :: Rank(reasons[i]) == 1 || Rank(reasons[i]) == 3
    ensures reasons == [WRITE_EXEC] || reasons == [HEADER_NOT_MZ] || reasons == [WRITE_EXEC, HEADER_NOT_MZ]
  {
    hide Rank;
    Ranks();
    Increasing(reasons, 0, 1);
    Increasing(reasons, 1, 2);
    assert |reasons| == 1 ==> reasons == [reasons[0]];
    assert |reasons| == 2 ==> reasons == [reasons[0], reasons[1]];
  }

  lemma Increasing(reasons: seq<string>, i: nat, j: nat)
    requires Canonical(reasons)
    ensures i < j < |reasons| ==> Rank(reasons[i]) < Rank(reasons[j])
  {
  }

  /** Without a high reason there is exactly one reason. */
  lemma NoneHigh(reasons: seq<string>)
    requires Canonical(reasons) && reasons != []
    requires WRITE_EXEC in reasons && HEADER_NOT_MZ in reasons ==> IMAGE_RWX in reasons
    requires forall i | 0 <= i < |reasons| :: !High(reasons[i])
    ensures reasons == [WRITE_EXEC] || reasons == [HEADER_NOT_MZ]
  {
    hide Rank, High;
    forall i | 0 <= i < |reasons|
      ensures Rank(reasons[i]) == 1 || Rank(reasons[i]) == 3
    {
      HighByRank(reasons[i]);
    }
    AtMostTwo(reasons);
    Ranks();
  }
}
