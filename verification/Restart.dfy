/** Fingerprints across a real restart: every region may move on its own, and process and thread ids
    change. What stays is the set of fingerprints, so a snapshot comparison finds no difference. */
module Restart {
  import opened Json
  import opened PeFormat
  import opened Memory
  import opened Metadata
  import opened Anomalies
  import opened Classify
  import opened Scan
  import opened Walk
  import Report
  import Snapshot

  // ----- one region

  /** The same program: path of the process, files, and whether its modules can be listed. */
  ghost predicate SameProgram(a: World, b: World) {
    a.process == b.process && a.files == b.files && a.modulesKnown == b.modulesKnown
  }

  /** `s` stands for `r` after a restart: the same part of the same file with the same bytes, loaded
      anywhere, as one of its modules or not, and with or without threads that start in it. */
  ghost predicate Counterpart(a: World, b: World, r: Region, s: Region) {
    && s == r.(base := s.base, allocationBase := s.allocationBase)
    && Rva(r) == Rva(s)
    && b.mappedPath(s.base) == a.mappedPath(r.base)
    && (forall n: nat :: b.memory(s.base, n) == a.memory(r.base, n))
    && (forall n: nat :: b.memory(s.allocationBase, n) == a.memory(r.allocationBase, n))
    && (FindModule(b.modules, s.allocationBase).Some? <==> FindModule(a.modules, r.allocationBase).Some?)
    && ModulePath(b, s) == ModulePath(a, r)
    && (RegionThreads(b, s) == [] <==> RegionThreads(a, r) == [])
  }

  lemma RvaAtBase(r: Region, s: Region)
    requires Rva(r) == Rva(s)
    ensures r.base == r.allocationBase <==> s.base == s.allocationBase
  {
  }

  lemma CounterpartBytes(a: World, b: World, r: Region, s: Region)
    requires SameProgram(a, b) && Counterpart(a, b, r, s)
    ensures Head(a, r) == Head(b, s) && HeadIsPe(a, r) == HeadIsPe(b, s)
    ensures RegionEntropy(a, r) == RegionEntropy(b, s)
    ensures LayoutOf(a, r.allocationBase) == LayoutOf(b, s.allocationBase)
    ensures PrivateImage(a, r) == PrivateImage(b, s)
  {
    hide PeOf, Histogram, FindModule, ModulePath, RegionThreads, Rva;
  }

  lemma CounterpartBase(a: World, b: World, r: Region, s: Region)
    requires SameProgram(a, b) && Counterpart(a, b, r, s)
    ensures var la, lb, m := LayoutOf(a, r.allocationBase), LayoutOf(b, s.allocationBase), a.mappedPath(r.base);
            && SectionOf(la, r) == SectionOf(lb, s)
            && RegionMetadata(a, r, la) == RegionMetadata(b, s, lb)
            && BaseReasons(a, r, la, m) == BaseReasons(b, s, lb, m)
            && (forall overlay: nat :: RegionOverlay(a, r, overlay) == RegionOverlay(b, s, overlay))
  {
    hide PeOf, LayoutOf, HeadIsPe, Head, PrivateImage, HeaderDiffers, NormalizePath, FindModule, RegionThreads;
    hide MetadataOf;
    hide Rva, ModulePath, ModuleReasons, HasWriteExec, Readable;
    CounterpartBytes(a, b, r, s);
    RvaAtBase(r, s);
    CounterpartModules(a, b, r, s);
  }

  lemma CounterpartModules(a: World, b: World, r: Region, s: Region)
    requires SameProgram(a, b) && Counterpart(a, b, r, s)
    ensures forall isPe, m :: ModuleReasons(a, r, isPe, m) == ModuleReasons(b, s, isPe, m)
  {
    hide PeOf, NormalizePath, FindModule, RegionThreads, Rva;
    RvaAtBase(r, s);
  }

  lemma CounterpartReasons(a: World, b: World, r: Region, s: Region, overlay: nat)
    requires SameProgram(a, b) && Counterpart(a, b, r, s)
    ensures var m := a.mappedPath(r.base);
            Reasons(a, r, LayoutOf(a, r.allocationBase), m, overlay) ==
            Reasons(b, s, LayoutOf(b, s.allocationBase), m, overlay)
  {
    hide LayoutOf, HeadIsPe, Head, PrivateImage, RegionMetadata, RegionOverlay, RegionThreads, RegionEntropy;
    hide BaseReasons;
    hide FindModule, ModulePath, Rva;
    CounterpartBytes(a, b, r, s);
    CounterpartBase(a, b, r, s);
  }

  /** The counterpart is reported when the region is, with the same reasons and fingerprint, also when
      it is found in another process and its threads have other ids. */
  lemma SameFingerprint(a: World, b: World, p: nat, q: nat, r: Region, s: Region, overlay: nat)
    requires SameProgram(a, b) && Counterpart(a, b, r, s)
    ensures Finding(a, p, r, overlay).Some? <==> Finding(b, q, s, overlay).Some?
    ensures Finding(a, p, r, overlay).Some? ==>
              && Finding(a, p, r, overlay).value.fingerprint == Finding(b, q, s, overlay).value.fingerprint
              && Finding(a, p, r, overlay).value.reasons == Finding(b, q, s, overlay).value.reasons
              && Finding(a, p, r, overlay).value.severity == Finding(b, q, s, overlay).value.severity
  {
    hide LayoutOf, HeadIsPe, RegionEntropy, Reasons, RegionMetadata, RegionOverlay, RegionThreads, SectionOf;
    hide ModulePath;
    hide Severity, FingerprintText, FindModule, Rva;
    CounterpartBytes(a, b, r, s);
    CounterpartBase(a, b, r, s);
    CounterpartReasons(a, b, r, s, overlay);
  }

  // ----- whole scans

  /** The fingerprints of a list of findings. */
  function Prints(items: seq<Anomaly>): set<string> { set a | a in items :: a.fingerprint }

  lemma PrintsAppend(x: seq<Anomaly>, y: seq<Anomaly>)
    ensures Prints(x + y) == Prints(x) + Prints(y)
  {
    forall f
      ensures f in Prints(x + y) <==> f in Prints(x) || f in Prints(y)
    {
      if f in Prints(x + y) {
        var a :| a in x + y && a.fingerprint == f;
        assert a in x || a in y;
      }
      if f in Prints(x) {
        var a :| a in x && a.fingerprint == f;
        assert a in x + y;
      }
      if f in Prints(y) {
        var a :| a in y && a.fingerprint == f;
        assert a in x + y;
      }
    }
  }

  /** What a region adds to the report when it is looked at on its own. */
  function Own(w: World, o: Options, pid: nat, r: Region): seq<Anomaly> {
    Emitted(w, o, pid, r, OverlayOf(w.files, w.mappedPath(r.base)))
  }

  lemma OwnPrints(a: World, b: World, o: Options, p: nat, q: nat, r: Region, s: Region)
    requires SameProgram(a, b) && Counterpart(a, b, r, s)
    ensures Prints(Own(a, o, p, r)) == Prints(Own(b, o, q, s))
  {
    hide Finding, Counterpart, OverlayOf, ShouldIgnore;
    var overlay := OverlayOf(a.files, a.mappedPath(r.base));
    SamePlace(a, b, r, s);
    SameFingerprint(a, b, p, q, r, s, overlay);
    var f, g := Finding(a, p, r, overlay), Finding(b, q, s, overlay);
    if f.Some? {
      assert Prints([f.value]) == {f.value.fingerprint} && Prints([g.value]) == {g.value.fingerprint};
    }
  }

  lemma SamePlace(a: World, b: World, r: Region, s: Region)
    requires Counterpart(a, b, r, s)
    ensures b.mappedPath(s.base) == a.mappedPath(r.base) && r.state == s.state
  {
    hide FindModule, ModulePath, RegionThreads, Rva;
  }

  lemma {:induction false} ScanPrints(w: World, o: Options, pid: nat, rs: seq<Region>, f: string)
    ensures f in Prints(ScanRegions(w, o, pid, rs)) <==> exists i :: 0 <= i < |rs| && f in Prints(Own(w, o, pid, rs[i]))
  {
    hide Emitted, Prints, OverlayOf;
    if rs == [] {
      NoPrints();
    } else {
      ScanPrints(w, o, pid, rs[1..], f);
      PrintsAppend(Own(w, o, pid, rs[0]), ScanRegions(w, o, pid, rs[1..]));
      forall i | 0 < i < |rs|
        ensures rs[i] == rs[1..][i - 1]
      {
      }
      if i :| 0 <= i < |rs[1..]| && f in Prints(Own(w, o, pid, rs[1..][i])) {
        assert f in Prints(Own(w, o, pid, rs[i + 1]));
      }
    }
  }

  lemma NoPrints()
    ensures Prints([]) == {}
  {
  }

  /** Every committed region of the first walk has a counterpart in the second. */
  ghost predicate Matched(a: World, b: World, rs: seq<Region>, ss: seq<Region>) {
    forall i | 0 <= i < |rs| && rs[i].state == MEM_COMMIT ::
      exists j :: 0 <= j < |ss| && Counterpart(a, b, rs[i], ss[j])
  }

  lemma MatchedPrints(a: World, b: World, o: Options, p: nat, q: nat, rs: seq<Region>, ss: seq<Region>)
    requires SameProgram(a, b) && Matched(a, b, rs, ss)
    ensures Prints(ScanRegions(a, o, p, rs)) <= Prints(ScanRegions(b, o, q, ss))
  {
    hide Counterpart, Prints, Own;
    forall f | f in Prints(ScanRegions(a, o, p, rs))
      ensures f in Prints(ScanRegions(b, o, q, ss))
    {
      ScanPrints(a, o, p, rs, f);
      ScanPrints(b, o, q, ss, f);
      var i :| 0 <= i < |rs| && f in Prints(Own(a, o, p, rs[i]));
      OwnIsCommitted(a, o, p, rs[i], f);
      var j :| 0 <= j < |ss| && Counterpart(a, b, rs[i], ss[j]);
      OwnPrints(a, b, o, p, q, rs[i], ss[j]);
    }
  }

  lemma OwnIsCommitted(w: World, o: Options, pid: nat, r: Region, f: string)
    requires f in Prints(Own(w, o, pid, r))
    ensures r.state == MEM_COMMIT
  {
    hide Finding, OverlayOf, ShouldIgnore;
  }

  /** The same program started again. */
  ghost predicate Restarted(a: World, b: World) {
    SameProgram(a, b) && Matched(a, b, Visited(a, 0), Visited(b, 0)) && Matched(b, a, Visited(b, 0), Visited(a, 0))
  }

  /** The scans of both runs report the same fingerprints, also with a baseline. */
  lemma RestartKeepsFingerprints(a: World, b: World, o: Options, p: nat, q: nat)
    requires Restarted(a, b) && PathsAgree(a, o, Visited(a, 0)) && PathsAgree(b, o, Visited(b, 0))
    ensures Prints(Output(a, o, p)) == Prints(Output(b, o, q))
  {
    hide Visited, CachedScan, PathsAgree, Matched, Prints, ScanRegions;
    WalkIsTransparent(a, o, p);
    WalkIsTransparent(b, o, q);
    MatchedPrints(a, b, o, p, q, Visited(a, 0), Visited(b, 0));
    MatchedPrints(b, a, o, q, p, Visited(b, 0), Visited(a, 0));
  }

  lemma PrintsRead(x: seq<Anomaly>, y: seq<Anomaly>)
    requires Prints(x) == Prints(y)
    ensures Snapshot.FingerprintSet(x) <= Snapshot.FingerprintSet(y)
  {
    hide Norm;
    forall f | f in Snapshot.FingerprintSet(x)
      ensures f in Snapshot.FingerprintSet(y)
    {
      var i :| 0 <= i < |x| && x[i].fingerprint != "" && Norm(x[i].fingerprint) == f;
      assert x[i] in x;
      assert x[i].fingerprint in Prints(y);
      var a :| a in y && a.fingerprint == x[i].fingerprint;
      var j :| 0 <= j < |y| && y[j] == a;
    }
  }

  /** Snapshots taken before and after a restart compare without a difference. */
  method SnapshotAcrossRestart(a: World, b: World, o: Options, p: nat, q: nat) returns (text: string, code: int)
    requires Restarted(a, b) && PathsAgree(a, o, Visited(a, 0)) && PathsAgree(b, o, Visited(b, 0))
    requires |Report.ReportText(Output(a, o, p))| <= READ_LIMIT && |Report.ReportText(Output(b, o, q))| <= READ_LIMIT
    ensures code == 0
  {
    hide Report.ReportText, Output, Restarted, PathsAgree, Snapshot.FingerprintSet, Prints;
    RestartKeepsFingerprints(a, b, o, p, q);
    PrintsRead(Output(a, o, p), Output(b, o, q));
    PrintsRead(Output(b, o, q), Output(a, o, p));
    var before := Report.RenderJson(Output(a, o, p));
    var after := Report.RenderJson(Output(b, o, q));
    Snapshot.SetReadsBack(Output(a, o, p));
    Snapshot.SetReadsBack(Output(b, o, q));
    text, code := Snapshot.CmdSnapshotDiff(ReadTextFile(before), ReadTextFile(after));
  }
}
