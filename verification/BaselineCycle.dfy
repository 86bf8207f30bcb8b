/** Scanning a system, and the cycle of creating a baseline and applying it (api and main.cpp). */
module BaselineCycle {
  import opened Text
  import opened Json
  import opened JsonArrays
  import opened Memory
  import opened Anomalies
  import opened Classify
  import opened Scan
  import opened Walk
  import Baseline
  import Report

  /** The processes that can be opened, by id. */
  type System = map<nat, World>

  // ----- scanning several processes

  function SystemOutput(sys: System, o: Options, pids: seq<nat>): seq<Anomaly> {
    if pids == [] then []
    else
      SystemOutput(sys, o, pids[..|pids| - 1]) +
      var pid := pids[|pids| - 1];
      if pid != 0 && pid in sys then Output(sys[pid], o, pid) else []
  }

  /** The processes a command looks at; 0 stands for no choice. */
  function Targets(all: bool, pid: nat, listed: seq<nat>): seq<nat> {
    if all then listed else if pid != 0 then [pid] else listed
  }

  method ScanSystem(sys: System, o: Options, all: bool, pid: nat, listed: seq<nat>) returns (out: seq<Anomaly>)
    ensures out == SystemOutput(sys, o, Targets(all, pid, listed))
  {
    hide Output, CachedScan, Visited;
    out := [];
    var pids := if all then listed else if pid != 0 then [pid] else listed;
    var none := Evidence.Options("", 0, s => s);
    var luck := (n: nat) => Evidence.Outcome("", true, true, true, true, true, true);
    var directory := new Evidence.EvidenceDirectory();
    for i := 0 to |pids|
      invariant out == SystemOutput(sys, o, pids[..i])
    {
      assert pids[..i + 1][..i] == pids[..i];
      if pids[i] == 0 {
        continue;
      }
      if pids[i] in sys {
        var scan := new ProcessScan(sys[pids[i]], o, pids[i], none, directory, luck);
        scan.ScanPid();
        OutputIs(sys[pids[i]], o, pids[i]);
        out := out + scan.out;
      }
    }
    assert pids[..|pids|] == pids;
  }

  /** All processes are looked at when asked for, or when none is chosen. */
  lemma TargetsAre(all: bool, pid: nat, listed: seq<nat>)
    ensures all || pid == 0 ==> Targets(all, pid, listed) == listed
    ensures !all && pid != 0 ==> Targets(all, pid, listed) == [pid]
  {
  }

  /** The findings of several processes are those of each, but for id 0 and those that cannot be opened. */
  lemma {:induction false} SystemIff(sys: System, o: Options, pids: seq<nat>, a: Anomaly)
    ensures a in SystemOutput(sys, o, pids) <==>
            exists i :: 0 <= i < |pids| && pids[i] != 0 && pids[i] in sys && a in Output(sys[pids[i]], o, pids[i])
  {
    hide Output;
    if pids != [] {
      var n := |pids| - 1;
      SystemIff(sys, o, pids[..n], a);
      assert pids == pids[..n] + [pids[n]];
    }
  }

  lemma OutputIs(w: World, o: Options, pid: nat)
    ensures Output(w, o, pid) == CachedScan(w, o, pid, Visited(w, 0), map[])
  {
  }

  // ----- a baseline is a filter

  function Unfiltered(o: Options): Options { o.(baseline := []) }

  predicate Allowed(fs: FileSystem, baseline: seq<string>, a: Anomaly) { !Suppressed(fs, baseline, a) }

  function Filtered(fs: FileSystem, baseline: seq<string>, items: seq<Anomaly>): (r: seq<Anomaly>)
    ensures forall a :: a in r <==> a in items && Allowed(fs, baseline, a)
  {
    if items == [] then []
    else (if Allowed(fs, baseline, items[0]) then [items[0]] else []) + Filtered(fs, baseline, items[1..])
  }

  lemma {:induction false} FilteredAppend(fs: FileSystem, baseline: seq<string>, a: seq<Anomaly>, b: seq<Anomaly>)
    ensures Filtered(fs, baseline, a + b) == Filtered(fs, baseline, a) + Filtered(fs, baseline, b)
    decreases a
  {
    hide Allowed;
    if a == [] {
      assert a + b == b;
    } else {
      FilteredAppend(fs, baseline, a[1..], b);
      assert (a + b)[1..] == a[1..] + b && (a + b)[0] == a[0];
    }
  }

  lemma EmittedFiltered(w: World, o: Options, pid: nat, r: Region, overlay: nat)
    ensures Emitted(w, o, pid, r, overlay) == Filtered(w.files, o.baseline, Emitted(w, Unfiltered(o), pid, r, overlay))
    ensures LooksUp(w, o, r) <==> LooksUp(w, Unfiltered(o), r)
  {
    hide Finding;
  }

  lemma {:induction false} ScanFiltered(w: World, o: Options, pid: nat, rs: seq<Region>, cache: map<string, nat>)
    ensures CachedScan(w, o, pid, rs, cache) == Filtered(w.files, o.baseline,
                                                         CachedScan(w, Unfiltered(o), pid, rs, cache))
    decreases rs
  {
    hide Emitted, LooksUp, CachedOverlay, UpdatedCache, Filtered, Unfiltered;
    if rs == [] {
      NothingFiltered(w.files, o.baseline);
    } else {
      var r := rs[0];
      var mapped := w.mappedPath(r.base);
      var overlay := if LooksUp(w, o, r) then CachedOverlay(w.files, cache, mapped) else 0;
      var cache' := if LooksUp(w, o, r) then UpdatedCache(w.files, cache, mapped) else cache;
      EmittedFiltered(w, o, pid, r, overlay);
      ScanFiltered(w, o, pid, rs[1..], cache');
      FilteredAppend(w.files, o.baseline, Emitted(w, Unfiltered(o), pid, r, overlay),
                     CachedScan(w, Unfiltered(o), pid, rs[1..], cache'));
    }
  }

  lemma NothingFiltered(fs: FileSystem, baseline: seq<string>)
    ensures Filtered(fs, baseline, []) == []
  {
  }

  /** A scan with a baseline reports the unfiltered scan without the suppressed findings. */
  lemma BaselineIsFilter(w: World, o: Options, pid: nat)
    ensures Output(w, o, pid) == Filtered(w.files, o.baseline, Output(w, Unfiltered(o), pid))
  {
    hide CachedScan, Filtered, Visited;
    ScanFiltered(w, o, pid, Visited(w, 0), map[]);
  }

  /** A finding is left out exactly when a baseline entry is its fingerprint, up to case. */
  lemma BaselineLeavesOutIff(w: World, o: Options, pid: nat, a: Anomaly)
    ensures a in Output(w, o, pid) <==>
            && a in Output(w, Unfiltered(o), pid)
            && forall i | 0 <= i < |o.baseline| :: w.files.lower(o.baseline[i]) != w.files.lower(a.fingerprint)
  {
    hide Output;
    BaselineIsFilter(w, o, pid);
  }

  lemma {:induction false} FilterTwice(fs: FileSystem, small: seq<string>, large: seq<string>, items: seq<Anomaly>)
    requires forall x | x in small :: x in large
    ensures Filtered(fs, large, items) == Filtered(fs, large, Filtered(fs, small, items))
  {
    hide Suppressed;
    if items != [] {
      FilterTwice(fs, small, large, items[1..]);
      SuppressedMore(fs, small, large, items[0]);
      var rest := Filtered(fs, small, items[1..]);
      if Suppressed(fs, small, items[0]) {
        assert Filtered(fs, small, items) == [] + rest == rest;
        assert Filtered(fs, large, items) == [] + Filtered(fs, large, items[1..]);
      } else {
        assert Filtered(fs, small, items) == [items[0]] + rest;
        assert Filtered(fs, small, items)[1..] == rest;
      }
    }
  }

  lemma SuppressedMore(fs: FileSystem, small: seq<string>, large: seq<string>, a: Anomaly)
    requires forall x | x in small :: x in large
    ensures Suppressed(fs, small, a) ==> Suppressed(fs, large, a)
  {
    if Suppressed(fs, small, a) {
      var i :| 0 <= i < |small| && fs.lower(small[i]) == fs.lower(a.fingerprint);
      assert small[i] in large;
      var j :| 0 <= j < |large| && large[j] == small[i];
    }
  }

  /** A larger baseline reports a sublist of what a smaller one reports. */
  lemma LargerBaselineReportsLess(w: World, o: Options, pid: nat, larger: seq<string>)
    requires forall x | x in o.baseline :: x in larger
    ensures Output(w, o.(baseline := larger), pid) == Filtered(w.files, larger, Output(w, o, pid))
  {
    hide Output, Filtered;
    var o2 := o.(baseline := larger);
    BaselineIsFilter(w, o, pid);
    BaselineIsFilter(w, o2, pid);
    assert Unfiltered(o2) == Unfiltered(o);
    FilterTwice(w.files, o.baseline, larger, Output(w, Unfiltered(o), pid));
  }

  // ----- create, then apply

  /** The app of a new baseline: the chosen process, or that of the first finding. */
  function AppOf(procPath: string, items: seq<Anomaly>): string {
    if procPath == "" && items != [] then items[0].process else procPath
  }

  function Selected(items: seq<Anomaly>, app: string): seq<string> {
    if items == [] then []
    else
      var last := items[|items| - 1];
      Selected(items[..|items| - 1], app) + if last.process == app then [last.fingerprint] else []
  }

  /** `baseline create`: scans without a baseline and writes the fingerprints of one app. */
  method CreateBaseline(sys: System, pid: nat, procPath: string, listed: seq<nat>) returns (text: string)
    requires pid != 0 || procPath != ""
    ensures text == CreatedText(sys, pid, procPath, listed)
  {
    hide SystemOutput, Baseline.BaselineText;
    var items := ScanSystem(sys, Options([], [], []), pid == 0, pid, listed);
    var app := procPath;
    if app == "" && items != [] {
      app := items[0].process;
    }
    var fps: seq<string> := [];
    for i := 0 to |items|
      invariant fps == Selected(items[..i], app)
    {
      assert items[..i + 1][..i] == items[..i];
      if items[i].process == app {
        fps := fps + [items[i].fingerprint];
      }
    }
    assert items[..|items|] == items;
    text := Baseline.SaveBaseline(app, fps);
  }

  function CreatedItems(sys: System, pid: nat, listed: seq<nat>): seq<Anomaly> {
    SystemOutput(sys, Options([], [], []), Targets(pid == 0, pid, listed))
  }

  function CreatedText(sys: System, pid: nat, procPath: string, listed: seq<nat>): string {
    var items := CreatedItems(sys, pid, listed);
    Baseline.BaselineText(AppOf(procPath, items), Selected(items, AppOf(procPath, items)))
  }

  /** The findings of `baseline apply`, given the text of the baseline file; none at all when the
      file cannot be read. */
  function AppliedItems(sys: System, file: Option<string>, pids: seq<nat>): Option<seq<Anomaly>> {
    if file.None? then None
    else Some(SystemOutput(sys, Options([], [], FindStringArray(file.value, "allowed")), pids))
  }

  /** `baseline apply`: scans with the fingerprints read from a file and writes a report. */
  method ApplyBaseline(sys: System, path: string, file: Option<string>, all: bool, pid: nat, listed: seq<nat>)
    returns (code: int, text: string)
    ensures code == 0 <==> path != "" && file.Some?
    ensures code != 0 ==> code == 2 && text == ""
    ensures code == 0 ==> text == Report.ReportText(AppliedItems(sys, file, Targets(all, pid, listed)).value)
  {
    hide SystemOutput, FindStringArray, Report.ReportText, FindString;
    if path == "" {
      return 2, "";
    }
    var ok, _, fps := Baseline.LoadBaseline(path, file, "", []);
    if !ok {
      return 2, "";
    }
    assert fps == FindStringArray(file.value, "allowed");
    var items := ScanSystem(sys, Options([], [], fps), all, pid, listed);
    text := Report.RenderJson(items);
    code := 0;
  }

  /** The findings of one app, in order. */
  function OfApp(items: seq<Anomaly>, app: string): (r: seq<Anomaly>)
    ensures forall a :: a in r <==> a in items && a.process == app
  {
    if items == [] then []
    else (if items[0].process == app then [items[0]] else []) + OfApp(items[1..], app)
  }

  lemma {:induction false} OfAppLast(items: seq<Anomaly>, a: Anomaly, app: string)
    ensures OfApp(items + [a], app) == OfApp(items, app) + if a.process == app then [a] else []
  {
    hide OfApp;
    OfAppStep(items + [a], app);
    OfAppStep(items, app);
    if items == [] {
      OfAppStep([], app);
      assert [a][1..] == [];
    } else {
      OfAppLast(items[1..], a, app);
      assert (items + [a])[1..] == items[1..] + [a];
      JoinThree(if items[0].process == app then [items[0]] else [], OfApp(items[1..], app),
                if a.process == app then [a] else []);
    }
  }

  lemma OfAppStep(items: seq<Anomaly>, app: string)
    ensures OfApp(items, app) ==
            if items == [] then []
            else (if items[0].process == app then [items[0]] else []) + OfApp(items[1..], app)
  {
  }

  lemma JoinThree(a: seq<Anomaly>, b: seq<Anomaly>, c: seq<Anomaly>)
    ensures (a + b) + c == a + (b + c)
  {
  }

  function FingerprintsOf(items: seq<Anomaly>): (r: seq<string>)
    ensures |r| == |items| && forall i | 0 <= i < |items| :: r[i] == items[i].fingerprint
  {
    seq(|items|, i requires 0 <= i < |items| => items[i].fingerprint)
  }

  /** Exactly the fingerprints of the app's findings are selected, one for each, in order. */
  lemma {:induction false} SelectedExact(items: seq<Anomaly>, app: string)
    ensures Selected(items, app) == FingerprintsOf(OfApp(items, app))
  {
    hide OfApp, Selected, FingerprintsOf;
    SelectedStep(items, app);
    if items == [] {
      OfAppStep(items, app);
      NoFingerprints();
    } else {
      var before, last := items[..|items| - 1], items[|items| - 1];
      SelectedExact(before, app);
      OfAppLast(before, last, app);
      assert items == before + [last];
      var own := if last.process == app then [last] else [];
      FingerprintsJoin(OfApp(before, app), own);
      OneFingerprint(last);
      NoFingerprints();
    }
  }

  lemma SelectedStep(items: seq<Anomaly>, app: string)
    ensures Selected(items, app) ==
            if items == [] then []
            else Selected(items[..|items| - 1], app) +
                 if items[|items| - 1].process == app then [items[|items| - 1].fingerprint] else []
  {
  }

  lemma FingerprintsJoin(a: seq<Anomaly>, b: seq<Anomaly>)
    ensures FingerprintsOf(a + b) == FingerprintsOf(a) + FingerprintsOf(b)
  {
  }

  lemma NoFingerprints()
    ensures FingerprintsOf([]) == []
  {
  }

  lemma OneFingerprint(a: Anomaly)
    ensures FingerprintsOf([a]) == [a.fingerprint]
  {
  }

  /** A new baseline reads back as the chosen app, or that of the first finding when none is chosen,
      with the fingerprints of that app and of no other. */
  lemma CreatedReadsBack(sys: System, pid: nat, procPath: string, listed: seq<nat>, app0: string)
    requires HexSystem(sys)
    ensures var items, text := CreatedItems(sys, pid, listed), CreatedText(sys, pid, procPath, listed);
            var app := if procPath != "" then procPath else if items != [] then items[0].process else "";
            Baseline.Loaded(ReadTextFile(text), app0, []) ==
            if |text| > READ_LIMIT then None
            else Some(Baseline.Saved(Norm(app), FingerprintsOf(OfApp(items, app))))
  {
    hide SystemOutput, Baseline.BaselineText, Baseline.Loaded, Selected, Printable, Norm, OfApp;
    var items := CreatedItems(sys, pid, listed);
    var app := AppOf(procPath, items);
    SystemDigests(sys, Options([], [], []), Targets(pid == 0, pid, listed));
    DigestsSelected(items, app);
    Baseline.BaselineReadsBack(app, Selected(items, app), app0, []);
    NormAllExact(Selected(items, app));
    SelectedExact(items, app);
    assert [] + Selected(items, app) == FingerprintsOf(OfApp(items, app));
  }

  /** Applying a baseline leaves out exactly the findings whose fingerprint it lists, up to case. */
  lemma AppliedIff(sys: System, text: string, pids: seq<nat>, a: Anomaly)
    ensures var applied := AppliedItems(sys, Some(text), pids);
            && applied.Some?
            && (a in applied.value <==>
                  exists i ::
                    && 0 <= i < |pids| && pids[i] != 0 && pids[i] in sys
                    && a in Output(sys[pids[i]], Options([], [], []), pids[i])
                    && NotListed(sys[pids[i]].files, FindStringArray(text, "allowed"), a.fingerprint))
  {
    hide Output, SystemOutput, FindStringArray, NotListed;
    var listed := FindStringArray(text, "allowed");
    var o := Options([], [], listed);
    SystemIff(sys, o, pids, a);
    assert Unfiltered(o) == Options([], [], []);
    forall i | 0 <= i < |pids| && pids[i] in sys
      ensures a in Output(sys[pids[i]], o, pids[i]) <==>
              a in Output(sys[pids[i]], Unfiltered(o), pids[i]) && NotListed(sys[pids[i]].files, listed, a.fingerprint)
    {
      BaselineLeavesOutIff(sys[pids[i]], o, pids[i], a);
      NotListedIs(sys[pids[i]].files, listed, a.fingerprint);
    }
  }

  predicate NotListed(fs: FileSystem, listed: seq<string>, fingerprint: string) {
    forall i | 0 <= i < |listed| :: fs.lower(listed[i]) != fs.lower(fingerprint)
  }

  lemma NotListedIs(fs: FileSystem, listed: seq<string>, fingerprint: string)
    ensures NotListed(fs, listed, fingerprint) <==>
            forall i | 0 <= i < |listed| :: fs.lower(listed[i]) != fs.lower(fingerprint)
  {
  }

  lemma {:induction false} SelectedHas(items: seq<Anomaly>, app: string, a: Anomaly)
    requires a in items && a.process == app
    ensures a.fingerprint in Selected(items, app)
  {
    var n := |items| - 1;
    if a != items[n] {
      var i :| 0 <= i < |items| && items[i] == a;
      assert items[..n][i] == a;
      SelectedHas(items[..n], app, a);
    }
  }

  /** Digests are written in hexadecimal digits; a failed hash is empty. */
  ghost predicate HexDigests(fs: FileSystem) { forall t :: AllHex(fs.sha(t)) }

  /** All fingerprints survive writing and reading. */
  ghost predicate DigestsReadBack(fs: FileSystem) { forall t :: Printable(fs.sha(t)) }

  lemma HexReadsBack(s: string)
    requires AllHex(s)
    ensures Printable(s)
  {
  }

  lemma HexDigestsReadBack(fs: FileSystem)
    requires HexDigests(fs)
    ensures DigestsReadBack(fs)
  {
    hide AllHex, Printable;
    forall t
      ensures Printable(fs.sha(t))
    {
      HexReadsBack(fs.sha(t));
    }
  }

  lemma {:induction false} DigestsSelected(items: seq<Anomaly>, app: string)
    requires forall i | 0 <= i < |items| :: Printable(items[i].fingerprint)
    ensures forall i | 0 <= i < |Selected(items, app)| :: Printable(Selected(items, app)[i])
  {
    hide Printable;
    if items != [] {
      DigestsSelected(items[..|items| - 1], app);
    }
  }

  lemma EmittedDigest(w: World, o: Options, pid: nat, r: Region, overlay: nat)
    requires DigestsReadBack(w.files)
    ensures forall i | 0 <= i < |Emitted(w, o, pid, r, overlay)| ::
            Printable(Emitted(w, o, pid, r, overlay)[i].fingerprint)
    ensures forall i | 0 <= i < |Emitted(w, o, pid, r, overlay)| ::
            Emitted(w, o, pid, r, overlay)[i].process == w.process
  {
    hide Reasons, LayoutOf, RegionMetadata, RegionThreads, SectionOf, FingerprintText, HeadIsPe, Printable;
  }

  lemma {:induction false} ScanDigests(w: World, o: Options, pid: nat, rs: seq<Region>, cache: map<string, nat>)
    requires DigestsReadBack(w.files)
    ensures forall a | a in CachedScan(w, o, pid, rs, cache) :: Printable(a.fingerprint) && a.process == w.process
    decreases rs
  {
    hide Emitted, LooksUp, CachedOverlay, UpdatedCache, Printable, DigestsReadBack;
    if rs != [] {
      var r := rs[0];
      var mapped := w.mappedPath(r.base);
      var overlay := if LooksUp(w, o, r) then CachedOverlay(w.files, cache, mapped) else 0;
      var cache' := if LooksUp(w, o, r) then UpdatedCache(w.files, cache, mapped) else cache;
      EmittedDigest(w, o, pid, r, overlay);
      ScanDigests(w, o, pid, rs[1..], cache');
    }
  }

  ghost predicate HexSystem(sys: System) { forall pid | pid in sys :: HexDigests(sys[pid].files) }

  lemma {:induction false} SystemDigests(sys: System, o: Options, pids: seq<nat>)
    requires HexSystem(sys)
    ensures forall a | a in SystemOutput(sys, o, pids) :: Printable(a.fingerprint)
  {
    hide Printable, HexDigests, DigestsReadBack, CachedScan, Visited;
    if pids != [] {
      SystemDigests(sys, o, pids[..|pids| - 1]);
      var pid := pids[|pids| - 1];
      if pid in sys {
        HexDigestsReadBack(sys[pid].files);
        ScanDigests(sys[pid], o, pid, Visited(sys[pid], 0), map[]);
      }
    }
  }

  /** What is reported with a baseline is reported without it, and is not in the baseline. */
  lemma {:induction false} SystemFiltered(sys: System, baseline: seq<string>, pids: seq<nat>, a: Anomaly)
    requires a in SystemOutput(sys, Options([], [], baseline), pids)
    ensures a in SystemOutput(sys, Options([], [], []), pids) && a.fingerprint !in baseline
  {
    hide Output, Filtered;
    var n := |pids| - 1;
    var pid := pids[n];
    if a in SystemOutput(sys, Options([], [], baseline), pids[..n]) {
      SystemFiltered(sys, baseline, pids[..n], a);
    } else {
      BaselineIsFilter(sys[pid], Options([], [], baseline), pid);
      assert Unfiltered(Options([], [], baseline)) == Options([], [], []);
      assert a in Filtered(sys[pid].files, baseline, Output(sys[pid], Options([], [], []), pid));
    }
  }

  /** On an unchanged system, applying a baseline right after creating it reports nothing of the
      app it was created for. */
  lemma AppliedBaselineSilencesApp(sys: System, pid: nat, procPath: string, listed: seq<nat>, a: Anomaly)
    requires HexSystem(sys)
    requires var applied := AppliedItems(sys, ReadTextFile(CreatedText(sys, pid, procPath, listed)),
                                         Targets(pid == 0, pid, listed));
             applied.Some? && a in applied.value
    ensures a.process != AppOf(procPath, CreatedItems(sys, pid, listed))
  {
    hide SystemOutput, Baseline.BaselineText, Selected, Printable, FindStringArray;
    var items := CreatedItems(sys, pid, listed);
    var app := AppOf(procPath, items);
    var fps := Selected(items, app);
    SystemDigests(sys, Options([], [], []), Targets(pid == 0, pid, listed));
    DigestsSelected(items, app);
    Baseline.TextReadsBack(app, fps);
    NormAllExact(fps);
    SystemFiltered(sys, fps, Targets(pid == 0, pid, listed), a);
    if a.process == app {
      SelectedHas(items, app, a);
    }
  }

  lemma NormAllExact(fps: seq<string>)
    requires forall i | 0 <= i < |fps| :: Printable(fps[i])
    ensures NormAll(fps) == fps
  {
    hide Norm, Printable;
    forall i | 0 <= i < |fps|
      ensures NormAll(fps)[i] == fps[i]
    {
      NormExact(fps[i]);
    }
  }

  /** Created from one process id alone, the baseline silences that process completely, as long as
      it is within the read limit; beyond it, applying it fails. */
  lemma AppliedBaselineSilencesProcess(sys: System, pid: nat, listed: seq<nat>)
    requires HexSystem(sys) && pid != 0
    ensures var text := CreatedText(sys, pid, "", listed);
            AppliedItems(sys, ReadTextFile(text), [pid]) == if |text| <= READ_LIMIT then Some([]) else None
  {
    hide Output, Baseline.BaselineText, Selected, Printable, FindStringArray, CreatedText;
    var items := CreatedItems(sys, pid, listed);
    var applied := AppliedItems(sys, ReadTextFile(CreatedText(sys, pid, "", listed)), [pid]);
    if applied.Some? && applied.value != [] {
      var a := applied.value[0];
      assert a in applied.value;
      AppliedBaselineSilencesApp(sys, pid, "", listed, a);
      OneProcess(sys, pid, FindStringArray(CreatedText(sys, pid, "", listed), "allowed"), a);
      assert false;
    }
  }

  /** All findings of one process carry its path. */
  lemma OneProcess(sys: System, pid: nat, baseline: seq<string>, a: Anomaly)
    requires HexSystem(sys) && pid != 0
    requires a in SystemOutput(sys, Options([], [], baseline), [pid])
    ensures var items := SystemOutput(sys, Options([], [], []), [pid]);
            items != [] && a.process == items[0].process
  {
    hide CachedScan, Visited, Printable, HexDigests, DigestsReadBack;
    SystemFiltered(sys, baseline, [pid], a);
    var items := SystemOutput(sys, Options([], [], []), [pid]);
    OneTarget(sys, Options([], [], []), pid);
    HexDigestsReadBack(sys[pid].files);
    ScanDigests(sys[pid], Options([], [], []), pid, Visited(sys[pid], 0), map[]);
    assert items[0] in items;
  }

  lemma OneTarget(sys: System, o: Options, pid: nat)
    requires pid != 0
    ensures SystemOutput(sys, o, [pid]) == if pid in sys then Output(sys[pid], o, pid) else []
  {
    hide Output;
    assert [pid][..0] == [];
    assert SystemOutput(sys, o, []) == [];
  }
}
