/** Fingerprints are stable across restarts: when a process is loaded elsewhere, only the reported
    bases change. */
module Relocation {
  import opened PeFormat
  import opened Memory
  import opened Metadata
  import opened Anomalies
  import opened Classify
  import opened Scan
  import opened Walk

  function Committed(rs: seq<Region>): seq<Region> {
    if rs == [] then [] else (if rs[0].state == MEM_COMMIT then [rs[0]] else []) + Committed(rs[1..])
  }

  /** `s` is `r` moved by `k`, with the same bytes and the same file behind it. */
  ghost predicate Moved(a: World, b: World, k: int, r: Region, s: Region) {
    && 0 <= r.base + k && 0 <= r.allocationBase + k < ADDRESS_SPACE
    && r.base + r.size < ADDRESS_SPACE && r.base + k + r.size < ADDRESS_SPACE
    && s == r.(base := s.base, allocationBase := s.allocationBase)
    && s.base == r.base + k && s.allocationBase == r.allocationBase + k
    && b.mappedPath(s.base) == a.mappedPath(r.base)
    && (forall n: nat :: b.memory(s.base, n) == a.memory(r.base, n))
    && (forall n: nat :: b.memory(s.allocationBase, n) == a.memory(r.allocationBase, n))
  }

  ghost predicate AllMoved(a: World, b: World, k: int, rs: seq<Region>, ss: seq<Region>) {
    |rs| == |ss| && forall i | 0 <= i < |rs| :: Moved(a, b, k, rs[i], ss[i])
  }

  /** Below `p` nothing is committed, and the answers lead up to `p` without passing it. */
  ghost predicate FreeBelow(w: World, p: U64) {
    p <= w.maxAddr &&
    forall x: U64 | x < p :: w.query(x).Some? && w.query(x).value.state != MEM_COMMIT && x < Next(w.query(x).value) <= p
  }

  /** From `e` on nothing is committed. */
  ghost predicate FreeFrom(w: World, e: U64) {
    forall x: U64 | e <= x && w.query(x).Some? :: w.query(x).value.state != MEM_COMMIT
  }

  /** The answers to the queries at `x` and `x + k` are the same but for the move. */
  ghost predicate AnswersMoved(a: World, b: World, k: int, x: U64) {
    && 0 <= x + k < ADDRESS_SPACE
    && (a.query(x).Some? <==> b.query(x + k).Some?)
    && (a.query(x).Some? ==>
          var r, s := a.query(x).value, b.query(x + k).value;
          && r.state == s.state && r.size == s.size && s.base == r.base + k
          && r.base + r.size < ADDRESS_SPACE && s.base + s.size < ADDRESS_SPACE
          && (r.state == MEM_COMMIT ==> Moved(a, b, k, r, s)))
  }

  /** The address space of the process, from `p` to the region at `last`, is `k` bytes further on in
      the other world, still below its limit; the free space around it may differ. */
  ghost predicate SpaceMoved(a: World, b: World, k: int, p: U64, last: U64) {
    && p <= last < a.maxAddr && 0 <= p + k && last + k < b.maxAddr
    && FreeBelow(a, p) && FreeBelow(b, p + k)
    && (forall x: U64 | p <= x <= last :: AnswersMoved(a, b, k, x))
    && (forall x: U64 | p <= x < last && a.query(x).Some? :: Next(a.query(x).value) <= last)
    && AnswersMoved(a, b, k, last)
    && (a.query(last).Some? ==>
          FreeFrom(a, Next(a.query(last).value)) && FreeFrom(b, Next(b.query(last + k).value)))
  }

  /** The same process loaded `k` bytes further on: its address space, its modules and its thread
      starts. */
  ghost predicate Relocated(a: World, b: World, k: int) {
    && a.process == b.process && a.files == b.files && a.modulesKnown == b.modulesKnown
    && |a.modules| == |b.modules|
    && (forall i | 0 <= i < |a.modules| ::
          b.modules[i].base == a.modules[i].base + k && b.modules[i].path == a.modules[i].path)
    && |a.threads| == |b.threads|
    && (forall i | 0 <= i < |a.threads| ::
          b.threads[i].address == a.threads[i].address + k && b.threads[i].tid == a.threads[i].tid)
    && exists p: U64, last: U64 :: SpaceMoved(a, b, k, p, last)
  }

  /** Everything but the two bases is the same. */
  ghost predicate SameButBases(x: Anomaly, y: Anomaly, k: int) {
    && y.base == x.base + k && y.allocationBase == x.allocationBase + k
    && y == x.(base := y.base, allocationBase := y.allocationBase)
  }

  ghost predicate AllSame(xs: seq<Anomaly>, ys: seq<Anomaly>, k: int) {
    |xs| == |ys| && forall i | 0 <= i < |xs| :: SameButBases(xs[i], ys[i], k)
  }

  // ----- uncommitted regions do not matter

  lemma {:induction false} OnlyCommitted(w: World, o: Options, pid: nat, rs: seq<Region>, cache: map<string, nat>)
    ensures CachedScan(w, o, pid, rs, cache) == CachedScan(w, o, pid, Committed(rs), cache)
    decreases rs
  {
    hide Finding, CachedOverlay, UpdatedCache, ShouldIgnore;
    if rs != [] {
      var r := rs[0];
      var mapped := w.mappedPath(r.base);
      if r.state == MEM_COMMIT {
        var cache' := if LooksUp(w, o, r) then UpdatedCache(w.files, cache, mapped) else cache;
        OnlyCommitted(w, o, pid, rs[1..], cache');
        assert Committed(rs)[0] == r && Committed(rs)[1..] == Committed(rs[1..]);
      } else {
        OnlyCommitted(w, o, pid, rs[1..], cache);
        assert Emitted(w, o, pid, r, 0) == [];
        assert Committed(rs) == Committed(rs[1..]);
      }
    }
  }

  // ----- one region

  lemma SameBytes(a: World, b: World, k: int, r: Region, s: Region)
    requires a.files == b.files && Moved(a, b, k, r, s)
    ensures Head(a, r) == Head(b, s) && HeadIsPe(a, r) == HeadIsPe(b, s)
    ensures RegionEntropy(a, r) == RegionEntropy(b, s)
    ensures LayoutOf(a, r.allocationBase) == LayoutOf(b, s.allocationBase)
    ensures PrivateImage(a, r) == PrivateImage(b, s)
  {
    hide PeOf, Histogram;
  }

  lemma {:induction false} SameModule(xs: seq<Module>, ys: seq<Module>, k: int, base: U64, moved: U64)
    requires |xs| == |ys| && moved == base + k
    requires forall i | 0 <= i < |xs| :: ys[i].base == xs[i].base + k && ys[i].path == xs[i].path
    ensures FindModule(xs, base).Some? <==> FindModule(ys, moved).Some?
    ensures FindModule(xs, base).Some? ==> FindModule(xs, base).value.path == FindModule(ys, moved).value.path
  {
    if xs != [] && xs[0].base != base {
      SameModule(xs[1..], ys[1..], k, base, moved);
    }
  }

  lemma {:induction false} SameThreads(xs: seq<ThreadStart>, ys: seq<ThreadStart>, k: int, base: U64, moved: U64,
                                       size: U64)
    requires |xs| == |ys| && moved == base + k && base + size < ADDRESS_SPACE && moved + size < ADDRESS_SPACE
    requires forall i | 0 <= i < |xs| :: ys[i].address == xs[i].address + k && ys[i].tid == xs[i].tid
    ensures ThreadsInRegion(xs, base, size) == ThreadsInRegion(ys, moved, size)
  {
    if xs != [] && size > 0 {
      SameThreads(xs[1..], ys[1..], k, base, moved, size);
    }
  }

  lemma SameReasons(a: World, b: World, k: int, r: Region, s: Region, overlay: nat)
    requires Relocated(a, b, k) && Moved(a, b, k, r, s)
    ensures ModulePath(a, r) == ModulePath(b, s)
    ensures var la, lb, m := LayoutOf(a, r.allocationBase), LayoutOf(b, s.allocationBase), a.mappedPath(r.base);
            && SectionOf(la, r) == SectionOf(lb, s)
            && RegionMetadata(a, r, la) == RegionMetadata(b, s, lb)
            && RegionOverlay(a, r, overlay) == RegionOverlay(b, s, overlay)
            && RegionThreads(a, r) == RegionThreads(b, s)
            && BaseReasons(a, r, la, m) == BaseReasons(b, s, lb, m)
  {
    hide PeOf, LayoutOf, HeadIsPe, Head, PrivateImage, HeaderDiffers, NormalizePath, AllMoved, FindModule;
    hide ThreadsInRegion, MetadataOf;
    hide Visited, Committed;
    SameBytes(a, b, k, r, s);
    SameModule(a.modules, b.modules, k, r.allocationBase, s.allocationBase);
    SameThreads(a.threads, b.threads, k, r.base, s.base, r.size);
  }

  lemma SameFinding(a: World, b: World, pid: nat, k: int, r: Region, s: Region, overlay: nat)
    requires Relocated(a, b, k) && Moved(a, b, k, r, s)
    ensures Finding(a, pid, r, overlay).Some? <==> Finding(b, pid, s, overlay).Some?
    ensures Finding(a, pid, r, overlay).Some? ==>
              SameButBases(Finding(a, pid, r, overlay).value, Finding(b, pid, s, overlay).value, k)
  {
    hide PeOf, LayoutOf, HeadIsPe, RegionEntropy, BaseReasons, RegionMetadata, RegionOverlay, RegionThreads;
    hide SectionOf, ModulePath;
    hide Severity, WithImports, WithEntropy, WithOverlay, WithThreads, FingerprintText, AllMoved;
    SameBytes(a, b, k, r, s);
    SameReasons(a, b, k, r, s, overlay);
    SameContext(a, b, k, r, s, RegionMetadata(a, r, LayoutOf(a, r.allocationBase)));
  }

  /** The context reasons look at the protection and type of the region only. */
  lemma SameContext(a: World, b: World, k: int, r: Region, s: Region, m: PeMetadata)
    requires Moved(a, b, k, r, s)
    ensures forall before :: WithImports(r, m, before) == WithImports(s, m, before)
    ensures forall entropy, before :: WithEntropy(r, entropy, before) == WithEntropy(s, entropy, before)
  {
  }

  lemma SameEmitted(a: World, b: World, o: Options, pid: nat, k: int, r: Region, s: Region, overlay: nat)
    requires Relocated(a, b, k) && Moved(a, b, k, r, s)
    ensures AllSame(Emitted(a, o, pid, r, overlay), Emitted(b, o, pid, s, overlay), k)
    ensures LooksUp(a, o, r) <==> LooksUp(b, o, s)
  {
    hide Finding, ShouldIgnore, AllMoved;
    SameFinding(a, b, pid, k, r, s, overlay);
  }

  // ----- the whole scan

  lemma {:induction false} SameScan(a: World, b: World, o: Options, pid: nat, k: int, rs: seq<Region>,
                                    ss: seq<Region>, cache: map<string, nat>)
    requires Relocated(a, b, k) && AllMoved(a, b, k, rs, ss)
    ensures AllSame(CachedScan(a, o, pid, rs, cache), CachedScan(b, o, pid, ss, cache), k)
    decreases rs
  {
    hide Emitted, LooksUp, CachedOverlay, UpdatedCache, SameButBases, Visited, Committed;
    if rs != [] {
      var r, s := rs[0], ss[0];
      assert Moved(a, b, k, r, s);
      var mapped := a.mappedPath(r.base);
      SameEmitted(a, b, o, pid, k, r, s, 0);
      var overlay := if LooksUp(a, o, r) then CachedOverlay(a.files, cache, mapped) else 0;
      var cache' := if LooksUp(a, o, r) then UpdatedCache(a.files, cache, mapped) else cache;
      SameEmitted(a, b, o, pid, k, r, s, overlay);
      SameScan(a, b, o, pid, k, rs[1..], ss[1..], cache');
    }
  }

  /** Moving a process changes only the reported bases: reasons, severity, thread ids and
      fingerprints of the whole scan stay the same. */
  lemma RelocationInvariant(a: World, b: World, o: Options, pid: nat, k: int)
    requires Relocated(a, b, k)
    ensures AllSame(Output(a, o, pid), Output(b, o, pid), k)
  {
    hide CachedScan, Visited, Committed, AllMoved, AllSame;
    OnlyCommitted(a, o, pid, Visited(a, 0), map[]);
    OnlyCommitted(b, o, pid, Visited(b, 0), map[]);
    CommittedMoved(a, b, k);
    SameScan(a, b, o, pid, k, Committed(Visited(a, 0)), Committed(Visited(b, 0)), map[]);
  }

  // ----- both walks meet the same regions

  lemma CommittedStep(r: Region, rest: seq<Region>)
    ensures Committed([r] + rest) == (if r.state == MEM_COMMIT then [r] else []) + Committed(rest)
  {
    assert ([r] + rest)[1..] == rest;
  }

  /** Free space below adds nothing, however it is divided. */
  lemma {:induction false} NothingBelow(w: World, x: U64, p: U64)
    requires FreeBelow(w, p) && x <= p
    ensures Committed(Visited(w, x)) == Committed(Visited(w, p))
    decreases p - x
  {
    hide Visited, Committed;
    if x < p {
      var r := w.query(x).value;
      VisitedStep(w, x);
      CommittedStep(r, Visited(w, Next(r)));
      NothingBelow(w, Next(r), p);
    }
  }

  lemma {:induction false} NothingFrom(w: World, x: U64, e: U64)
    requires FreeFrom(w, e) && e <= x
    ensures Committed(Visited(w, x)) == []
    decreases ADDRESS_SPACE - x
  {
    hide Visited;
    VisitedStep(w, x);
    if Visited(w, x) != [] {
      var r := w.query(x).value;
      CommittedStep(r, Visited(w, Next(r)));
      NothingFrom(w, Next(r), e);
    }
  }

  lemma {:induction false} WalksMoved(a: World, b: World, k: int, p: U64, last: U64, x: U64)
    requires SpaceMoved(a, b, k, p, last) && p <= x <= last
    ensures AllMoved(a, b, k, Committed(Visited(a, x)), Committed(Visited(b, x + k)))
    decreases ADDRESS_SPACE - x
  {
    hide Visited, Committed, FreeBelow, FreeFrom, Moved, AllMoved;
    VisitedStep(a, x);
    VisitedStep(b, x + k);
    assert AnswersMoved(a, b, k, x);
    NoneCommitted(a, b, k);
    if a.query(x).Some? && Next(a.query(x).value) > x {
      var r, s := a.query(x).value, b.query(x + k).value;
      CommittedStep(r, Visited(a, Next(r)));
      CommittedStep(s, Visited(b, Next(s)));
      if x < last {
        WalksMoved(a, b, k, p, last, Next(r));
      } else {
        NothingFrom(a, Next(r), Next(r));
        NothingFrom(b, Next(s), Next(s));
      }
      MovedFirst(a, b, k, r, s, Committed(Visited(a, Next(r))), Committed(Visited(b, Next(s))));
    }
  }

  lemma NoneCommitted(a: World, b: World, k: int)
    ensures Committed([]) == [] && AllMoved(a, b, k, [], [])
  {
  }

  lemma MovedFirst(a: World, b: World, k: int, r: Region, s: Region, rs: seq<Region>, ss: seq<Region>)
    requires AllMoved(a, b, k, rs, ss) && r.state == s.state && (r.state == MEM_COMMIT ==> Moved(a, b, k, r, s))
    ensures AllMoved(a, b, k, (if r.state == MEM_COMMIT then [r] else []) + rs,
                     (if s.state == MEM_COMMIT then [s] else []) + ss)
  {
    hide Moved;
  }

  lemma CommittedMoved(a: World, b: World, k: int)
    requires Relocated(a, b, k)
    ensures AllMoved(a, b, k, Committed(Visited(a, 0)), Committed(Visited(b, 0)))
  {
    hide Visited, Committed, AllMoved, AnswersMoved, FreeFrom;
    var p: U64, last: U64 :| SpaceMoved(a, b, k, p, last);
    assert 0 <= p + k < b.maxAddr < ADDRESS_SPACE;
    NothingBelow(a, 0, p);
    NothingBelow(b, 0, p + k);
    WalksMoved(a, b, k, p, last, p);
  }
}
