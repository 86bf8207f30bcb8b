/** The region walk: it always moves forward, covers its range without overlap when answers start at
    the cursor, and so reports no base and no thread twice. */
module Walk {
  import opened PeFormat
  import opened Memory
  import opened Anomalies
  import opened Classify
  import opened Scan

  /** The findings of one process, as the cached scan reports them. */
  function Output(w: World, o: Options, pid: nat): seq<Anomaly> { CachedScan(w, o, pid, Visited(w, 0), map[]) }

  // ----- one region gives at most one finding, about that region

  ghost predicate Describes(w: World, pid: nat, r: Region, a: Anomaly) {
    && a.pid == pid && a.process == w.process
    && a.base == r.base && a.size == r.size && a.allocationBase == r.allocationBase
    && a.threadIds == RegionThreads(w, r)
    && a.reasons != []
  }

  lemma EmittedDescribes(w: World, o: Options, pid: nat, r: Region, overlay: nat)
    ensures |Emitted(w, o, pid, r, overlay)| <= 1
    ensures forall i | 0 <= i < |Emitted(w, o, pid, r, overlay)| ::
            Describes(w, pid, r, Emitted(w, o, pid, r, overlay)[i])
  {
    hide Reasons, LayoutOf, RegionMetadata, RegionThreads, SectionOf, Fingerprint, Suppressed, HeadIsPe;
  }

  // ----- the walk

  lemma VisitedStep(w: World, x: U64)
    ensures Visited(w, x) ==
            if x < w.maxAddr && w.query(x).Some? && Next(w.query(x).value) > x
            then [w.query(x).value] + Visited(w, Next(w.query(x).value)) else []
  {
  }

  /** For any answers, also ones whose sums wrap, every step moves the cursor strictly forward. */
  lemma {:induction false} CursorMovesForward(w: World, p: U64, i: nat, j: nat)
    requires i < j < |Visited(w, p)|
    ensures p < Next(Visited(w, p)[i]) < Next(Visited(w, p)[j]) < ADDRESS_SPACE
    decreases j
  {
    var r := w.query(p).value;
    var rest := Visited(w, Next(r));
    assert Visited(w, p)[j] == rest[j - 1];
    FirstMoves(w, Next(r), j - 1);
    if i > 0 {
      assert Visited(w, p)[i] == rest[i - 1];
      CursorMovesForward(w, Next(r), i - 1, j - 1);
    }
  }

  lemma {:induction false} FirstMoves(w: World, p: U64, j: nat)
    requires j < |Visited(w, p)|
    ensures p < Next(Visited(w, p)[j])
    decreases j
  {
    if j > 0 {
      var r := w.query(p).value;
      assert Visited(w, p)[j] == Visited(w, Next(r))[j - 1];
      FirstMoves(w, Next(r), j - 1);
    }
  }

  /** Each answer the walk from `p` accepts starts at the cursor it was asked for. */
  predicate StartsAtCursor(w: World, p: U64)
    decreases ADDRESS_SPACE - p
  {
    p < w.maxAddr && w.query(p).Some? && Next(w.query(p).value) > p ==>
      w.query(p).value.base == p && StartsAtCursor(w, Next(w.query(p).value))
  }

  /** The regions follow one another from `p` on, without gap or overlap or wrap. */
  predicate Tiled(rs: seq<Region>, p: nat) {
    rs == [] ||
    (rs[0].base == p && rs[0].size > 0 && p + rs[0].size < ADDRESS_SPACE && Tiled(rs[1..], p + rs[0].size))
  }

  function End(rs: seq<Region>, p: nat): nat {
    if rs == [] then p else End(rs[1..], p + rs[0].size)
  }

  /** The visited regions tile the walked range exactly when the accepted answers start at the cursor. */
  lemma {:induction false} VisitedTiles(w: World, p: U64)
    ensures Tiled(Visited(w, p), p) <==> StartsAtCursor(w, p)
    ensures StartsAtCursor(w, p) ==>
            var e := End(Visited(w, p), p);
            e < ADDRESS_SPACE && (e >= w.maxAddr || w.query(e).None? || Next(w.query(e).value) <= e)
    decreases ADDRESS_SPACE - p
  {
    if p < w.maxAddr && w.query(p).Some? && Next(w.query(p).value) > p {
      var r := w.query(p).value;
      VisitedTiles(w, Next(r));
      assert Visited(w, p) == [r] + Visited(w, Next(r));
      assert Visited(w, p)[1..] == Visited(w, Next(r));
    }
  }

  /** Answers are whole pages and start at the page of the address, also of an unaligned one. */
  ghost predicate AnswersPages(w: World) {
    forall p: U64 :: w.query(p).Some? ==>
      w.query(p).value.base == p - p % 0x1000 && w.query(p).value.size % 0x1000 == 0
  }

  /** Such answers start at the cursor, since the walk never leaves page boundaries. */
  lemma {:induction false} PagesStartAtCursor(w: World, p: U64)
    requires AnswersPages(w) && p % 0x1000 == 0
    ensures StartsAtCursor(w, p)
    decreases ADDRESS_SPACE - p
  {
    if p < w.maxAddr && w.query(p).Some? && Next(w.query(p).value) > p {
      var r := w.query(p).value;
      assert Next(r) % 0x1000 == 0;
      PagesStartAtCursor(w, Next(r));
    }
  }

  // ----- the report

  ghost predicate Ordered(items: seq<Anomaly>) {
    forall i, j | 0 <= i < j < |items| :: items[i].base + items[i].size <= items[j].base
  }

  ghost predicate From(items: seq<Anomaly>, p: nat) {
    forall i | 0 <= i < |items| :: items[i].base >= p && items[i].size > 0
  }

  lemma {:induction false} ScanOrdered(w: World, o: Options, pid: nat, rs: seq<Region>, p: nat, cache: map<string, nat>)
    requires Tiled(rs, p)
    ensures Ordered(CachedScan(w, o, pid, rs, cache)) && From(CachedScan(w, o, pid, rs, cache), p)
    decreases rs
  {
    hide Emitted, LooksUp, CachedOverlay, UpdatedCache;
    if rs != [] {
      var r := rs[0];
      var mapped := w.mappedPath(r.base);
      var overlay := if LooksUp(w, o, r) then CachedOverlay(w.files, cache, mapped) else 0;
      var cache' := if LooksUp(w, o, r) then UpdatedCache(w.files, cache, mapped) else cache;
      EmittedDescribes(w, o, pid, r, overlay);
      ScanOrdered(w, o, pid, rs[1..], p + r.size, cache');
    }
  }

  /** Findings come in address order and never overlap, so no base is reported twice. */
  lemma OutputOrdered(w: World, o: Options, pid: nat)
    requires StartsAtCursor(w, 0)
    ensures Ordered(Output(w, o, pid))
    ensures forall i, j | 0 <= i < j < |Output(w, o, pid)| :: Output(w, o, pid)[i].base < Output(w, o, pid)[j].base
  {
    hide CachedScan, Visited;
    VisitedTiles(w, 0);
    ScanOrdered(w, o, pid, Visited(w, 0), 0, map[]);
  }

  // ----- when the overlay cache shows

  /** Every looked-up region is reported with its own overlay, or not at all with either. */
  predicate NothingShows(w: World, o: Options, pid: nat, rs: seq<Region>, cache: map<string, nat>)
    decreases rs
  {
    rs == [] ||
    var r, mapped := rs[0], w.mappedPath(rs[0].base);
    if !LooksUp(w, o, r) then NothingShows(w, o, pid, rs[1..], cache)
    else
      && (|| CachedOverlay(w.files, cache, mapped) == OverlayOf(w.files, mapped)
          || (Emitted(w, o, pid, r, CachedOverlay(w.files, cache, mapped)) == [] &&
              Emitted(w, o, pid, r, OverlayOf(w.files, mapped)) == []))
      && NothingShows(w, o, pid, rs[1..], UpdatedCache(w.files, cache, mapped))
  }

  lemma {:induction false} PlainOrdered(w: World, o: Options, pid: nat, rs: seq<Region>, p: nat)
    requires Tiled(rs, p)
    ensures From(ScanRegions(w, o, pid, rs), p)
    decreases rs
  {
    hide Emitted, OverlayOf;
    if rs != [] {
      EmittedDescribes(w, o, pid, rs[0], OverlayOf(w.files, w.mappedPath(rs[0].base)));
      PlainOrdered(w, o, pid, rs[1..], p + rs[0].size);
    }
  }

  /** At most one item below an address, then only items from it on: the parts are determined. */
  lemma SplitAt(a: seq<Anomaly>, b: seq<Anomaly>, x: seq<Anomaly>, y: seq<Anomaly>, p: nat)
    requires |a| <= 1 && |b| <= 1 && From(x, p) && From(y, p)
    requires (forall i | 0 <= i < |a| :: a[i].base < p) && (forall i | 0 <= i < |b| :: b[i].base < p)
    ensures a + x == b + y <==> a == b && x == y
  {
    FirstTells(a, x, p);
    FirstTells(b, y, p);
    if a + x == b + y {
      assert x == (a + x)[|a|..] && y == (b + y)[|b|..];
      assert a == (a + x)[..|a|] && b == (b + y)[..|b|];
    }
  }

  lemma FirstTells(a: seq<Anomaly>, x: seq<Anomaly>, p: nat)
    requires |a| <= 1 && From(x, p) && forall i | 0 <= i < |a| :: a[i].base < p
    ensures a != [] <==> a + x != [] && (a + x)[0].base < p
  {
  }

  /** The cached scan of tiled regions is the cache-free one exactly when nothing shows. */
  lemma {:induction false} CacheExact(w: World, o: Options, pid: nat, rs: seq<Region>, p: nat, cache: map<string, nat>)
    requires Tiled(rs, p)
    ensures CachedScan(w, o, pid, rs, cache) == ScanRegions(w, o, pid, rs) <==> NothingShows(w, o, pid, rs, cache)
    decreases rs
  {
    hide Emitted, LooksUp, CachedOverlay, UpdatedCache, OverlayOf;
    if rs != [] {
      var r, rest := rs[0], rs[1..];
      var mapped := w.mappedPath(r.base);
      var own := OverlayOf(w.files, mapped);
      var used := if LooksUp(w, o, r) then CachedOverlay(w.files, cache, mapped) else 0;
      var cache' := if LooksUp(w, o, r) then UpdatedCache(w.files, cache, mapped) else cache;
      CacheExact(w, o, pid, rest, p + r.size, cache');
      ScanOrdered(w, o, pid, rest, p + r.size, cache');
      PlainOrdered(w, o, pid, rest, p + r.size);
      EmittedDescribes(w, o, pid, r, used);
      EmittedDescribes(w, o, pid, r, own);
      SplitAt(Emitted(w, o, pid, r, used), Emitted(w, o, pid, r, own),
              CachedScan(w, o, pid, rest, cache'), ScanRegions(w, o, pid, rest), p + r.size);
      if !LooksUp(w, o, r) {
        OverlayIgnored(w, o, pid, r, used, own);
      } else if used != own {
        SameOnlyIfNone(w, o, pid, r, used, own);
      }
    }
  }

  lemma SameOnlyIfNone(w: World, o: Options, pid: nat, r: Region, x: nat, y: nat)
    requires LooksUp(w, o, r) && x != y
    ensures Emitted(w, o, pid, r, x) == Emitted(w, o, pid, r, y) <==>
            Emitted(w, o, pid, r, x) == [] && Emitted(w, o, pid, r, y) == []
  {
    hide Emitted, LooksUp;
    if Emitted(w, o, pid, r, y) != [] {
      OverlayShows(w, o, pid, r, x, y);
    }
  }

  /** For a whole walk from an empty cache. */
  lemma CachedWalkExact(w: World, o: Options, pid: nat)
    requires StartsAtCursor(w, 0)
    ensures Output(w, o, pid) == ScanOf(w, o, pid) <==> NothingShows(w, o, pid, Visited(w, 0), map[])
  {
    hide CachedScan, Visited, ScanRegions, NothingShows;
    VisitedTiles(w, 0);
    CacheExact(w, o, pid, Visited(w, 0), 0, map[]);
  }

  // ----- threads

  /** A thread is listed exactly when it starts inside the region and the region's end does not wrap. */
  lemma {:induction false} ThreadsIff(threads: seq<ThreadStart>, base: U64, size: U64, t: U32)
    ensures t in ThreadsInRegion(threads, base, size) <==>
            && base + size < ADDRESS_SPACE
            && exists k :: 0 <= k < |threads| && threads[k].tid == t && base <= threads[k].address < base + size
  {
    if threads != [] && size > 0 && base + size < ADDRESS_SPACE {
      ThreadsIff(threads[1..], base, size, t);
      var rest := threads[1..];
      if t in ThreadsInRegion(rest, base, size) {
        var k :| 0 <= k < |rest| && rest[k].tid == t && base <= rest[k].address < base + size;
        assert threads[k + 1] == rest[k];
      }
      forall k | 0 < k < |threads|
        ensures threads[k] == rest[k - 1]
      {
      }
    }
  }

  lemma {:induction false} ItemThreads(w: World, o: Options, pid: nat, rs: seq<Region>, cache: map<string, nat>, i: nat)
    requires i < |CachedScan(w, o, pid, rs, cache)|
    ensures 0 <= CachedScan(w, o, pid, rs, cache)[i].base < ADDRESS_SPACE
    ensures 0 <= CachedScan(w, o, pid, rs, cache)[i].size < ADDRESS_SPACE
    ensures var a := CachedScan(w, o, pid, rs, cache)[i];
            a.threadIds == [] || a.threadIds == ThreadsInRegion(w.threads, a.base, a.size)
    decreases rs
  {
    hide Emitted, LooksUp, CachedOverlay, UpdatedCache, ThreadsInRegion;
    var r := rs[0];
    var mapped := w.mappedPath(r.base);
    var overlay := if LooksUp(w, o, r) then CachedOverlay(w.files, cache, mapped) else 0;
    var cache' := if LooksUp(w, o, r) then UpdatedCache(w.files, cache, mapped) else cache;
    EmittedDescribes(w, o, pid, r, overlay);
    var n := |Emitted(w, o, pid, r, overlay)|;
    if i >= n {
      ItemThreads(w, o, pid, rs[1..], cache', i - n);
    }
  }

  ghost predicate DistinctTids(threads: seq<ThreadStart>) {
    forall i, j | 0 <= i < j < |threads| :: threads[i].tid != threads[j].tid
  }

  /** A thread has one start, and regions are disjoint: it is listed in at most one finding. */
  lemma ThreadListedOnce(w: World, o: Options, pid: nat, i: nat, j: nat, t: U32)
    requires StartsAtCursor(w, 0) && DistinctTids(w.threads)
    requires i < j < |Output(w, o, pid)|
    ensures !(t in Output(w, o, pid)[i].threadIds && t in Output(w, o, pid)[j].threadIds)
  {
    hide CachedScan, Visited, ThreadsInRegion, Output;
    var a, b := Output(w, o, pid)[i], Output(w, o, pid)[j];
    OutputOrdered(w, o, pid);
    OutputThreads(w, o, pid, i);
    OutputThreads(w, o, pid, j);
    if t in a.threadIds {
      ThreadStartsIn(w, a, t);
    }
    if t in b.threadIds {
      ThreadStartsIn(w, b, t);
    }
  }

  lemma OutputThreads(w: World, o: Options, pid: nat, i: nat)
    requires i < |Output(w, o, pid)|
    ensures 0 <= Output(w, o, pid)[i].base < ADDRESS_SPACE && 0 <= Output(w, o, pid)[i].size < ADDRESS_SPACE
    ensures var a := Output(w, o, pid)[i];
            a.threadIds == [] || a.threadIds == ThreadsInRegion(w.threads, a.base, a.size)
  {
    ItemThreads(w, o, pid, Visited(w, 0), map[], i);
  }

  lemma ThreadStartsIn(w: World, a: Anomaly, t: U32)
    requires a.base < ADDRESS_SPACE && a.size < ADDRESS_SPACE
    requires t in a.threadIds && a.threadIds == ThreadsInRegion(w.threads, a.base, a.size)
    ensures exists k ::
              && 0 <= k < |w.threads| && w.threads[k].tid == t
              && a.base <= w.threads[k].address < a.base + a.size
  {
    hide ThreadsInRegion;
    ThreadsIff(w.threads, a.base, a.size, t);
  }
}
