/** The evidence of a whole scan: which of its findings end up with a record. */
module ScanEvidence {
  import opened Text
  import opened PeFormat
  import opened Memory
  import opened Anomalies
  import opened TextLines
  import opened EvidenceText
  import opened Evidence
  import opened Classify
  import opened ReasonLists
  import opened Signals
  import opened Scan
  import opened Walk
  import opened Documented

  // ----- records and the findings they are of

  ghost predicate IsRecordOf(record: string, a: Anomaly) {
    exists size: nat, sha, at :: record == Record(a, size, sha, at)
  }

  /** A record tells the base of its finding. */
  lemma RecordsTellBase(record: string, a: Anomaly, b: Anomaly)
    requires IsRecordOf(record, a) && IsRecordOf(record, b)
    ensures a.base == b.base
  {
    hide Record, HexDigits;
    var m: nat, sha, at :| record == Record(a, m, sha, at);
    var n: nat, sha', at' :| record == Record(b, n, sha', at');
    RecordTellsBase(a, m, sha, at);
    RecordTellsBase(b, n, sha', at');
    assert HexDigits(a.base) == ToHex64(a.base)[2..] && HexDigits(b.base) == ToHex64(b.base)[2..];
    HexRoundTrip(a.base);
    HexRoundTrip(b.base);
  }

  lemma {:induction false} AppendedFrom(cs: seq<Call>, j: nat)
    requires j < |Appended(cs)|
    ensures exists i :: 0 <= i < |cs| && Appends(cs[i].o, cs[i].c) && Appended(cs)[j] == RecordOf(cs[i].o, cs[i].c)
  {
    hide RecordOf, Appends;
    var n := |cs| - 1;
    if j < |Appended(cs[..n])| {
      AppendedFrom(cs[..n], j);
      var i :| 0 <= i < n && Appends(cs[..n][i].o, cs[..n][i].c)
          && Appended(cs[..n])[j] == RecordOf(cs[..n][i].o, cs[..n][i].c);
      assert cs[..n][i] == cs[i];
    } else {
      assert Appended(cs)[j] == RecordOf(cs[n].o, cs[n].c);
    }
  }

  lemma {:induction false} AppendedHas(cs: seq<Call>, i: nat)
    requires i < |cs| && Appends(cs[i].o, cs[i].c)
    ensures exists j :: 0 <= j < |Appended(cs)| && Appended(cs)[j] == RecordOf(cs[i].o, cs[i].c)
  {
    hide RecordOf, Appends;
    var n := |cs| - 1;
    var before := Appended(cs[..n]);
    if i < n {
      assert cs[..n][i] == cs[i];
      AppendedHas(cs[..n], i);
      var j :| 0 <= j < |before| && before[j] == RecordOf(cs[i].o, cs[i].c);
      assert Appended(cs)[j] == before[j];
    } else {
      assert Appended(cs)[|before|] == RecordOf(cs[i].o, cs[i].c);
    }
  }

  ghost predicate HasRecord(records: seq<string>, a: Anomaly) {
    exists j :: 0 <= j < |records| && IsRecordOf(records[j], a)
  }

  ghost predicate DistinctBases(items: seq<Anomaly>) {
    forall i, j | 0 <= i < j < |items| :: items[i].base != items[j].base
  }

  /** The writer was called for this finding, and its call got as far as appending the record. */
  predicate Recorded(cs: seq<Call>, k: nat) { k < |cs| && Appends(cs[k].o, cs[k].c) }

  lemma RecordOfCall(o: Evidence.Options, c: Capture)
    ensures IsRecordOf(RecordOf(o, c), c.a)
  {
  }

  lemma HasRecordIff(w: World, e: Evidence.Options, luck: nat -> Outcome, items: seq<Anomaly>, k: nat)
    requires DistinctBases(items) && k < |items|
    ensures var cs := CallsOf(w, e, luck, FirstFew(items));
            HasRecord(Appended(cs), items[k]) <==> Recorded(cs, k)
  {
    hide Record, RecordOf, Appends, IsRecordOf, Appended;
    var cs := CallsOf(w, e, luck, FirstFew(items));
    CallsFor(w, e, luck, items);
    if Recorded(cs, k) {
      AppendedHas(cs, k);
      RecordOfCall(cs[k].o, cs[k].c);
    }
    if HasRecord(Appended(cs), items[k]) {
      var j :| 0 <= j < |Appended(cs)| && IsRecordOf(Appended(cs)[j], items[k]);
      AppendedFrom(cs, j);
      var i :| 0 <= i < |cs| && Appends(cs[i].o, cs[i].c) && Appended(cs)[j] == RecordOf(cs[i].o, cs[i].c);
      RecordOfCall(cs[i].o, cs[i].c);
      RecordsTellBase(Appended(cs)[j], items[k], items[i]);
      assert i == k;
    }
  }

  lemma CallsFor(w: World, e: Evidence.Options, luck: nat -> Outcome, items: seq<Anomaly>)
    ensures var cs := CallsOf(w, e, luck, FirstFew(items));
            && |cs| == (if |items| <= EVIDENCE_LIMIT then |items| else EVIDENCE_LIMIT)
            && forall i | 0 <= i < |cs| :: cs[i].c.a == items[i] && cs[i].o == e
  {
    var few, cs := FirstFew(items), CallsOf(w, e, luck, FirstFew(items));
    forall i | 0 <= i < |cs|
      ensures cs[i].c.a == items[i] && cs[i].o == e
    {
      assert cs[i] == Call(e, CaptureOf(w, few[i], luck(i)));
      assert few[i] == items[i];
    }
  }

  /** Every one of these findings has a record among the lines after the first `n`. */
  ghost predicate AllHaveRecords(lines: seq<string>, n: nat, items: seq<Anomaly>)
    requires n <= |lines|
  {
    forall k | 0 <= k < |items| :: HasRecord(lines[n..], items[k])
  }

  predicate AllAppend(cs: seq<Call>) { forall i | 0 <= i < |cs| :: Appends(cs[i].o, cs[i].c) }

  lemma ManifestOf(w: World, e: Evidence.Options, luck: nat -> Outcome, s: Store, rs: seq<string>, n: nat,
                   items: seq<Anomaly>)
    requires e.directory != "" && Consistent(s, rs, n)
    ensures Lines(Written(w, e, luck, s, items).manifest) == rs + Appended(CallsOf(w, e, luck, FirstFew(items)))
  {
    hide CallsOf, Consistent, Run, Appended, Lines, FirstFew, IndexCaptures, Indexed;
    EvidenceLog(s, rs, n, CallsOf(w, e, luck, FirstFew(items)));
  }

  lemma EvidenceOfItemsIff(w: World, e: Evidence.Options, luck: nat -> Outcome, s: Store, rs: seq<string>, n: nat,
                           items: seq<Anomaly>)
    requires e.directory != "" && Consistent(s, rs, n) && DistinctBases(items)
    ensures var cs, lines := CallsOf(w, e, luck, FirstFew(items)), Lines(Written(w, e, luck, s, items).manifest);
            && rs <= lines
            && (AllHaveRecords(lines, |rs|, items) <==> |items| <= EVIDENCE_LIMIT && AllAppend(cs))
  {
    hide CallsOf, Consistent, Appended, Lines, HasRecord, FirstFew, Written, AllAppend, Recorded;
    var cs := CallsOf(w, e, luck, FirstFew(items));
    ManifestOf(w, e, luck, s, rs, n, items);
    CallsFor(w, e, luck, items);
    var lines := Lines(Written(w, e, luck, s, items).manifest);
    assert lines[|rs|..] == Appended(cs);
    forall k | 0 <= k < |items|
      ensures HasRecord(lines[|rs|..], items[k]) <==> Recorded(cs, k)
    {
      HasRecordIff(w, e, luck, items, k);
    }
    AllRecordedIff(lines[|rs|..], items, cs);
  }

  /** "A small evidence package for each finding": every finding of the scan has a new line in the
      manifest exactly when there are at most sixteen and every call got as far as appending. */
  lemma EvidenceForEachIff(w: World, o: Memory.Options, pid: nat, e: Evidence.Options, luck: nat -> Outcome, s: Store,
                           rs: seq<string>, n: nat)
    requires StartsAtCursor(w, 0) && e.directory != "" && Consistent(s, rs, n)
    ensures var out := Output(w, o, pid);
            var cs, lines := CallsOf(w, e, luck, FirstFew(out)), Lines(Written(w, e, luck, s, out).manifest);
            && rs <= lines
            && (AllHaveRecords(lines, |rs|, out) <==> |out| <= EVIDENCE_LIMIT && AllAppend(cs))
  {
    hide Output, CallsOf, Consistent, Lines, AllHaveRecords, AllAppend, FirstFew, Written;
    OutputOrdered(w, o, pid);
    EvidenceOfItemsIff(w, e, luck, s, rs, n, Output(w, o, pid));
  }

  lemma AllRecordedIff(records: seq<string>, items: seq<Anomaly>, cs: seq<Call>)
    requires |cs| == (if |items| <= EVIDENCE_LIMIT then |items| else EVIDENCE_LIMIT)
    requires forall k | 0 <= k < |items| :: HasRecord(records, items[k]) <==> Recorded(cs, k)
    ensures (forall k | 0 <= k < |items| :: HasRecord(records, items[k])) <==>
            |items| <= EVIDENCE_LIMIT && AllAppend(cs)
  {
    hide Appends, HasRecord;
    if |items| <= EVIDENCE_LIMIT {
      forall k | 0 <= k < |items|
        ensures HasRecord(records, items[k]) <==> Appends(cs[k].o, cs[k].c)
      {
      }
    } else {
      assert !HasRecord(records, items[EVIDENCE_LIMIT]);
    }
  }

  /** A capture that wrote its dump stored the bytes that the region reads as, up to the limit. */
  lemma CaptureStores(w: World, a: Anomaly, sys: Outcome, e: Evidence.Options, s: Store)
    requires a.base < ADDRESS_SPACE && Dumps(e, CaptureOf(w, a, sys))
    ensures var t, n := Step(e, s, CaptureOf(w, a, sys)).0, if a.size < e.maxDumpBytes then a.size else e.maxDumpBytes;
            && DumpName(a) in t.dumps && t.dumps[DumpName(a)] == BytesText(ReadRemote(w, a.base, n))
            && |t.dumps[DumpName(a)]| <= e.maxDumpBytes && |t.dumps[DumpName(a)]| <= a.size
  {
    hide MetaText, IndexText, RecordOf, Lines, DumpName, MetaName, Step, ReadRemote;
    var c := CaptureOf(w, a, sys);
    StepExact(e, s, c);
    DumpExact(e, c);
  }

  // ----- findings without evidence

  /** Pages that are private, writable and executable, one after the other. */
  function CodePages(n: nat, protect: U32): (rs: seq<Region>)
    requires n <= 0x10000
    ensures |rs| == n && ArePages(rs)
  {
    seq(n, i requires 0 <= i < n => Region(0x1000 * i, 0x1000 * i, 0x1000, MEM_COMMIT, protect, MEM_PRIVATE))
  }

  function CodeWorld(n: nat, protect: U32): World
    requires n <= 0x10000
  {
    SmallWorld(CodePages(n, protect), [], [], 0.0)
  }

  lemma WriteExecIsReported(w: World, pid: nat, r: Region, overlay: nat)
    requires HasWriteExec(r.protect)
    ensures Reports(w, pid, r, overlay, WRITE_EXEC)
  {
    hide *;
    Lengths();
    ReportsReason(w, pid, r, overlay, WRITE_EXEC);
    InBaseOf(w, r, LayoutOf(w, r.allocationBase), w.mappedPath(r.base), overlay, WRITE_EXEC);
  }

  lemma {:induction false} AllReported(w: World, rs: seq<Region>, cache: map<string, nat>)
    requires forall i | 0 <= i < |rs| :: rs[i].state == MEM_COMMIT && HasWriteExec(rs[i].protect)
    ensures |CachedScan(w, NO_OPTIONS, 1, rs, cache)| == |rs|
    decreases rs
  {
    hide Emitted, Finding, LooksUp, CachedOverlay, UpdatedCache, HasWriteExec;
    if rs != [] {
      var r, mapped := rs[0], w.mappedPath(rs[0].base);
      var looked := LooksUp(w, NO_OPTIONS, r);
      var overlay := if looked then CachedOverlay(w.files, cache, mapped) else 0;
      WriteExecIsReported(w, 1, r, overlay);
      NothingSuppressed(w, 1, r, overlay);
      AllReported(w, rs[1..], if looked then UpdatedCache(w.files, cache, mapped) else cache);
    }
  }

  lemma CodeOutput(n: nat, protect: U32)
    requires n <= 0x10000 && HasWriteExec(protect)
    ensures Visited(CodeWorld(n, protect), 0) == CodePages(n, protect)
    ensures |Output(CodeWorld(n, protect), NO_OPTIONS, 1)| == n
  {
    hide Visited, CachedScan, SmallWorld, HasWriteExec;
    SmallVisited(CodePages(n, protect), [], [], 0.0);
    AllReported(CodeWorld(n, protect), CodePages(n, protect), map[]);
  }

  /** A process with seventeen findings: sixteen calls of the writer. */
  lemma SeventeenthIsNotCaptured(e: Evidence.Options, luck: nat -> Outcome)
    ensures var w := CodeWorld(17, 0x40);
            |Output(w, NO_OPTIONS, 1)| == 17 && |CallsOf(w, e, luck, FirstFew(Output(w, NO_OPTIONS, 1)))| == 16
  {
    hide CodeWorld, Output, CallsOf;
    CodeOutput(17, 0x40);
    CallsFor(CodeWorld(17, 0x40), e, luck, Output(CodeWorld(17, 0x40), NO_OPTIONS, 1));
  }

  /** A guarded page is reported for its protection alone; it cannot be read, so no file is written,
      whatever else succeeds. */
  lemma GuardedPageHasNoEvidence(e: Evidence.Options, luck: nat -> Outcome, s: Store)
    ensures var w := CodeWorld(1, 0x140);
            |Output(w, NO_OPTIONS, 1)| == 1 && Written(w, e, luck, s, Output(w, NO_OPTIONS, 1)) == s
  {
    hide Output, Visited, CachedScan, MetaText, RecordOf, IndexText;
    var w := CodeWorld(1, 0x140);
    CodeOutput(1, 0x140);
    NothingRead(w, e, luck, Output(w, NO_OPTIONS, 1), s);
  }

  lemma NothingRead(w: World, e: Evidence.Options, luck: nat -> Outcome, out: seq<Anomaly>, s: Store)
    requires |out| == 1 && forall b, n :: w.memory(b, n) == []
    ensures Written(w, e, luck, s, out) == s
  {
    hide Step, CaptureOf;
    var c := CaptureOf(w, out[0], luck(0));
    WrittenNothing(w, e, luck, s);
    WrittenNext(w, e, luck, s, [], out[0]);
    assert [] + [out[0]] == out;
    EmptyCapture(w, out[0], luck(0), e, s);
  }

  lemma EmptyCapture(w: World, a: Anomaly, sys: Outcome, e: Evidence.Options, s: Store)
    requires forall b, n :: w.memory(b, n) == []
    ensures Step(e, s, CaptureOf(w, a, sys)).0 == s
  {
    hide MetaText, Record, IndexText, Lines;
  }

  /** With a dump size of zero nothing is written for any finding, and every call succeeds. */
  lemma {:induction false} NoDumpSizeNoEvidence(w: World, e: Evidence.Options, luck: nat -> Outcome,
                                                out: seq<Anomaly>, s: Store)
    requires e.maxDumpBytes == 0
    ensures Written(w, e, luck, s, out) == s
  {
    hide CaptureOf, Written, FirstFew;
    if out == [] {
      WrittenNothing(w, e, luck, s);
    } else {
      var before := out[..|out| - 1];
      NoDumpSizeNoEvidence(w, e, luck, before, s);
      WrittenNext(w, e, luck, s, before, out[|out| - 1]);
      assert out == before + [out[|out| - 1]];
      assert Step(e, s, CaptureOf(w, out[|out| - 1], luck(|before|))) == (s, true);
    }
  }
}
