/** Snapshot reading and diffing of main.cpp. */
module Snapshot {
  import opened Text
  import opened Json
  import opened JsonDoc
  import opened JsonObject
  import opened JsonArrays
  import opened DocScan
  import opened OrderedSet
  import opened Anomalies
  import opened FieldNames
  import opened ObjectReads
  import opened ShownFields
  import Report

  /** `std::string::find`: the first match at or after `from`. */
  method Find(text: string, pat: string, from: nat) returns (at: Option<nat>)
    requires from <= |text|
    ensures at.Some? ==> from <= at.value <= |text| && pat <= text[at.value..]
    ensures at.Some? ==> forall j | from <= j < at.value :: !(pat <= text[j..])
    ensures at.None? ==> forall j | from <= j <= |text| :: !(pat <= text[j..])
  {
    var i := from;
    while i <= |text|
      invariant from <= i <= |text| + 1
      invariant forall j | from <= j < i :: !(pat <= text[j..])
    {
      if i + |pat| <= |text| && text[i..i + |pat|] == pat {
        assert text[i..][..|pat|] == pat;
        return Some(i);
      }
      NoMatch(text, pat, i);
      i := i + 1;
    }
    return None;
  }

  lemma NoMatch(text: string, pat: string, i: nat)
    requires i <= |text|
    requires !(i + |pat| <= |text| && text[i..i + |pat|] == pat)
    ensures !(pat <= text[i..])
  {
    if i + |pat| <= |text| {
      assert text[i..][..|pat|] == text[i..i + |pat|];
    }
  }

  lemma {:induction false} CollectJump(text: string, key: string, from: nat, at: nat)
    requires from <= at <= |text|
    requires forall j | from <= j < at :: !(Pattern(key) <= text[j..])
    ensures Collect(text[from..], key) == Collect(text[at..], key)
    decreases at - from
  {
    if from < at {
      CollectJump(text, key, from + 1, at);
      assert text[from..] == [text[from]] + text[from + 1..];
      CollectSkip(text[from], text[from + 1..], key);
    }
  }

  lemma CollectHere(text: string, key: string, at: nat)
    requires at <= |text| && Pattern(key) <= text[at..]
    ensures at + |Pattern(key)| <= |text|
    ensures Collect(text[at..], key) ==
            NonEmpty(FindString(text[at..], key)) + Collect(text[at + |Pattern(key)|..], key)
  {
    assert text[at..][|Pattern(key)|..] == text[at + |Pattern(key)|..];
  }

  lemma PatternLength()
    ensures |Pattern(KEY)| == 13
  {
  }

  /** The fingerprints of a report file; an unreadable file has none. */
  method FingerprintsFromReport(file: Option<string>) returns (out: seq<string>)
    ensures Sorted(out)
    ensures Elements(out) == if file.None? then {} else Collect(file.value, KEY)
  {
    hide Collect, Pattern, FindString;
    out := [];
    if file.None? {
      return;
    }
    var text := file.value;
    var pos := 0;
    ghost var all := Collect(text, KEY);
    assert text[0..] == text;
    while pos < |text|
      invariant pos <= |text|
      invariant Sorted(out)
      invariant all == Elements(out) + Collect(text[pos..], KEY)
    {
      var key := Find(text, Pattern(KEY), pos);
      if key.None? {
        CollectJump(text, KEY, pos, |text|);
        break;
      }
      CollectJump(text, KEY, pos, key.value);
      CollectHere(text, KEY, key.value);
      PatternLength();
      var fp := JsonFindString(text[key.value..], KEY);
      if fp.Some? && fp.value != "" {
        out := Insert(out, fp.value);
      }
      pos := key.value + 13;
    }
    assert text[|text|..] == "";
    CollectNothing(KEY);
  }

  /** The non-empty fingerprints of a list of findings, as they read back. */
  function FingerprintSet(v: seq<Anomaly>): set<string> {
    set i | 0 <= i < |v| && v[i].fingerprint != "" :: Norm(v[i].fingerprint)
  }

  /** Saving a snapshot and reading it back gives the sorted set of the non-empty fingerprints,
      exactly when the file is within the read limit or there is nothing to find. */
  method SnapshotRoundTrip(v: seq<Anomaly>) returns (out: seq<string>)
    ensures Sorted(out)
    ensures Elements(out) == FingerprintSet(v) <==>
            |Report.ReportText(v)| <= READ_LIMIT || (forall i | 0 <= i < |v| :: v[i].fingerprint == "")
    ensures |Report.ReportText(v)| > READ_LIMIT ==> out == []
  {
    hide Report.ReportText, Collect, Norm;
    var text := Report.RenderJson(v);
    out := FingerprintsFromReport(ReadTextFile(text));
    Report.ReportReadsBack(v);
    NothingToFind(v);
    EmptyElements(out);
  }

  lemma SetReadsBack(v: seq<Anomaly>)
    requires |Report.ReportText(v)| <= READ_LIMIT
    ensures FileFingerprints(ReadTextFile(Report.ReportText(v))) == FingerprintSet(v)
  {
    hide Report.ReportText, Collect, Norm;
    Report.ReportReadsBack(v);
  }

  lemma NothingToFind(v: seq<Anomaly>)
    ensures FingerprintSet(v) == {} <==> forall i | 0 <= i < |v| :: v[i].fingerprint == ""
  {
    hide Norm;
    forall i | 0 <= i < |v| && v[i].fingerprint != ""
      ensures Norm(v[i].fingerprint) in FingerprintSet(v)
    {
    }
  }

  /** The limit is reached: every finding adds to the text, so more findings than it allows bytes
      are lost, whatever they hold. */
  lemma LargeReportIsLost(v: seq<Anomaly>)
    requires |v| > READ_LIMIT
    ensures ReadTextFile(Report.ReportText(v)) == None
  {
    hide Report.ItemsDoc, FieldsDoc, Render, Raw, FieldsText;
    var items := Report.ItemsDoc(v, 0, Report.CLOSE_DOC);
    Report.ItemsAreLong(v, 0, Report.CLOSE_DOC);
    var head := ListDoc("items", items);
    ListIsLong("items", items);
    RenderFields(Report.TOP_FIELDS, 0, TOP, true, head);
    RenderRaw("{\n", FieldsDoc(Report.TOP_FIELDS, 0, TOP, true, head));
  }

  lemma ListIsLong(name: string, d: Doc)
    ensures |Render(ListDoc(name, d))| >= |Render(d)|
  {
    hide Render, Raw, JsonString;
    RenderRaw("[\n", d);
    RenderRaw(": ", Raw("[\n", d));
    RenderLit(name, Raw(": ", Raw("[\n", d)));
    RenderRaw("  ", Lit(name, Raw(": ", Raw("[\n", d))));
  }

  // ----- diff

  function DiffFields(old_: nat, new_: nat, added: seq<string>, removed: seq<string>): seq<Field> {
    [Field("version", Bare("1")),
     Field("old_count", Bare(Decimal(old_))),
     Field("new_count", Bare(Decimal(new_))),
     Field("added_count", Bare(Decimal(|added|))),
     Field("removed_count", Bare(Decimal(|removed|))),
     Field("added", Strings(added)),
     Field("removed", Strings(removed))]
  }

  function DiffDoc(old_: nat, new_: nat, added: seq<string>, removed: seq<string>): Doc {
    Raw("{\n", FieldsDoc(DiffFields(old_, new_, added, removed), 0, TOP, false, Raw("}\n", End(""))))
  }

  /** Prints the difference of two snapshots; the last result is the exit code. */
  method RenderSnapshotDiff(oldItems: seq<string>, newItems: seq<string>)
    returns (added: seq<string>, removed: seq<string>, text: string, code: int)
    requires Sorted(oldItems) && Sorted(newItems)
    ensures Sorted(added) && Elements(added) == Elements(newItems) - Elements(oldItems)
    ensures Sorted(removed) && Elements(removed) == Elements(oldItems) - Elements(newItems)
    ensures (Elements(oldItems) - Elements(removed)) + Elements(added) == Elements(newItems)
    ensures Elements(added) !! Elements(removed)
    ensures |oldItems| + |added| == |newItems| + |removed|
    ensures code == 0 || code == 1
    ensures code == 0 <==> oldItems == newItems
    ensures text == Render(DiffDoc(|oldItems|, |newItems|, added, removed))
  {
    hide Render, FieldsDoc, Raw;
    added := SetDifference(newItems, oldItems);
    removed := SetDifference(oldItems, newItems);
    DiffCounts(oldItems, newItems, added, removed);
    var fs := DiffFields(|oldItems|, |newItems|, added, removed);
    ghost var end := Raw("}\n", End(""));
    PutRaw("", "{\n", FieldsDoc(fs, 0, TOP, false, end));
    text := "" + "{\n";
    text := PutGroup(text, fs, TOP, false, end);
    RenderRaw("}\n", End(""));
    EndIsEmpty();
    assert "}\n" + "" == "}\n";
    text := text + "}\n";
    code := if added != [] || removed != [] then 1 else 0;
    DiffCode(oldItems, newItems, added, removed);
  }

  function FileFingerprints(file: Option<string>): set<string> {
    if file.None? then {} else Collect(file.value, KEY)
  }

  /** `snapshot diff`: exit code 0 exactly when both files hold the same fingerprints. */
  method CmdSnapshotDiff(oldFile: Option<string>, newFile: Option<string>) returns (text: string, code: int)
    ensures code == 0 || code == 1
    ensures code == 0 <==> FileFingerprints(oldFile) == FileFingerprints(newFile)
    ensures exists m, n, added, removed ::
              && text == Render(DiffDoc(m, n, added, removed))
              && m == |FileFingerprints(oldFile)| && n == |FileFingerprints(newFile)|
              && Elements(added) == FileFingerprints(newFile) - FileFingerprints(oldFile)
              && Elements(removed) == FileFingerprints(oldFile) - FileFingerprints(newFile)
  {
    hide Collect, Render, DiffDoc, Less;
    var oldItems := FingerprintsFromReport(oldFile);
    var newItems := FingerprintsFromReport(newFile);
    var added, removed;
    added, removed, text, code := RenderSnapshotDiff(oldItems, newItems);
    SortedCount(oldItems);
    SortedCount(newItems);
    if Elements(oldItems) == Elements(newItems) {
      SortedUnique(oldItems, newItems);
    }
  }

  lemma EndIsEmpty()
    ensures Render(End("")) == ""
  {
  }

  lemma DiffCounts(a: seq<string>, b: seq<string>, added: seq<string>, removed: seq<string>)
    requires Sorted(a) && Sorted(b) && Sorted(added) && Sorted(removed)
    requires Elements(added) == Elements(b) - Elements(a) && Elements(removed) == Elements(a) - Elements(b)
    ensures |a| + |added| == |b| + |removed|
  {
    SortedCount(a);
    SortedCount(b);
    SortedCount(added);
    SortedCount(removed);
    var both := Elements(a) * Elements(b);
    assert Elements(a) == both + Elements(removed) && both !! Elements(removed);
    assert Elements(b) == both + Elements(added) && both !! Elements(added);
  }

  lemma EmptyElements(xs: seq<string>)
    ensures Elements(xs) == {} <==> xs == []
  {
    if xs != [] {
      assert xs[0] in Elements(xs);
    }
  }

  lemma DiffCode(a: seq<string>, b: seq<string>, added: seq<string>, removed: seq<string>)
    requires Sorted(a) && Sorted(b)
    requires Elements(added) == Elements(b) - Elements(a) && Elements(removed) == Elements(a) - Elements(b)
    ensures added == [] && removed == [] <==> a == b
  {
    EmptyElements(added);
    EmptyElements(removed);
    if Elements(added) == {} && Elements(removed) == {} {
      assert Elements(a) == Elements(b);
      SortedUnique(a, b);
    }
  }

  lemma DiffNames()
    ensures IsKey("version") && IsKey("old_count") && IsKey("new_count") && IsKey("added_count")
    ensures IsKey("removed_count") && IsKey("added") && IsKey("removed")
  {
    WordIsKey("version");
    WordIsKey("old_count");
    WordIsKey("new_count");
    WordIsKey("added_count");
    WordIsKey("removed_count");
    WordIsKey("added");
    WordIsKey("removed");
  }

  lemma DiffFieldsOk(m: nat, n: nat, added: seq<string>, removed: seq<string>)
    ensures AreFields(DiffFields(m, n, added, removed))
  {
    hide NameLiteral;
    DiffNames();
  }

  lemma DiffReadable(m: nat, n: nat, added: seq<string>, removed: seq<string>)
    ensures ReadableFields(DiffFields(m, n, added, removed)) && RanksIn(DiffFields(m, n, added, removed), 0, 36)
  {
    hide IsKey, NameRank, IsField, Decimal;
    DiffFieldsOk(m, n, added, removed);
    DiffNames();
    DecimalStarts(m);
    DecimalStarts(n);
    DecimalStarts(|added|);
    DecimalStarts(|removed|);
    RankOfVersion();
    RankOfOldCount();
    RankOfNewCount();
    RankOfAddedCount();
    RankOfRemovedCount();
    RankOfAdded();
    RankOfRemoved();
  }

  lemma DiffTextIs(m: nat, n: nat, added: seq<string>, removed: seq<string>)
    ensures Render(DiffDoc(m, n, added, removed)) ==
            ObjectText("{\n", [DiffFields(m, n, added, removed)], TOP, "}\n")
  {
    hide Render, FieldsDoc, FieldsText, Raw, DiffFields;
    var fs, end := DiffFields(m, n, added, removed), Raw("}\n", End(""));
    RenderFields(fs, 0, TOP, false, end);
    RenderRaw("{\n", FieldsDoc(fs, 0, TOP, false, end));
    RenderRaw("}\n", End(""));
    EndIsEmpty();
    assert "}\n" + "" == "}\n";
    OneGroup(fs);
  }

  lemma OneGroup(fs: seq<Field>)
    ensures GroupsText([fs], 0, TOP) == FieldsText(fs, 0, TOP, false)
  {
    hide FieldsText;
    assert GroupsText([fs], 1, TOP) == "";
    assert FieldsText(fs, 0, TOP, false) + "" == FieldsText(fs, 0, TOP, false);
  }

  lemma DiffCloses()
    ensures ClosesObject("}\n", TOP) && PlainGap("{\n")
  {
    assert SkipWs("}\n") == "}\n";
  }

  lemma DiffRead(m: nat, n: nat, added: seq<string>, removed: seq<string>)
    ensures AllRead(Render(DiffDoc(m, n, added, removed)), DiffFields(m, n, added, removed))
  {
    hide Render, DiffDoc, DiffFields, Reads, ObjectText, RanksIn, AreFields, AreKeys, BaresOk;
    var groups: seq<seq<Field>> := [DiffFields(m, n, added, removed)];
    DiffReadable(m, n, added, removed);
    DiffTextIs(m, n, added, removed);
    DiffCloses();
    assert ReadableGroups(groups, [0, 36]);
    GroupsRead("{\n", groups, [0, 36], TOP, "}\n");
    assert AllRead(ObjectText("{\n", groups, TOP, "}\n"), groups[0]);
  }

  /** The printed difference shows each count and each list under its own name. */
  lemma DiffShows(m: nat, n: nat, added: seq<string>, removed: seq<string>)
    ensures var t := Render(DiffDoc(m, n, added, removed));
            && Reads(t, "version", Bare("1"))
            && Reads(t, "old_count", Bare(Decimal(m))) && Reads(t, "new_count", Bare(Decimal(n)))
            && Reads(t, "added_count", Bare(Decimal(|added|))) && Reads(t, "removed_count", Bare(Decimal(|removed|)))
            && Reads(t, "added", Strings(added)) && Reads(t, "removed", Strings(removed))
  {
    hide Render, DiffDoc, Reads, Decimal;
    DiffRead(m, n, added, removed);
    var t, fs := Render(DiffDoc(m, n, added, removed)), DiffFields(m, n, added, removed);
    assert Reads(t, fs[0].name, fs[0].value) && Reads(t, fs[1].name, fs[1].value) && Reads(t, fs[2].name, fs[2].value);
    assert Reads(t, fs[3].name, fs[3].value) && Reads(t, fs[4].name, fs[4].value);
    assert Reads(t, fs[5].name, fs[5].value) && Reads(t, fs[6].name, fs[6].value);
  }

  /** The tool's own reader gets both lists back from the printed difference. */
  lemma DiffReadsBack(m: nat, n: nat, added: seq<string>, removed: seq<string>)
    ensures FindStringArray(Render(DiffDoc(m, n, added, removed)), "added") == NormAll(added)
    ensures FindStringArray(Render(DiffDoc(m, n, added, removed)), "removed") == NormAll(removed)
  {
    hide Render, DiffDoc, FindStringArray, FindKeyValue, NormAll, Decimal;
    DiffShows(m, n, added, removed);
  }
}
