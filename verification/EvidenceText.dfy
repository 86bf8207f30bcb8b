/** The texts of evidence.cpp: manifest records, metadata files and the index. */
module EvidenceText {
  import opened Text
  import opened Json
  import opened JsonEscaping
  import opened JsonDoc
  import opened JsonObject
  import opened Anomalies
  import opened TextLines
  import opened FieldNames
  import opened ObjectReads
  import opened ShownFields

  const TOOL_VERSION := "0.7.0"

  /** `pid<decimal>_<hex base>`, the stem of both file names. */
  function Stem(a: Anomaly): string { "pid" + (Decimal(a.pid) + ("_" + HexDigits(a.base))) }

  function DumpName(a: Anomaly): string { Stem(a) + ".bin" }

  function MetaName(a: Anomaly): string { Stem(a) + ".json" }

  /** The digits of the process id and of the base stand in both names. */
  lemma NamesExact(a: Anomaly)
    ensures exists p, b ::
              && AllDigits(p) && DecimalValue(p) == a.pid && AllHex(b) && HexValueOf(b) == a.base
              && DumpName(a) == "pid" + (p + ("_" + b)) + ".bin" && MetaName(a) == "pid" + (p + ("_" + b)) + ".json"
  {
    hide Decimal, HexDigits, DecimalValue, HexValueOf;
    DecimalRoundTrip(a.pid);
    HexRoundTrip(a.base);
  }

  /** Captures share files only when process id and base are the same. */
  lemma NamesIdentify(a: Anomaly, b: Anomaly)
    ensures DumpName(a) == DumpName(b) <==> a.pid == b.pid && a.base == b.base
    ensures MetaName(a) == MetaName(b) <==> a.pid == b.pid && a.base == b.base
  {
    if DumpName(a) == DumpName(b) {
      SameStem(a, b, ".bin");
    }
    if MetaName(a) == MetaName(b) {
      SameStem(a, b, ".json");
    }
  }

  lemma SameStem(a: Anomaly, b: Anomaly, suffix: string)
    requires Stem(a) + suffix == Stem(b) + suffix
    ensures a.pid == b.pid && a.base == b.base
  {
    hide Decimal, HexDigits;
    assert Stem(a) == (Stem(a) + suffix)[..|Stem(a)|];
    assert Stem(b) == (Stem(b) + suffix)[..|Stem(b)|];
    assert |Stem(a)| == |Stem(b)|;
    var x, y := Decimal(a.pid) + ("_" + HexDigits(a.base)), Decimal(b.pid) + ("_" + HexDigits(b.base));
    assert x == Stem(a)[3..] && y == Stem(b)[3..];
    DigitsSplit(Decimal(a.pid), Decimal(b.pid), HexDigits(a.base), HexDigits(b.base));
    DecimalRoundTrip(a.pid);
    DecimalRoundTrip(b.pid);
    HexRoundTrip(a.base);
    HexRoundTrip(b.base);
  }

  lemma {:induction false} DigitsSplit(a: string, b: string, x: string, y: string)
    requires AllDigits(a) && AllDigits(b)
    requires a + ("_" + x) == b + ("_" + y)
    ensures a == b && x == y
  {
    var s, t := a + ("_" + x), b + ("_" + y);
    if a == "" || b == "" {
      assert s[0] == t[0];
      assert a == "" <==> b == "";
      assert x == s[1..] && y == t[1..];
    } else {
      assert s[1..] == a[1..] + ("_" + x) && t[1..] == b[1..] + ("_" + y);
      assert s[0] == t[0];
      DigitsSplit(a[1..], b[1..], x, y);
      assert a == [a[0]] + a[1..] && b == [b[0]] + b[1..];
    }
  }

  // ----- one manifest record

  function StampFields(at: string): seq<Field> {
    [Field("version", Bare("1")),
     Field("tool_version", String(TOOL_VERSION)),
     Field("captured_at_utc", String(at))]
  }

  function FileFields(a: Anomaly, size: nat, sha: string): seq<Field> {
    [Field("dump_file", String(DumpName(a))),
     Field("metadata_file", String(MetaName(a))),
     Field("dump_size", Bare(Decimal(size))),
     Field("dump_sha256", String(sha))]
  }

  function RecordGroups(a: Anomaly, size: nat, sha: string, at: string): seq<seq<Field>> {
    [StampFields(at), HeadFields(a), PlaceFields(a), SectionFields(a), ImportFields(a), VerdictFields(a),
     FileFields(a, size, sha)]
  }

  /** The record of a capture: a manifest line without its newline. */
  function Record(a: Anomaly, size: nat, sha: string, at: string): string {
    "{" + (GroupsText(RecordGroups(a, size, sha, at), 0, COMPACT) + "}")
  }

  method RenderManifestLine(a: Anomaly, size: nat, sha: string, at: string) returns (out: string)
    ensures out == Record(a, size, sha, at) + "\n"
  {
    hide GroupsText, RecordGroups;
    out := PutGroups("{", RecordGroups(a, size, sha, at), COMPACT);
    Assoc("{", GroupsText(RecordGroups(a, size, sha, at), 0, COMPACT), "}");
    out := out + "}";
    out := out + "\n";
  }

  predicate Clean(s: string) { forall i | 0 <= i < |s| :: s[i] >= ' ' }

  predicate CleanField(f: Field) {
    match f.value
    case String(_) => true
    case Bare(b) => Clean(b)
    case Strings(_) => true
    case Bares(bs) => forall i | 0 <= i < |bs| :: Clean(bs[i])
  }

  lemma JsonStringClean(s: string)
    ensures Clean(JsonString(s))
  {
    EscapeIsClean(s);
  }

  lemma {:induction false} StringsClean(ss: seq<string>, i: nat, sep: string)
    requires i <= |ss| && Clean(sep)
    ensures Clean(StringsText(ss, i, sep))
    decreases |ss| - i
  {
    hide JsonString;
    if i < |ss| {
      StringsClean(ss, i + 1, sep);
      JsonStringClean(ss[i]);
    }
  }

  lemma {:induction false} BaresClean(bs: seq<string>, i: nat, sep: string)
    requires i <= |bs| && Clean(sep) && forall j | 0 <= j < |bs| :: Clean(bs[j])
    ensures Clean(BaresText(bs, i, sep))
    decreases |bs| - i
  {
    if i < |bs| {
      BaresClean(bs, i + 1, sep);
    }
  }

  lemma FieldClean(f: Field, l: Layout)
    requires CleanField(f) && IsLayout(l)
    ensures Clean(FieldText(f, l))
  {
    hide JsonString;
    JsonStringClean(f.name);
    match f.value {
      case String(s) => JsonStringClean(s);
      case Bare(_) =>
      case Strings(ss) => StringsClean(ss, 0, l.listSep);
      case Bares(bs) => BaresClean(bs, 0, l.listSep);
    }
    var v := ValueText(f.value, l);
    assert Clean(v);
    assert Clean(l.colon + v);
    assert Clean(JsonString(f.name) + (l.colon + v));
  }

  lemma CleanJoin(a: string, b: string)
    requires Clean(a) && Clean(b)
    ensures Clean(a + b)
  {
  }

  lemma SeparatorClean(more: bool)
    ensures Clean(Separator(more, COMPACT))
  {
  }

  lemma NothingClean()
    ensures Clean("")
  {
  }

  lemma {:induction false} CompactClean(fs: seq<Field>, k: nat, more: bool)
    requires k <= |fs| && forall i | 0 <= i < |fs| :: CleanField(fs[i])
    ensures Clean(FieldsText(fs, k, COMPACT, more))
    decreases |fs| - k
  {
    hide FieldText, Clean, CleanField;
    if k < |fs| {
      CompactClean(fs, k + 1, more);
      FieldClean(fs[k], COMPACT);
      var last := Separator(k + 1 < |fs| || more, COMPACT);
      SeparatorClean(k + 1 < |fs| || more);
      CleanJoin(last, FieldsText(fs, k + 1, COMPACT, more));
      CleanJoin(FieldText(fs[k], COMPACT), last + FieldsText(fs, k + 1, COMPACT, more));
    } else {
      NothingClean();
    }
  }

  lemma EntropyClean(v: real)
    ensures Clean(JsonEntropy(v))
  {
  }

  predicate CleanFields(fs: seq<Field>) { forall i | 0 <= i < |fs| :: CleanField(fs[i]) }

  lemma {:induction false} GroupsClean(groups: seq<seq<Field>>, i: nat)
    requires i <= |groups| && forall j | 0 <= j < |groups| :: CleanFields(groups[j])
    ensures Clean(GroupsText(groups, i, COMPACT))
    decreases |groups| - i
  {
    hide Clean, CleanField, FieldsText;
    if i < |groups| {
      GroupsClean(groups, i + 1);
      CompactClean(groups[i], 0, i + 1 < |groups|);
      CleanJoin(FieldsText(groups[i], 0, COMPACT, i + 1 < |groups|), GroupsText(groups, i + 1, COMPACT));
    } else {
      NothingClean();
    }
  }

  lemma RecordFieldsClean(a: Anomaly, size: nat, sha: string, at: string)
    ensures CleanFields(StampFields(at)) && CleanFields(HeadFields(a)) && CleanFields(PlaceFields(a))
    ensures CleanFields(ImportFields(a)) && CleanFields(FileFields(a, size, sha))
  {
  }

  lemma OtherFieldsClean(a: Anomaly)
    ensures CleanFields(SectionFields(a)) && CleanFields(VerdictFields(a))
  {
    hide JsonEntropy;
    EntropyClean(a.regionEntropy);
    EntropyClean(a.sectionEntropy);
  }

  /** A record in the manifest: one line that starts and ends with braces. */
  predicate IsRecord(r: string) { |r| >= 2 && NoNewline(r) && r[0] == '{' && r[|r| - 1] == '}' }

  /** No field of a capture can put a raw newline into its record. */
  lemma RecordIsOneLine(a: Anomaly, size: nat, sha: string, at: string)
    ensures IsRecord(Record(a, size, sha, at))
  {
    hide GroupsText, CleanFields, StampFields, HeadFields, PlaceFields, SectionFields, ImportFields;
    hide VerdictFields, FileFields;
    RecordFieldsClean(a, size, sha, at);
    OtherFieldsClean(a);
    GroupsClean(RecordGroups(a, size, sha, at), 0);
    BracedRecord(GroupsText(RecordGroups(a, size, sha, at), 0, COMPACT));
  }

  lemma BracedRecord(t: string)
    requires Clean(t)
    ensures IsRecord("{" + (t + "}"))
  {
  }

  // ----- reading a record back

  lemma FileNames()
    ensures IsKey("dump_file") && IsKey("metadata_file") && IsKey("dump_size") && IsKey("dump_sha256")
    ensures IsKey("tool_version") && IsKey("captured_at_utc")
  {
    hide IsKey;
    WordIsKey("dump_file");
    WordIsKey("metadata_file");
    WordIsKey("dump_size");
    DigestIsKey();
    WordIsKey("tool_version");
    WordIsKey("captured_at_utc");
  }

  lemma DigestIsKey()
    ensures IsKey("dump_sha256")
  {
    assert 'a' <= "dump_sha256"[0] <= 'z' && NameLiteral("dump_sha256");
  }

  lemma StampFieldsOk(at: string)
    ensures AreFields(StampFields(at))
  {
    hide NameLiteral;
    FileNames();
    HeadNames();
  }

  lemma FileFieldsOk(a: Anomaly, size: nat, sha: string)
    ensures AreFields(FileFields(a, size, sha))
  {
    hide NameLiteral;
    FileNames();
    DigitsPlain(Decimal(size));
  }

  lemma DumpNameIsPlain(a: Anomaly)
    ensures Plain(DumpName(a))
  {
    hide Decimal, HexDigits;
    PlainDigits(Decimal(a.pid));
    PlainDigits(HexDigits(a.base));
  }

  lemma PlainDigits(s: string)
    requires AllHex(s) || AllDigits(s)
    ensures Plain(s)
  {
  }

  lemma StampReadable(at: string)
    ensures ReadableFields(StampFields(at)) && RanksIn(StampFields(at), 0, 3)
  {
    hide IsKey, NameRank, IsField;
    StampFieldsOk(at);
    HeadNames();
    FileNames();
    RankOfVersion();
    RankOfToolVersion();
    RankOfCapturedAtUtc();
  }

  lemma FileReadable(a: Anomaly, size: nat, sha: string)
    ensures ReadableFields(FileFields(a, size, sha)) && RanksIn(FileFields(a, size, sha), 26, 30)
  {
    hide IsKey, NameRank, IsField, Decimal, DumpName, MetaName;
    FileNames();
    FileFieldsOk(a, size, sha);
    DecimalStarts(size);
    RankOfDumpFile();
    RankOfMetadataFile();
    RankOfDumpSize();
    RankOfDumpSha256();
  }

  const RECORD_BOUNDS: seq<nat> := [0, 3, 8, 12, 17, 22, 26, 30]

  lemma RecordReadable(a: Anomaly, size: nat, sha: string, at: string)
    ensures ReadableGroups(RecordGroups(a, size, sha, at), RECORD_BOUNDS)
  {
    hide AreFields, AreKeys, BaresOk, RanksIn, NameRank;
    hide StampFields, HeadFields, PlaceFields, SectionFields, ImportFields, VerdictFields, FileFields;
    StampReadable(at);
    StartReadable(a);
    PlaceReadable(a);
    SectionReadable(a);
    ImportsReadable(a);
    VerdictReadable(a);
    FileReadable(a, size, sha);
    HeadRanks(a);
    WiderRanks(HeadFields(a), 3, 7, 8);
    PlaceRanks(a);
    SectionRanks(a);
    ImportRanks(a);
    WiderRanks(ImportFields(a), 17, 21, 22);
    VerdictRanks(a);
  }

  lemma WiderRanks(fs: seq<Field>, lo: nat, hi: nat, more: nat)
    requires RanksIn(fs, lo, hi) && hi <= more
    ensures RanksIn(fs, lo, more)
  {
    hide NameRank;
  }

  ghost predicate ShowsStamp(text: string, at: string) {
    && Reads(text, "version", Bare("1"))
    && Reads(text, "tool_version", String("0.7.0"))
    && Reads(text, "captured_at_utc", String(at))
  }

  lemma StampShown(text: string, at: string)
    requires AllRead(text, StampFields(at))
    ensures ShowsStamp(text, at)
  {
    hide Reads;
    var fs := StampFields(at);
    assert Reads(text, fs[0].name, fs[0].value) && Reads(text, fs[1].name, fs[1].value);
    assert Reads(text, fs[2].name, fs[2].value);
  }

  ghost predicate ShowsFiles(text: string, a: Anomaly, size: nat, sha: string) {
    && Reads(text, "dump_file", String(DumpName(a)))
    && Reads(text, "metadata_file", String(MetaName(a)))
    && Reads(text, "dump_size", Bare(Decimal(size)))
    && Reads(text, "dump_sha256", String(sha))
  }

  lemma FilesShown(text: string, a: Anomaly, size: nat, sha: string)
    requires AllRead(text, FileFields(a, size, sha))
    ensures ShowsFiles(text, a, size, sha)
  {
    hide Reads, DumpName, MetaName;
    var fs := FileFields(a, size, sha);
    assert Reads(text, fs[0].name, fs[0].value) && Reads(text, fs[1].name, fs[1].value);
    assert Reads(text, fs[2].name, fs[2].value) && Reads(text, fs[3].name, fs[3].value);
  }

  lemma BraceCloses()
    ensures ClosesObject("}", COMPACT) && PlainGap("{")
  {
    assert SkipWs("}") == "}";
  }

  /** A record shows every field of its finding under its own name, and the files of the capture. */
  lemma RecordShows(a: Anomaly, size: nat, sha: string, at: string)
    ensures var r := Record(a, size, sha, at);
            && ShowsStamp(r, at) && ShowsHead(r, a) && ShowsPlace(r, a) && ShowsSection(r, a) && ShowsImports(r, a)
            && ShowsVerdict(r, a) && ShowsFiles(r, a, size, sha)
  {
    hide GroupsText, ReadableGroups, Reads, AllRead, ShowsStamp, ShowsHead, ShowsPlace, ShowsSection, ShowsImports;
    hide ShowsVerdict, ShowsFiles;
    hide StampFields, HeadFields, PlaceFields, SectionFields, ImportFields, VerdictFields, FileFields;
    var groups, r := RecordGroups(a, size, sha, at), Record(a, size, sha, at);
    RecordReadable(a, size, sha, at);
    BraceCloses();
    GroupsRead("{", groups, RECORD_BOUNDS, COMPACT, "}");
    assert AllRead(r, groups[0]) && AllRead(r, groups[1]) && AllRead(r, groups[2]) && AllRead(r, groups[3]);
    assert AllRead(r, groups[4]) && AllRead(r, groups[5]) && AllRead(r, groups[6]);
    StampShown(r, at);
    HeadShown(r, a);
    PlaceShown(r, a);
    SectionShown(r, a);
    ImportsShown(r, a);
    VerdictShown(r, a);
    FilesShown(r, a, size, sha);
  }

  /** A record tells the base address of its finding. */
  lemma RecordTellsBase(a: Anomaly, size: nat, sha: string, at: string)
    ensures FindString(Record(a, size, sha, at), "base") == Some(ToHex64(a.base))
  {
    hide Record, HexDigits, FindString, FindKeyValue, FindStringArray, ShowsStamp, ShowsFiles;
    RecordShows(a, size, sha, at);
    PlainDigits(HexDigits(a.base));
    PlainUnchanged(ToHex64(a.base));
  }

  /** The tool's own reader gets the fingerprint, the dump file and its digest back from a record. */
  lemma RecordReadsBack(a: Anomaly, size: nat, sha: string, at: string)
    ensures FindString(Record(a, size, sha, at), "fingerprint") == Some(Norm(a.fingerprint))
    ensures FindString(Record(a, size, sha, at), "dump_file") == Some(DumpName(a))
    ensures FindString(Record(a, size, sha, at), "dump_sha256") == Some(Norm(sha))
  {
    hide Record, FindString, FindKeyValue, FindStringArray, Norm, DumpName, MetaName;
    RecordShows(a, size, sha, at);
    DumpNameIsPlain(a);
    PlainUnchanged(DumpName(a));
  }

  // ----- the index

  function IndexFields(count: nat, at: string): seq<Field> {
    [Field("version", Bare("1")),
     Field("tool_version", String(TOOL_VERSION)),
     Field("updated_at_utc", String(at)),
     Field("manifest_file", String("manifest.jsonl")),
     Field("item_count", Bare(Decimal(count)))]
  }

  function CapturesText(lines: seq<string>, i: nat): string
    requires i <= |lines|
    decreases |lines| - i
  {
    if i == |lines| then ""
    else "    " + (lines[i] + ((if i + 1 != |lines| then "," else "") + ("\n" + CapturesText(lines, i + 1))))
  }

  function IndexText(lines: seq<string>, at: string): string {
    "{\n" + (FieldsText(IndexFields(|lines|, at), 0, TOP, true) +
    ("  \"captures\": [\n" + (CapturesText(lines, 0) + "  ]\n}\n")))
  }

  /** The non-empty lines of a manifest. */
  method CollectLines(manifest: string) returns (lines: seq<string>)
    ensures lines == NonEmptyLines(Lines(manifest))
  {
    hide Lines;
    lines := [];
    var pos := 0;
    ghost var all := NonEmptyLines(Lines(manifest));
    assert manifest[0..] == manifest;
    while pos < |manifest|
      invariant pos <= |manifest|
      invariant all == lines + NonEmptyLines(Lines(manifest[pos..]))
    {
      var ok, line, next := GetLine(manifest, pos);
      NonEmptyStep(line, Lines(manifest[next..]));
      ghost var rest := NonEmptyLines(Lines(manifest[next..]));
      if line != "" {
        assert lines + ([line] + rest) == (lines + [line]) + rest;
        lines := lines + [line];
      }
      pos := next;
    }
    assert manifest[pos..] == "";
    NothingLeft();
    assert lines + [] == lines;
  }

  method RenderCaptures(lines: seq<string>) returns (body: string)
    ensures body == CapturesText(lines, 0)
  {
    body := "";
    for i := 0 to |lines|
      invariant body + CapturesText(lines, i) == CapturesText(lines, 0)
    {
      var comma := if i + 1 != |lines| then "," else "";
      Assoc5(body, "    ", lines[i], comma, "\n", CapturesText(lines, i + 1));
      body := body + ("    " + (lines[i] + (comma + "\n")));
    }
    assert body + "" == body;
  }

  /** The index written for the text of a manifest. */
  method RenderEvidenceIndex(manifest: string, at: string) returns (out: string)
    ensures out == IndexText(NonEmptyLines(Lines(manifest)), at)
  {
    hide Lines, FieldsText, CapturesText;
    var lines := CollectLines(manifest);
    var head := PutFields("", IndexFields(|lines|, at), TOP, true);
    var body := RenderCaptures(lines);
    out := "{\n" + (head + ("  \"captures\": [\n" + (body + "  ]\n}\n")));
  }

  lemma NonEmptyStep(line: string, rest: seq<string>)
    ensures NonEmptyLines([line] + rest) == (if line != "" then [line] else []) + NonEmptyLines(rest)
  {
    assert ([line] + rest)[1..] == rest;
  }

  lemma NothingLeft()
    ensures NonEmptyLines(Lines("")) == []
  {
  }

  lemma Assoc5(a: string, b: string, c: string, d: string, e: string, f: string)
    ensures (a + (b + (c + (d + e)))) + f == a + (b + (c + (d + (e + f))))
  {
  }

  // ----- reading the index back

  function CaptureLine(lines: seq<string>, i: nat): string
    requires i < |lines|
  {
    "    " + (lines[i] + if i + 1 != |lines| then "," else "")
  }

  function CaptureLines(lines: seq<string>, i: nat): (r: seq<string>)
    requires i <= |lines|
    ensures |r| == |lines| - i
    decreases |lines| - i
  {
    if i == |lines| then [] else [CaptureLine(lines, i)] + CaptureLines(lines, i + 1)
  }

  /** A capture line without its indent and its comma. */
  function Strip(line: string): string {
    var s := if |line| >= 4 then line[4..] else line;
    if s != "" && s[|s| - 1] == ',' then s[..|s| - 1] else s
  }

  function StripUntilClose(lines: seq<string>): seq<string> {
    if lines == [] || lines[0] == "  ]" then [] else [Strip(lines[0])] + StripUntilClose(lines[1..])
  }

  /** The captures an index holds: the lines after its seven header lines, up to the closing bracket. */
  function IndexCaptures(text: string): seq<string> {
    var lines := Lines(text);
    if |lines| < 7 then [] else StripUntilClose(lines[7..])
  }

  function IndexCountLine(text: string): string {
    var lines := Lines(text);
    if |lines| < 6 then "" else lines[5]
  }

  function HeaderLines(fs: seq<Field>, k: nat): (r: seq<string>)
    requires k <= |fs|
    ensures |r| == |fs| - k
    decreases |fs| - k
  {
    if k == |fs| then [] else [FieldText(fs[k], TOP) + ","] + HeaderLines(fs, k + 1)
  }

  lemma {:induction false} HeaderIsLines(fs: seq<Field>, k: nat, rest: string)
    requires k <= |fs| && forall i | 0 <= i < |fs| :: CleanField(fs[i])
    ensures Lines(FieldsText(fs, k, TOP, true) + rest) == HeaderLines(fs, k) + Lines(rest)
    decreases |fs| - k
  {
    hide Lines, FieldText, CleanField;
    if k == |fs| {
      assert "" + rest == rest;
    } else {
      HeaderIsLines(fs, k + 1, rest);
      FieldClean(fs[k], TOP);
      var t, tail := FieldText(fs[k], TOP), FieldsText(fs, k + 1, TOP, true);
      assert t + (",\n" + tail) + rest == (t + ",") + ("\n" + (tail + rest));
      LinesStep(t + ",", tail + rest);
      assert HeaderLines(fs, k) + Lines(rest) == [t + ","] + (HeaderLines(fs, k + 1) + Lines(rest));
    }
  }

  lemma {:induction false} CapturesAreLines(lines: seq<string>, i: nat, rest: string)
    requires i <= |lines| && AllNoNewline(lines)
    ensures Lines(CapturesText(lines, i) + rest) == CaptureLines(lines, i) + Lines(rest)
    decreases |lines| - i
  {
    hide Lines;
    if i == |lines| {
      assert "" + rest == rest;
    } else {
      CapturesAreLines(lines, i + 1, rest);
      var comma := if i + 1 != |lines| then "," else "";
      var tail := CapturesText(lines, i + 1);
      assert CapturesText(lines, i) + rest == CaptureLine(lines, i) + ("\n" + (tail + rest));
      LinesStep(CaptureLine(lines, i), tail + rest);
      assert CaptureLines(lines, i) + Lines(rest) ==
          [CaptureLine(lines, i)] + (CaptureLines(lines, i + 1) + Lines(rest));
    }
  }

  lemma {:induction false} CapturesStrip(lines: seq<string>, i: nat, rest: seq<string>)
    requires i <= |lines| && forall k | 0 <= k < |lines| :: IsRecord(lines[k])
    ensures StripUntilClose(CaptureLines(lines, i) + (["  ]"] + rest)) == lines[i..]
    decreases |lines| - i
  {
    var all := CaptureLines(lines, i) + (["  ]"] + rest);
    if i == |lines| {
      assert all == ["  ]"] + rest;
    } else {
      CapturesStrip(lines, i + 1, rest);
      StripsTo(lines, i);
      assert all[0] == CaptureLine(lines, i);
      assert all[1..] == CaptureLines(lines, i + 1) + (["  ]"] + rest);
      assert lines[i..] == [lines[i]] + lines[i + 1..];
    }
  }

  lemma StripsTo(lines: seq<string>, i: nat)
    requires i < |lines| && IsRecord(lines[i])
    ensures Strip(CaptureLine(lines, i)) == lines[i] && CaptureLine(lines, i) != "  ]"
  {
    var comma := if i + 1 != |lines| then "," else "";
    var line := CaptureLine(lines, i);
    assert line[4..] == lines[i] + comma;
    assert (lines[i] + comma)[..|lines[i]|] == lines[i];
    assert line[2] == ' ';
  }

  lemma IndexFieldsClean(count: nat, at: string)
    ensures forall i | 0 <= i < |IndexFields(count, at)| :: CleanField(IndexFields(count, at)[i])
  {
  }

  lemma EmptyLines()
    ensures Lines("") == []
  {
  }

  lemma EndLines()
    ensures Lines("  ]\n}\n") == ["  ]"] + ["}"]
  {
    hide Lines;
    EmptyLines();
    assert "  ]\n}\n" == "  ]" + ("\n" + "}\n");
    LinesStep("  ]", "}\n");
    assert "}\n" == "}" + ("\n" + "");
    LinesStep("}", "");
  }

  function ListName(): string { "  \"captures\": [" }

  lemma ListNameText(t: string)
    ensures "  \"captures\": [\n" + t == ListName() + ("\n" + t)
    ensures NoNewline(ListName())
  {
    assert "  \"captures\": [\n" == ListName() + "\n";
  }

  lemma IndexTail(lines: seq<string>)
    requires AllNoNewline(lines)
    ensures Lines("  \"captures\": [\n" + (CapturesText(lines, 0) + "  ]\n}\n")) ==
            [ListName()] + (CaptureLines(lines, 0) + (["  ]"] + ["}"]))
  {
    hide Lines, CapturesText, CaptureLines, ListName;
    var t := CapturesText(lines, 0) + "  ]\n}\n";
    CapturesAreLines(lines, 0, "  ]\n}\n");
    EndLines();
    ListNameText(t);
    LinesStep(ListName(), t);
  }

  lemma IndexLines(lines: seq<string>, at: string)
    requires AllNoNewline(lines)
    ensures Lines(IndexText(lines, at)) ==
            ["{"] + (HeaderLines(IndexFields(|lines|, at), 0) +
                     ([ListName()] + (CaptureLines(lines, 0) + (["  ]"] + ["}"]))))
  {
    hide Lines, FieldsText, CapturesText, HeaderLines, CaptureLines, ListName, IndexFields, CleanField;
    var fs := IndexFields(|lines|, at);
    var t2 := "  \"captures\": [\n" + (CapturesText(lines, 0) + "  ]\n}\n");
    IndexTail(lines);
    IndexFieldsClean(|lines|, at);
    HeaderIsLines(fs, 0, t2);
    var t1 := FieldsText(fs, 0, TOP, true) + t2;
    OpenLine(t1);
  }

  lemma OpenLine(t: string)
    ensures Lines("{\n" + t) == ["{"] + Lines(t)
  {
    assert "{\n" + t == "{" + ("\n" + t);
    LinesStep("{", t);
  }

  lemma NamesWritten()
    ensures JsonString("version") == Quote("version") && JsonString("tool_version") == Quote("tool_version")
    ensures JsonString("updated_at_utc") == Quote("updated_at_utc")
    ensures JsonString("manifest_file") == Quote("manifest_file") && JsonString("item_count") == Quote("item_count")
  {
    hide Quote, JsonString, Plain, LeadColon;
    HeadNames();
    FileNames();
    WordIsKey("updated_at_utc");
    WordIsKey("manifest_file");
    WordIsKey("item_count");
    PlainWritten("version");
    PlainWritten("tool_version");
    PlainWritten("updated_at_utc");
    PlainWritten("manifest_file");
    PlainWritten("item_count");
  }

  lemma VersionWritten()
    ensures JsonString("0.7.0") == Quote("0.7.0")
  {
    hide Quote, JsonString;
    PlainWritten("0.7.0");
  }

  lemma ManifestWritten()
    ensures JsonString("manifest.jsonl") == Quote("manifest.jsonl")
  {
    hide Quote, JsonString;
    PlainWritten("manifest.jsonl");
  }

  lemma HeaderLine(count: nat, at: string, i: nat)
    requires i < 5
    ensures HeaderLines(IndexFields(count, at), 0)[i] == FieldText(IndexFields(count, at)[i], TOP) + ","
  {
    hide FieldText;
    HeaderLineFrom(IndexFields(count, at), 0, i);
  }

  lemma {:induction false} HeaderLineFrom(fs: seq<Field>, k: nat, i: nat)
    requires k <= i < |fs|
    ensures HeaderLines(fs, k)[i - k] == FieldText(fs[i], TOP) + ","
    decreases i - k
  {
    hide FieldText;
    if k < i {
      HeaderLineFrom(fs, k + 1, i);
    }
  }

  /** The heading of an index: version, tool, time, manifest and count, one below the other. */
  lemma IndexHeading(lines: seq<string>, at: string)
    requires forall i | 0 <= i < |lines| :: IsRecord(lines[i])
    ensures var all := Lines(IndexText(lines, at));
            && |all| >= 7 && all[0] == "{"
            && all[1] == "  " + (Quote("version") + (": " + "1")) + ","
            && all[2] == "  " + (Quote("tool_version") + (": " + Quote("0.7.0"))) + ","
            && all[3] == "  " + (Quote("updated_at_utc") + (": " + JsonString(at))) + ","
            && all[4] == "  " + (Quote("manifest_file") + (": " + Quote("manifest.jsonl"))) + ","
            && all[5] == "  " + (Quote("item_count") + (": " + Decimal(|lines|))) + ","
  {
    hide Lines, IndexText, HeaderLines, CaptureLines, JsonString, Decimal, Quote, ListName, NoNewline;
    IndexLines(lines, at);
    NamesWritten();
    VersionWritten();
    ManifestWritten();
    HeaderLine(|lines|, at, 0);
    HeaderLine(|lines|, at, 1);
    HeaderLine(|lines|, at, 2);
    HeaderLine(|lines|, at, 3);
    HeaderLine(|lines|, at, 4);
    HeadingOf(HeaderLines(IndexFields(|lines|, at), 0), ListName(), CaptureLines(lines, 0) + (["  ]"] + ["}"]));
  }

  lemma HeadingOf(header: seq<string>, name: string, tail: seq<string>)
    requires |header| == 5
    ensures var all := ["{"] + (header + ([name] + tail));
            && |all| >= 7 && all[0] == "{"
            && all[1] == header[0] && all[2] == header[1] && all[3] == header[2] && all[4] == header[3]
            && all[5] == header[4]
  {
  }

  /** An index gives back exactly the records it was written for, and their number. */
  lemma IndexReadsBack(lines: seq<string>, at: string)
    requires forall i | 0 <= i < |lines| :: IsRecord(lines[i])
    ensures IndexCaptures(IndexText(lines, at)) == lines
    ensures IndexCountLine(IndexText(lines, at)) == FieldText(Field("item_count", Bare(Decimal(|lines|))), TOP) + ","
  {
    hide Lines, IndexText, StripUntilClose, FieldText, CaptureLines, HeaderLines, ListName;
    IndexLines(lines, at);
    var fs := IndexFields(|lines|, at);
    var tail := CaptureLines(lines, 0) + (["  ]"] + ["}"]);
    HeadOf(HeaderLines(fs, 0), ListName(), tail);
    CapturesStrip(lines, 0, ["}"]);
    assert lines[0..] == lines;
    CountLine(|lines|, at);
  }

  lemma HeadOf(header: seq<string>, name: string, tail: seq<string>)
    requires |header| == 5
    ensures (["{"] + (header + ([name] + tail)))[7..] == tail
    ensures (["{"] + (header + ([name] + tail)))[5] == header[4]
  {
  }

  lemma CountLine(count: nat, at: string)
    ensures HeaderLines(IndexFields(count, at), 0)[4] == FieldText(Field("item_count", Bare(Decimal(count))), TOP) + ","
  {
    hide FieldText;
    var fs := IndexFields(count, at);
    assert HeaderLines(fs, 4)[0] == FieldText(fs[4], TOP) + ",";
    assert HeaderLines(fs, 3)[1] == HeaderLines(fs, 4)[0];
    assert HeaderLines(fs, 2)[2] == HeaderLines(fs, 3)[1];
    assert HeaderLines(fs, 1)[3] == HeaderLines(fs, 2)[2];
  }
}
