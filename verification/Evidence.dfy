/** The evidence directory as a state machine: captures follow a fixed order of steps and may stop
    at any of them. Single file writes happen completely or not at all. */
module Evidence {
  import opened Text
  import opened Json
  import opened JsonEscaping
  import opened JsonDoc
  import opened JsonObject
  import opened Anomalies
  import opened TextLines
  import opened EvidenceText
  import opened FieldNames
  import opened ObjectReads
  import opened ShownFields

  /** What the system answers during one capture: the time, and which of the steps succeed. */
  datatype Outcome = Outcome(
    at: string,
    dirOk: bool,
    dumpOk: bool,
    metaOk: bool,
    appendOk: bool,
    readOk: bool,
    indexOk: bool)

  /** One capture: the finding, what its memory reads as for a wanted size, and its outcome. */
  datatype Capture = Capture(a: Anomaly, memory: nat -> string, sys: Outcome)

  datatype Options = Options(directory: string, maxDumpBytes: nat, sha: string -> string)

  datatype Store = Store(dumps: map<string, string>, metas: map<string, string>, manifest: string,
                         index: Option<string>)

  function Dump(o: Options, c: Capture): string {
    c.memory(if c.a.size <= o.maxDumpBytes then c.a.size else o.maxDumpBytes)
  }

  function RecordOf(o: Options, c: Capture): string {
    Record(c.a, |Dump(o, c)|, o.sha(Dump(o, c)), c.sys.at)
  }

  // ----- the metadata file of one capture

  function MetaTailFields(o: Options, c: Capture): seq<Field> {
    [Field("dump_file", String(DumpName(c.a))),
     Field("dump_size", Bare(Decimal(|Dump(o, c)|))),
     Field("dump_sha256", String(o.sha(Dump(o, c))))]
  }

  function MetaGroups(o: Options, c: Capture): seq<seq<Field>> {
    [StampFields(c.sys.at), HeadFields(c.a), SizeField(c.a), PlaceFields(c.a), SectionFields(c.a), ImportFields(c.a),
     IsPeField(c.a), VerdictFields(c.a), MetaTailFields(o, c)]
  }

  function MetaText(o: Options, c: Capture): string { "{\n" + (GroupsText(MetaGroups(o, c), 0, TOP) + "}\n") }

  method RenderEvidenceJson(o: Options, c: Capture) returns (out: string)
    ensures out == MetaText(o, c)
  {
    hide GroupsText, MetaGroups;
    out := PutGroups("{\n", MetaGroups(o, c), TOP);
    Assoc("{\n", GroupsText(MetaGroups(o, c), 0, TOP), "}\n");
    out := out + "}\n";
  }

  lemma MetaTailOk(o: Options, c: Capture)
    ensures AreFields(MetaTailFields(o, c))
  {
    hide NameLiteral, Dump;
    FileNames();
    DigitsPlain(Decimal(|Dump(o, c)|));
  }

  lemma MetaTailReadable(o: Options, c: Capture)
    ensures ReadableFields(MetaTailFields(o, c)) && RanksIn(MetaTailFields(o, c), 26, 30)
  {
    hide IsKey, NameRank, IsField, Decimal, DumpName, Dump;
    FileNames();
    MetaTailOk(o, c);
    DecimalStarts(|Dump(o, c)|);
    RankOfDumpFile();
    RankOfDumpSize();
    RankOfDumpSha256();
  }

  const META_BOUNDS: seq<nat> := [0, 3, 7, 8, 12, 17, 21, 22, 26, 30]

  lemma MetaReadable(o: Options, c: Capture)
    ensures ReadableGroups(MetaGroups(o, c), META_BOUNDS)
  {
    hide AreFields, AreKeys, BaresOk, RanksIn, NameRank;
    hide StampFields, HeadFields, SizeField, PlaceFields, SectionFields, ImportFields, IsPeField, VerdictFields;
    hide MetaTailFields;
    StampReadable(c.sys.at);
    StartReadable(c.a);
    PlaceReadable(c.a);
    SectionReadable(c.a);
    ImportsReadable(c.a);
    VerdictReadable(c.a);
    MetaTailReadable(o, c);
    HeadRanks(c.a);
    SizeRanks(c.a);
    PlaceRanks(c.a);
    SectionRanks(c.a);
    ImportRanks(c.a);
    IsPeRanks(c.a);
    VerdictRanks(c.a);
  }

  ghost predicate ShowsDump(text: string, o: Options, c: Capture) {
    && Reads(text, "dump_file", String(DumpName(c.a)))
    && Reads(text, "dump_size", Bare(Decimal(|Dump(o, c)|)))
    && Reads(text, "dump_sha256", String(o.sha(Dump(o, c))))
  }

  lemma DumpShown(text: string, o: Options, c: Capture)
    requires AllRead(text, MetaTailFields(o, c))
    ensures ShowsDump(text, o, c)
  {
    hide Reads, DumpName, Dump;
    var fs := MetaTailFields(o, c);
    assert Reads(text, fs[0].name, fs[0].value) && Reads(text, fs[1].name, fs[1].value);
    assert Reads(text, fs[2].name, fs[2].value);
  }

  lemma LineCloses()
    ensures ClosesObject("}\n", TOP) && PlainGap("{\n")
  {
    assert SkipWs("}\n") == "}\n";
  }

  /** The metadata file shows every field of its finding under its own name, and its dump. */
  lemma MetaShows(o: Options, c: Capture)
    ensures var r := MetaText(o, c);
            && ShowsStamp(r, c.sys.at) && ShowsHead(r, c.a) && ShowsSize(r, c.a) && ShowsPlace(r, c.a)
            && ShowsSection(r, c.a) && ShowsImports(r, c.a) && ShowsIsPe(r, c.a) && ShowsVerdict(r, c.a)
            && ShowsDump(r, o, c)
  {
    hide GroupsText, ReadableGroups, Reads, AllRead, ShowsStamp, ShowsHead, ShowsSize, ShowsPlace, ShowsSection;
    hide ShowsImports, ShowsIsPe, ShowsVerdict, ShowsDump;
    hide StampFields, HeadFields, SizeField, PlaceFields, SectionFields, ImportFields, IsPeField, VerdictFields;
    hide MetaTailFields;
    var groups, r := MetaGroups(o, c), MetaText(o, c);
    MetaReadable(o, c);
    LineCloses();
    GroupsRead("{\n", groups, META_BOUNDS, TOP, "}\n");
    assert AllRead(r, groups[0]) && AllRead(r, groups[1]) && AllRead(r, groups[2]) && AllRead(r, groups[3]);
    assert AllRead(r, groups[4]) && AllRead(r, groups[5]) && AllRead(r, groups[6]) && AllRead(r, groups[7]);
    assert AllRead(r, groups[8]);
    StampShown(r, c.sys.at);
    HeadShown(r, c.a);
    SizeShown(r, c.a);
    PlaceShown(r, c.a);
    SectionShown(r, c.a);
    ImportsShown(r, c.a);
    IsPeShown(r, c.a);
    VerdictShown(r, c.a);
    DumpShown(r, o, c);
  }

  /** The metadata file gives back the fingerprint of its finding and names its dump by file and digest. */
  lemma MetaReadsBack(o: Options, c: Capture)
    ensures FindString(MetaText(o, c), "fingerprint") == Some(Norm(c.a.fingerprint))
    ensures FindString(MetaText(o, c), "dump_file") == Some(DumpName(c.a))
    ensures FindString(MetaText(o, c), "dump_sha256") == Some(Norm(o.sha(Dump(o, c))))
  {
    hide FindString, FindKeyValue, FindStringArray, MetaText, Norm, Dump, DumpName;
    MetaShows(o, c);
    DumpNameIsPlain(c.a);
    PlainUnchanged(DumpName(c.a));
  }

  // ----- one capture

  /** Nothing is captured without a directory or with a zero dump size; the call still succeeds. */
  predicate Disabled(o: Options) { o.directory == "" || o.maxDumpBytes == 0 }

  function Step(o: Options, s: Store, c: Capture): (Store, bool) {
    if Disabled(o) then (s, true)
    else if !c.sys.dirOk || Dump(o, c) == "" || !c.sys.dumpOk then (s, false)
    else
      var s1 := s.(dumps := s.dumps[DumpName(c.a) := Dump(o, c)]);
      if !c.sys.metaOk then (s1, false)
      else
        var s2 := s1.(metas := s1.metas[MetaName(c.a) := MetaText(o, c)]);
        if !c.sys.appendOk then (s2, false)
        else
          var s3 := s2.(manifest := s2.manifest + (RecordOf(o, c) + "\n"));
          if !c.sys.readOk || |s3.manifest| > READ_LIMIT || !c.sys.indexOk then (s3, false)
          else (s3.(index := Some(IndexText(NonEmptyLines(Lines(s3.manifest)), c.sys.at))), true)
  }

  class EvidenceDirectory {
    var dumps: map<string, string>
    var metas: map<string, string>
    var manifest: string
    var index: Option<string>

    function Contents(): Store
      reads this
    {
      Store(dumps, metas, manifest, index)
    }

    constructor ()
      ensures Contents() == Store(map[], map[], "", None)
    {
      dumps, metas, manifest, index := map[], map[], "", None;
    }

    method WriteEvidence(o: Options, c: Capture) returns (ok: bool)
      modifies this
      ensures (Contents(), ok) == Step(o, old(Contents()), c)
    {
      hide MetaText, IndexText, Record, Lines;
      if o.directory == "" || o.maxDumpBytes == 0 {
        return true;
      }
      if !c.sys.dirOk {
        return false;
      }
      var wanted := if c.a.size <= o.maxDumpBytes then c.a.size else o.maxDumpBytes;
      var bytes := c.memory(wanted);
      if bytes == "" {
        return false;
      }
      if !c.sys.dumpOk {
        return false;
      }
      dumps := dumps[DumpName(c.a) := bytes];
      var sha := o.sha(bytes);
      var meta := RenderEvidenceJson(o, c);
      if !c.sys.metaOk {
        return false;
      }
      metas := metas[MetaName(c.a) := meta];
      var line := RenderManifestLine(c.a, |bytes|, sha, c.sys.at);
      if !c.sys.appendOk {
        return false;
      }
      manifest := manifest + line;
      if !c.sys.readOk || |manifest| > READ_LIMIT {
        return false;
      }
      var text := RenderEvidenceIndex(manifest, c.sys.at);
      if !c.sys.indexOk {
        return false;
      }
      index := Some(text);
      return true;
    }
  }

  // ----- what a capture changes

  /** At most the wanted bytes are captured: those of the region, and no more than the limit. */
  lemma DumpExact(o: Options, c: Capture)
    ensures c.a.size <= o.maxDumpBytes ==> Dump(o, c) == c.memory(c.a.size)
    ensures c.a.size > o.maxDumpBytes ==> Dump(o, c) == c.memory(o.maxDumpBytes)
    ensures (forall n: nat :: |c.memory(n)| <= n) ==> |Dump(o, c)| <= c.a.size && |Dump(o, c)| <= o.maxDumpBytes
  {
  }

  /** Each file of the directory on its own: what it takes to change it, and what it becomes. */
  lemma StepExact(o: Options, s: Store, c: Capture)
    ensures var (t, ok) := Step(o, s, c);
            var disabled := o.directory == "" || o.maxDumpBytes == 0;
            var dumped := !disabled && c.sys.dirOk && Dump(o, c) != "" && c.sys.dumpOk;
            var described := dumped && c.sys.metaOk;
            var logged := described && c.sys.appendOk;
            var line := RecordOf(o, c) + "\n";
            var indexed := logged && c.sys.readOk && |s.manifest + line| <= 67108864 && c.sys.indexOk;
            && t.dumps == (if dumped then s.dumps[DumpName(c.a) := Dump(o, c)] else s.dumps)
            && t.metas == (if described then s.metas[MetaName(c.a) := MetaText(o, c)] else s.metas)
            && t.manifest == (if logged then s.manifest + line else s.manifest)
            && (!indexed ==> t.index == s.index)
            && (indexed ==> t.index == Some(IndexText(NonEmptyLines(Lines(s.manifest + line)), c.sys.at)))
            && (ok <==> disabled || indexed)
  {
    hide MetaText, IndexText, RecordOf, Lines, Dump, DumpName, MetaName;
  }

  // ----- runs

  /** The capture got as far as appending its record. */
  predicate Appends(o: Options, c: Capture) {
    !Disabled(o) && c.sys.dirOk && Dump(o, c) != "" && c.sys.dumpOk && c.sys.metaOk && c.sys.appendOk
  }

  /** The capture got as far as writing its dump. */
  predicate Dumps(o: Options, c: Capture) { !Disabled(o) && c.sys.dirOk && Dump(o, c) != "" && c.sys.dumpOk }

  /** One capture with the options of the run it belongs to; a directory can serve many runs. */
  datatype Call = Call(o: Options, c: Capture)

  /** The records appended by a list of calls, in order. */
  function Appended(cs: seq<Call>): seq<string> {
    if cs == [] then []
    else
      var last := cs[|cs| - 1];
      Appended(cs[..|cs| - 1]) + if Appends(last.o, last.c) then [RecordOf(last.o, last.c)] else []
  }

  function Run(s: Store, cs: seq<Call>): Store {
    if cs == [] then s else Step(cs[|cs| - 1].o, Run(s, cs[..|cs| - 1]), cs[|cs| - 1].c).0
  }

  const EMPTY := Store(map[], map[], "", None)

  /** The last call succeeded and wrote something. */
  predicate LastSucceeds(s: Store, cs: seq<Call>) {
    cs != [] && !Disabled(cs[|cs| - 1].o) && Step(cs[|cs| - 1].o, Run(s, cs[..|cs| - 1]), cs[|cs| - 1].c).1
  }

  /** How many records the index covers when `n` records were there and it covered `k` of them. */
  function Indexed(s: Store, n: nat, k: nat, cs: seq<Call>): nat {
    if cs == [] then k
    else if LastSucceeds(s, cs) then n + |Appended(cs)|
    else Indexed(s, n, k, cs[..|cs| - 1])
  }

  predicate Records(rs: seq<string>) { forall i | 0 <= i < |rs| :: IsRecord(rs[i]) }

  /** The manifest holds exactly these records, and the index, if any, the first `k` of them. */
  ghost predicate Consistent(s: Store, rs: seq<string>, k: nat) {
    && Records(rs)
    && k <= |rs|
    && s.manifest == Unlines(rs)
    && (s.index.None? ==> k == 0)
    && (s.index.Some? ==> exists at :: s.index.value == IndexText(rs[..k], at))
  }

  lemma ManifestSplits(rs: seq<string>)
    requires Records(rs)
    ensures Lines(Unlines(rs)) == rs && NonEmptyLines(Lines(Unlines(rs))) == rs
  {
    LinesOfUnlines(rs, "");
    assert Unlines(rs) + "" == Unlines(rs);
    EmptyLines();
    assert rs + [] == rs;
    NonEmptyKeepsAll(rs);
  }

  lemma StepKeeps(o: Options, s: Store, rs: seq<string>, k: nat, c: Capture)
    requires Consistent(s, rs, k)
    ensures var r := rs + (if Appends(o, c) then [RecordOf(o, c)] else []);
            Consistent(Step(o, s, c).0, r, if Step(o, s, c).1 && !Disabled(o) then |r| else k)
  {
    hide Lines, IndexText, Record, MetaText, Unlines, IsRecord;
    if Appends(o, c) {
      var record := RecordOf(o, c);
      RecordIsOneLine(c.a, |Dump(o, c)|, o.sha(Dump(o, c)), c.sys.at);
      var r := rs + [record];
      UnlinesAppend(rs, record);
      ManifestSplits(r);
      assert r[..k] == rs[..k];
      assert r[..|r|] == r;
    } else {
      assert rs + [] == rs;
    }
  }

  lemma {:induction false} RunKeeps(s: Store, rs: seq<string>, k: nat, cs: seq<Call>)
    requires Consistent(s, rs, k)
    ensures Consistent(Run(s, cs), rs + Appended(cs), Indexed(s, |rs|, k, cs))
  {
    hide Step, Consistent, RecordOf, Appends, Disabled, Appended;
    if cs == [] {
      AppendedStep(cs);
      assert rs + [] == rs;
    } else {
      var before, last := cs[..|cs| - 1], cs[|cs| - 1];
      RunKeeps(s, rs, k, before);
      StepKeeps(last.o, Run(s, before), rs + Appended(before), Indexed(s, |rs|, k, before), last.c);
      AppendedStep(cs);
      Joined3(rs, Appended(before), if Appends(last.o, last.c) then [RecordOf(last.o, last.c)] else []);
    }
  }

  lemma AppendedStep(cs: seq<Call>)
    ensures Appended(cs) ==
            if cs == [] then []
            else Appended(cs[..|cs| - 1]) +
                 if Appends(cs[|cs| - 1].o, cs[|cs| - 1].c) then [RecordOf(cs[|cs| - 1].o, cs[|cs| - 1].c)] else []
  {
  }

  lemma Joined3(a: seq<string>, b: seq<string>, c: seq<string>)
    ensures (a + b) + c == a + (b + c)
  {
  }

  /** After any calls on a directory, each with its own options and each stopping anywhere: the
      manifest splits into the records that were there and exactly the appended ones, and the index
      reads back as a prefix of them with its own count. */
  lemma EvidenceLog(s: Store, rs: seq<string>, k: nat, cs: seq<Call>)
    requires Consistent(s, rs, k)
    ensures Lines(Run(s, cs).manifest) == rs + Appended(cs)
    ensures Indexed(s, |rs|, k, cs) <= |rs + Appended(cs)|
    ensures Run(s, cs).index.Some? ==>
              && IndexCaptures(Run(s, cs).index.value) == (rs + Appended(cs))[..Indexed(s, |rs|, k, cs)]
              && IndexCountLine(Run(s, cs).index.value) ==
                 FieldText(Field("item_count", Bare(Decimal(Indexed(s, |rs|, k, cs)))), TOP) + ","
    ensures Run(s, cs).index.None? ==> Indexed(s, |rs|, k, cs) == 0
  {
    hide Lines, IndexText, IndexCaptures, IndexCountLine, FieldText, Unlines, Run, Appended, Indexed;
    RunKeeps(s, rs, k, cs);
    var all, n := rs + Appended(cs), Indexed(s, |rs|, k, cs);
    ManifestSplits(all);
    if Run(s, cs).index.Some? {
      var at :| Run(s, cs).index.value == IndexText(all[..n], at);
      IndexReadsBack(all[..n], at);
    }
  }

  /** The same for a directory that the first call creates. */
  lemma NewDirectoryLog(cs: seq<Call>)
    ensures Lines(Run(EMPTY, cs).manifest) == Appended(cs) && Indexed(EMPTY, 0, 0, cs) <= |Appended(cs)|
    ensures Run(EMPTY, cs).index.Some? ==>
              IndexCaptures(Run(EMPTY, cs).index.value) == Appended(cs)[..Indexed(EMPTY, 0, 0, cs)]
  {
    hide Lines, IndexCaptures, IndexCountLine, FieldText, Run, Appended, Indexed;
    EvidenceLog(EMPTY, [], 0, cs);
    assert [] + Appended(cs) == Appended(cs);
  }

  lemma SuccessLeaves(o: Options, s: Store, c: Capture)
    requires !Disabled(o) && Step(o, s, c).1
    ensures var t := Step(o, s, c).0;
            && Appends(o, c) && t.index.Some?
            && DumpName(c.a) in t.dumps && t.dumps[DumpName(c.a)] == Dump(o, c)
            && MetaName(c.a) in t.metas && t.metas[MetaName(c.a)] == MetaText(o, c)
  {
    hide MetaText, IndexText, Record, Lines, DumpName, MetaName, Dump;
  }

  /** After every success the index holds all records, and the capture left its dump and metadata. */
  lemma SuccessIsComplete(s: Store, rs: seq<string>, k: nat, cs: seq<Call>)
    requires Consistent(s, rs, k) && LastSucceeds(s, cs)
    ensures var t, o, c := Run(s, cs), cs[|cs| - 1].o, cs[|cs| - 1].c;
            && t.index.Some?
            && IndexCaptures(t.index.value) == Lines(t.manifest) == rs + Appended(cs)
            && Appended(cs) != [] && Appended(cs)[|Appended(cs)| - 1] == RecordOf(o, c)
            && DumpName(c.a) in t.dumps && t.dumps[DumpName(c.a)] == Dump(o, c)
            && MetaName(c.a) in t.metas && t.metas[MetaName(c.a)] == MetaText(o, c)
  {
    hide Lines, IndexText, IndexCaptures, RecordOf, MetaText, Consistent, Step, Appended, DumpName, MetaName;
    hide Dump, Disabled;
    hide FieldText;
    EvidenceLog(s, rs, k, cs);
    SuccessLeaves(cs[|cs| - 1].o, Run(s, cs[..|cs| - 1]), cs[|cs| - 1].c);
    AppendedStep(cs);
    assert (rs + Appended(cs))[..|rs + Appended(cs)|] == rs + Appended(cs);
  }

  // ----- do records still describe their dumps

  predicate SameTarget(a: Anomaly, b: Anomaly) { a.pid == b.pid && a.base == b.base }

  /** The call writes the dump file of this finding. */
  predicate Overwrites(x: Call, a: Anomaly) { Dumps(x.o, x.c) && SameTarget(x.c.a, a) }

  /** What the dump file of a finding holds after the calls. */
  function LastDump(s: Store, cs: seq<Call>, a: Anomaly): Option<string> {
    if cs == [] then (if DumpName(a) in s.dumps then Some(s.dumps[DumpName(a)]) else None)
    else if Overwrites(cs[|cs| - 1], a) then Some(Dump(cs[|cs| - 1].o, cs[|cs| - 1].c))
    else LastDump(s, cs[..|cs| - 1], a)
  }

  lemma StepDumps(o: Options, s: Store, c: Capture, a: Anomaly)
    ensures var t := Step(o, s, c).0;
            if Overwrites(Call(o, c), a) then DumpName(a) in t.dumps && t.dumps[DumpName(a)] == Dump(o, c)
            else (DumpName(a) in t.dumps <==> DumpName(a) in s.dumps) &&
                 (DumpName(a) in s.dumps ==> t.dumps[DumpName(a)] == s.dumps[DumpName(a)])
  {
    hide MetaText, IndexText, Record, Lines, DumpName, MetaName;
    NamesIdentify(c.a, a);
  }

  lemma {:induction false} DumpsHold(s: Store, cs: seq<Call>, a: Anomaly)
    ensures LastDump(s, cs, a).Some? <==> DumpName(a) in Run(s, cs).dumps
    ensures LastDump(s, cs, a).Some? ==> Run(s, cs).dumps[DumpName(a)] == LastDump(s, cs, a).value
  {
    hide Step, DumpName, Overwrites;
    if cs != [] {
      var before, last := cs[..|cs| - 1], cs[|cs| - 1];
      DumpsHold(s, before, a);
      StepDumps(last.o, Run(s, before), last.c, a);
    }
  }

  /** A later call wrote the dump file of call `i` last, with other bytes. */
  ghost predicate Replaced(cs: seq<Call>, i: nat)
    requires i < |cs|
  {
    exists j ::
      && i < j < |cs| && Overwrites(cs[j], cs[i].c.a) && Dump(cs[j].o, cs[j].c) != Dump(cs[i].o, cs[i].c)
      && forall l | j < l < |cs| :: !Overwrites(cs[l], cs[i].c.a)
  }

  lemma {:induction false} LastDumpIs(s: Store, cs: seq<Call>, i: nat, n: nat)
    requires i < n <= |cs| && Dumps(cs[i].o, cs[i].c)
    requires forall l | n <= l < |cs| :: !Overwrites(cs[l], cs[i].c.a)
    ensures LastDump(s, cs[..n], cs[i].c.a) == Some(Dump(cs[i].o, cs[i].c)) <==> !Replaced(cs, i)
    decreases n
  {
    hide Dump, Dumps;
    var before, last := cs[..n], cs[n - 1];
    assert before[..n - 1] == cs[..n - 1] && before[n - 1] == last;
    if Overwrites(last, cs[i].c.a) {
      if n - 1 > i && Dump(last.o, last.c) != Dump(cs[i].o, cs[i].c) {
        assert Replaced(cs, i);
      }
    } else {
      LastDumpIs(s, cs, i, n - 1);
    }
  }

  /** The dump file named by an appended record holds the bytes the record describes exactly when no
      later call, of any run, was the last to write it with other bytes. */
  lemma DumpDescribedIff(s: Store, cs: seq<Call>, i: nat)
    requires i < |cs| && Appends(cs[i].o, cs[i].c)
    ensures var o, c, t := cs[i].o, cs[i].c, Run(s, cs);
            && DumpName(c.a) in t.dumps
            && (t.dumps[DumpName(c.a)] == Dump(o, c) <==> !Replaced(cs, i))
  {
    hide Dump, Run, DumpName, Replaced;
    DumpsHold(s, cs, cs[i].c.a);
    LastDumpIs(s, cs, i, |cs|);
    assert cs[..|cs|] == cs;
    DumpExists(s, cs, i, |cs|);
  }

  lemma {:induction false} DumpExists(s: Store, cs: seq<Call>, i: nat, n: nat)
    requires i < n <= |cs| && Dumps(cs[i].o, cs[i].c)
    ensures LastDump(s, cs[..n], cs[i].c.a).Some?
    decreases n
  {
    hide Dump, Dumps;
    assert cs[..n][..n - 1] == cs[..n - 1] && cs[..n][n - 1] == cs[n - 1];
    if n - 1 > i {
      DumpExists(s, cs, i, n - 1);
    }
  }

  /** It does happen: a second capture of the same region with other bytes, even one that stops right
      after its dump, leaves the first record with a digest of bytes that are gone. */
  lemma SecondCaptureReplaces(x: Call, y: Call)
    requires Appends(x.o, x.c) && Overwrites(y, x.c.a) && Dump(y.o, y.c) != Dump(x.o, x.c)
    ensures Replaced([x, y], 0)
    ensures Run(EMPTY, [x, y]).dumps[DumpName(x.c.a)] != Dump(x.o, x.c)
  {
    hide Dump, Run, DumpName, Overwrites;
    assert [x, y][1] == y;
    assert Replaced([x, y], 0);
    DumpDescribedIff(EMPTY, [x, y], 0);
  }
}
