/** The report of main.cpp: how it is written and which fingerprints it holds. */
module Report {
  import opened Text
  import opened Json
  import opened JsonEscaping
  import opened JsonDoc
  import opened DocScan
  import opened JsonObject
  import opened Anomalies
  import opened FieldNames
  import opened ObjectReads
  import opened ShownFields

  const TOP_FIELDS := [
    Field("version", Bare("1")),
    Field("$schema", String("https://hollowdetect/schema/anomaly.json"))]

  // ----- the report as a document

  function ItemGroups(a: Anomaly): seq<seq<Field>> {
    [VERSION_FIELD, HeadFields(a), SizeField(a), PlaceFields(a), SectionFields(a), ImportFields(a), IsPeField(a),
     VerdictFields(a)]
  }

  function ItemDoc(a: Anomaly, d: Doc): Doc { GroupsDoc(ItemGroups(a), 0, NESTED, d) }

  function ItemsDoc(v: seq<Anomaly>, i: nat, d: Doc): Doc
    requires i <= |v|
    decreases |v| - i
  {
    if i == |v| then d else Raw("    {\n", ItemDoc(v[i], AfterItemDoc(v, i, d)))
  }

  function AfterItemDoc(v: seq<Anomaly>, i: nat, d: Doc): Doc
    requires i < |v|
    decreases |v| - i, 0
  {
    Raw("    ", Raw("}", Raw(if i + 1 < |v| then ",\n" else "\n", ItemsDoc(v, i + 1, d))))
  }

  const CLOSE_DOC := Raw("  ", Raw("]\n}\n", End("")))

  function ReportDoc(v: seq<Anomaly>): Doc {
    Raw("{\n", FieldsDoc(TOP_FIELDS, 0, TOP, true, ListDoc("items", ItemsDoc(v, 0, CLOSE_DOC))))
  }

  function ReportText(v: seq<Anomaly>): string { Render(ReportDoc(v)) }

  // ----- writing it

  method RenderItem(o: string, a: Anomaly, ghost d: Doc) returns (out: string)
    ensures out + Render(d) == o + Render(ItemDoc(a, d))
  {
    hide Render, GroupsText, GroupsDoc, ItemGroups;
    out := PutGroups(o, ItemGroups(a), NESTED);
    RenderGroups(ItemGroups(a), 0, NESTED, d);
    Assoc(o, GroupsText(ItemGroups(a), 0, NESTED), Render(d));
  }

  method RenderJson(v: seq<Anomaly>) returns (o: string)
    ensures o == ReportText(v)
  {
    hide Render, FieldsDoc, ItemDoc, JsonString, Raw;
    ghost var items := ItemsDoc(v, 0, CLOSE_DOC);
    ghost var all := Render(ReportDoc(v));
    ghost var head := ListDoc("items", items);
    PutRaw("", "{\n", FieldsDoc(TOP_FIELDS, 0, TOP, true, head));
    o := "" + "{\n";
    o := PutGroup(o, TOP_FIELDS, TOP, true, head);
    o := PutListName(o, "items", items);
    for i := 0 to |v|
      invariant o + Render(ItemsDoc(v, i, CLOSE_DOC)) == "" + all
    {
      ghost var after := AfterItemDoc(v, i, CLOSE_DOC);
      PutRaw(o, "    {\n", ItemDoc(v[i], after));
      o := o + "    {\n";
      o := RenderItem(o, v[i], after);
      var sep := if i + 1 < |v| then ",\n" else "\n";
      ghost var rest := ItemsDoc(v, i + 1, CLOSE_DOC);
      PutRaw(o, "    ", Raw("}", Raw(sep, rest)));
      o := o + "    ";
      PutRaw(o, "}", Raw(sep, rest));
      o := o + "}";
      PutRaw(o, sep, rest);
      o := o + sep;
    }
    CloseText();
    o := o + "  ]\n}\n";
  }

  lemma CloseText()
    ensures Render(CLOSE_DOC) == "  ]\n}\n"
  {
    RenderRaw("  ", Raw("]\n}\n", End("")));
    RenderRaw("]\n}\n", End(""));
    assert "]\n}\n" + "" == "]\n}\n";
    assert "  " + "]\n}\n" == "  ]\n}\n";
  }

  lemma ItemIsLong(a: Anomaly, d: Doc)
    ensures |Render(ItemDoc(a, d))| >= |Render(d)|
  {
    hide Render, GroupsText, GroupsDoc, ItemGroups;
    RenderGroups(ItemGroups(a), 0, NESTED, d);
  }

  /** Every item adds at least one byte. */
  lemma {:induction false} ItemsAreLong(v: seq<Anomaly>, i: nat, d: Doc)
    requires i <= |v|
    ensures |Render(ItemsDoc(v, i, d))| >= |v| - i
    decreases |v| - i
  {
    hide Render, ItemDoc, Raw;
    if i < |v| {
      ItemsAreLong(v, i + 1, d);
      var rest := ItemsDoc(v, i + 1, d);
      var sep := if i + 1 < |v| then ",\n" else "\n";
      RenderRaw(sep, rest);
      RenderRaw("}", Raw(sep, rest));
      RenderRaw("    ", Raw("}", Raw(sep, rest)));
      ItemIsLong(v[i], AfterItemDoc(v, i, d));
      RenderRaw("    {\n", ItemDoc(v[i], AfterItemDoc(v, i, d)));
    }
  }

  // ----- the objects of the items

  const ITEM_BOUNDS: seq<nat> := [0, 3, 7, 8, 12, 17, 21, 22, 26]

  lemma ItemReadable(a: Anomaly)
    ensures ReadableGroups(ItemGroups(a), ITEM_BOUNDS)
  {
    hide AreFields, AreKeys, BaresOk, RanksIn, NameRank;
    hide HeadFields, SizeField, PlaceFields, SectionFields, ImportFields, IsPeField, VerdictFields;
    StartReadable(a);
    PlaceReadable(a);
    SectionReadable(a);
    ImportsReadable(a);
    VerdictReadable(a);
    VersionWider();
    HeadRanks(a);
    SizeRanks(a);
    PlaceRanks(a);
    SectionRanks(a);
    ImportRanks(a);
    IsPeRanks(a);
    VerdictRanks(a);
  }

  lemma VersionWider()
    ensures RanksIn(VERSION_FIELD, 0, 3)
  {
    hide NameRank;
    VersionRanks();
  }

  /** An item as it stands in the report, from its opening to its closing brace. */
  function ItemText(a: Anomaly): string { ObjectText("{\n", ItemGroups(a), NESTED, "    }") }

  /** The items as they stand in the report, one below the other. */
  function ItemsText(v: seq<Anomaly>, i: nat): string
    requires i <= |v|
    decreases |v| - i
  {
    if i == |v| then "" else "    " + (ItemText(v[i]) + ((if i + 1 < |v| then ",\n" else "\n") + ItemsText(v, i + 1)))
  }

  /** An item shows every field of its finding under its own name. */
  lemma ItemShows(a: Anomaly)
    ensures var t := ItemText(a);
            && Reads(t, "version", Bare("1")) && ShowsHead(t, a) && ShowsSize(t, a) && ShowsPlace(t, a)
            && ShowsSection(t, a) && ShowsImports(t, a) && ShowsIsPe(t, a) && ShowsVerdict(t, a)
  {
    hide ObjectText, ReadableGroups, Reads, ShowsHead, ShowsSize, ShowsPlace, ShowsSection, ShowsImports, ShowsIsPe;
    hide ShowsVerdict, HeadFields, SizeField, PlaceFields, SectionFields, ImportFields, IsPeField, VerdictFields;
    var groups, t := ItemGroups(a), ItemText(a);
    ItemReadable(a);
    ClosingBrace();
    GroupsRead("{\n", groups, ITEM_BOUNDS, NESTED, "    }");
    assert AllRead(t, groups[0]) && AllRead(t, groups[1]) && AllRead(t, groups[2]) && AllRead(t, groups[3]);
    assert AllRead(t, groups[4]) && AllRead(t, groups[5]) && AllRead(t, groups[6]) && AllRead(t, groups[7]);
    HeadShown(t, a);
    SizeShown(t, a);
    PlaceShown(t, a);
    SectionShown(t, a);
    ImportsShown(t, a);
    IsPeShown(t, a);
    VerdictShown(t, a);
    assert Reads(t, VERSION_FIELD[0].name, VERSION_FIELD[0].value);
  }

  lemma ClosingBrace()
    ensures ClosesObject("    }", NESTED) && PlainGap("{\n")
  {
    SkipWsGap("    ", "}");
    SpacesSkip();
    assert "    " + "}" == "    }";
    assert SkipWs("}") == "}";
  }

  /** The report is its heading and its items. */
  lemma ReportIs(v: seq<Anomaly>)
    ensures ReportText(v) ==
            "{\n" + (FieldsText(TOP_FIELDS, 0, TOP, true) + ("  \"items\": [\n" + (ItemsText(v, 0) + "  ]\n}\n")))
  {
    hide Render, FieldsDoc, ItemDoc, JsonString, Raw, ItemsDoc, ItemsText, FieldsText, ListDoc;
    var items := ItemsDoc(v, 0, CLOSE_DOC);
    ItemsRender(v, 0);
    ListText(items);
    RenderFields(TOP_FIELDS, 0, TOP, true, ListDoc("items", items));
    RenderRaw("{\n", FieldsDoc(TOP_FIELDS, 0, TOP, true, ListDoc("items", items)));
  }

  lemma SchemaWritten()
    ensures JsonString("$schema") == Quote("$schema") && JsonString("version") == Quote("version")
  {
    hide Quote, JsonString;
    PlainWritten("$schema");
    PlainWritten("version");
  }

  lemma SchemaPlaceWritten()
    ensures JsonString("https://hollowdetect/schema/anomaly.json") == Quote("https://hollowdetect/schema/anomaly.json")
  {
    hide Quote, JsonString;
    PlainWritten("https://hollowdetect/schema/anomaly.json");
  }

  /** The heading of a report: its version and its schema. */
  lemma TopText()
    ensures FieldsText(TOP_FIELDS, 0, TOP, true) ==
            "  " + (Quote("version") + (": " + "1")) + (",\n" +
            ("  " + (Quote("$schema") + (": " + Quote("https://hollowdetect/schema/anomaly.json"))) + (",\n" + "")))
  {
    hide JsonString, Quote;
    SchemaWritten();
    SchemaPlaceWritten();
    assert FieldsText(TOP_FIELDS, 2, TOP, true) == "";
    assert FieldsText(TOP_FIELDS, 1, TOP, true) == FieldText(TOP_FIELDS[1], TOP) + (",\n" + "");
  }

  lemma ListText(d: Doc)
    ensures Render(ListDoc("items", d)) == "  \"items\": [\n" + Render(d)
  {
    hide Render, Raw;
    RenderRaw("[\n", d);
    RenderRaw(": ", Raw("[\n", d));
    RenderLit("items", Raw(": ", Raw("[\n", d)));
    RenderRaw("  ", Lit("items", Raw(": ", Raw("[\n", d))));
    ItemsName();
    assert "  " + ("\"items\"" + (": " + ("[\n" + Render(d)))) == "  \"items\": [\n" + Render(d);
  }

  lemma ItemsName()
    ensures JsonString("items") == "\"items\""
  {
    assert Plain("items");
    PlainUnchanged("items");
  }

  lemma {:induction false} ItemsRender(v: seq<Anomaly>, i: nat)
    requires i <= |v|
    ensures Render(ItemsDoc(v, i, CLOSE_DOC)) == ItemsText(v, i) + "  ]\n}\n"
    decreases |v| - i
  {
    hide Render, Raw, GroupsText, GroupsDoc, ItemGroups;
    if i == |v| {
      CloseText();
      assert "" + "  ]\n}\n" == "  ]\n}\n";
    } else {
      ItemsRender(v, i + 1);
      var rest := ItemsDoc(v, i + 1, CLOSE_DOC);
      var sep := if i + 1 < |v| then ",\n" else "\n";
      RenderRaw(sep, rest);
      RenderRaw("}", Raw(sep, rest));
      RenderRaw("    ", Raw("}", Raw(sep, rest)));
      var after := AfterItemDoc(v, i, CLOSE_DOC);
      RenderGroups(ItemGroups(v[i]), 0, NESTED, after);
      RenderRaw("    {\n", ItemDoc(v[i], after));
      ItemPieces(GroupsText(ItemGroups(v[i]), 0, NESTED), sep, ItemsText(v, i + 1));
    }
  }

  lemma ItemPieces(g: string, sep: string, rest: string)
    ensures "    {\n" + (g + ("    " + ("}" + (sep + (rest + "  ]\n}\n"))))) ==
            ("    " + (("{\n" + (g + "    }")) + (sep + rest))) + "  ]\n}\n"
  {
    assert "    {\n" == "    " + "{\n" && "    }" == "    " + "}";
  }

  // ----- the strings it holds

  lemma ItemHolds(a: Anomaly, d: Doc, key: string, m: nat, n: nat)
    requires WellFormed(d, key) && Closes(d, key) && IsKey(key)
    requires m < 8 && n < |ItemGroups(a)[m]| && ItemGroups(a)[m][n].name == key && ItemGroups(a)[m][n].value.String?
    ensures WellFormed(ItemDoc(a, d), key)
    ensures Values(ItemDoc(a, d), key) == NonEmpty(Some(Norm(ItemGroups(a)[m][n].value.s))) + Values(d, key)
  {
    hide WellFormed, Values, GroupsDoc, NotNamed, AreFields, Closes, IsKey, ItemGroups, Norm, GroupsRanked;
    hide GroupsValues, RanksIn;
    EightGroups(a);
    ItemReadable(a);
    var groups: seq<seq<Field>> := ItemGroups(a);
    OnlyOne(groups, ITEM_BOUNDS, m, n);
    forall j | 0 <= j < |groups|
      ensures StringUnder(groups[j], key)
    {
      if j != m {
        NotNamedIsString(groups[j], key);
      }
    }
    GroupsWellFormed(groups, 0, NESTED, d, key);
    GroupsHold(groups, 0, NESTED, d, key);
    OneValue(groups, 0, m, n, key);
  }

  lemma EightGroups(a: Anomaly)
    ensures |ItemGroups(a)| == 8
  {
  }

  lemma NotNamedIsString(fs: seq<Field>, key: string)
    requires NotNamed(fs, 0, key)
    ensures StringUnder(fs, key)
  {
  }

  /** Field `n` of group `m` of every item holds this string of its finding. */
  ghost predicate HoldsString(key: string, m: nat, n: nat, f: Anomaly -> string) {
    forall a: Anomaly :: HeldBy(a, key, m, n, f(a))
  }

  predicate HeldBy(a: Anomaly, key: string, m: nat, n: nat, s: string) {
    m < 8 && n < |ItemGroups(a)[m]| && ItemGroups(a)[m][n] == Field(key, String(s))
  }

  /** The non-empty strings of the items from index `i` on, as they read back. */
  function StringsOf(v: seq<Anomaly>, i: nat, f: Anomaly -> string): set<string>
    requires i <= |v|
    decreases |v| - i
  {
    if i == |v| then {} else NonEmpty(Some(Norm(f(v[i])))) + StringsOf(v, i + 1, f)
  }

  lemma {:induction false} StringsAre(v: seq<Anomaly>, i: nat, f: Anomaly -> string, s: string)
    requires i <= |v|
    ensures s in StringsOf(v, i, f) <==> exists j :: i <= j < |v| && f(v[j]) != "" && s == Norm(f(v[j]))
    decreases |v| - i
  {
    if i < |v| {
      StringsAre(v, i + 1, f, s);
      if s in NonEmpty(Some(Norm(f(v[i])))) {
        assert f(v[i]) != "" && s == Norm(f(v[i]));
      }
    }
  }

  lemma {:induction false} ItemsHold(v: seq<Anomaly>, i: nat, d: Doc, key: string, m: nat, n: nat, f: Anomaly -> string)
    requires i <= |v| && IsKey(key) && HoldsString(key, m, n, f)
    requires WellFormed(d, key) && Closes(d, key)
    ensures WellFormed(ItemsDoc(v, i, d), key)
    ensures Values(ItemsDoc(v, i, d), key) == StringsOf(v, i, f) + Values(d, key)
    decreases |v| - i
  {
    hide WellFormed, Values, ItemDoc, Raw, Closes, Norm, IsKey, ItemGroups;
    if i < |v| {
      ItemsHold(v, i + 1, d, key, m, n, f);
      var rest := ItemsDoc(v, i + 1, d);
      var sep := if i + 1 < |v| then ",\n" else "\n";
      var brace := Raw("}", Raw(sep, rest));
      BareWellFormed(sep, rest, key);
      BareWellFormed("}", Raw(sep, rest), key);
      BareWellFormed("    ", brace, key);
      RawCloses("}", Raw(sep, rest), key);
      SpacesSkip();
      RawSpaceCloses("    ", brace, key);
      assert HeldBy(v[i], key, m, n, f(v[i]));
      ItemHolds(v[i], AfterItemDoc(v, i, d), key, m, n);
      BareWellFormed("    {\n", ItemDoc(v[i], AfterItemDoc(v, i, d)), key);
    }
  }

  lemma TopFieldsOk()
    ensures AreFields(TOP_FIELDS)
  {
    HeadNames();
    assert NameLiteral("$schema");
  }

  lemma CloseHolds(key: string)
    requires IsKey(key)
    ensures WellFormed(CLOSE_DOC, key) && Closes(CLOSE_DOC, key) && Values(CLOSE_DOC, key) == {}
  {
    var b := Raw("]\n}\n", End(""));
    RawCloses("]\n}\n", End(""), key);
    RawWellFormed("]\n}\n", End(""), key);
    SpacesSkip();
    RawSpaceCloses("  ", b, key);
    RawWellFormed("  ", b, key);
  }

  /** Not used by the heading of a report. */
  predicate FreeKey(key: string) { key != "items" && NotNamed(TOP_FIELDS, 0, key) }

  lemma FreeByLength(key: string)
    requires |key| != 5 && (|key| == 7 ==> key[0] == 'p')
    ensures FreeKey(key)
  {
    assert |"items"| == 5 && |"version"| == |"$schema"| == 7;
    assert "version"[0] == 'v' && "$schema"[0] == '$';
  }

  lemma ReportHolds(v: seq<Anomaly>, key: string, m: nat, n: nat, f: Anomaly -> string)
    requires IsKey(key) && HoldsString(key, m, n, f) && FreeKey(key)
    ensures WellFormed(ReportDoc(v), key)
    ensures Values(ReportDoc(v), key) == StringsOf(v, 0, f)
  {
    hide WellFormed, Values, ItemDoc, Raw, Closes, Norm, ItemsDoc, FieldsDoc, ListDoc, AreFields, NotNamed, IsKey;
    hide HoldsString, FreeKey;
    FreeKeyIs(key);
    CloseHolds(key);
    ItemsHold(v, 0, CLOSE_DOC, key, m, n, f);
    ItemsIsName();
    var items := ItemsDoc(v, 0, CLOSE_DOC);
    ListHolds("items", items, key);
    TopFieldsOk();
    GroupAddsNothing(TOP_FIELDS, TOP, ListDoc("items", items), key);
    BareWellFormed("{\n", FieldsDoc(TOP_FIELDS, 0, TOP, true, ListDoc("items", items)), key);
  }

  lemma ItemsIsName()
    ensures NameLiteral("items")
  {
    WordIsKey("items");
  }

  lemma FreeKeyIs(key: string)
    requires FreeKey(key)
    ensures key != "items" && NotNamed(TOP_FIELDS, 0, key)
  {
  }

  lemma ReportTextIs(v: seq<Anomaly>)
    ensures ReportText(v) == Render(ReportDoc(v))
  {
  }

  lemma KeyIsName(key: string)
    requires IsKey(key)
    ensures NameLiteral(key)
  {
  }

  /** Collecting a string field from a written report gives exactly the non-empty strings the findings
      have there: nothing is missed, and nothing is picked up from another field. */
  lemma FieldReadsBack(v: seq<Anomaly>, key: string, m: nat, n: nat, f: Anomaly -> string)
    requires IsKey(key) && HoldsString(key, m, n, f) && FreeKey(key)
    ensures Collect(ReportText(v), key) == set i | 0 <= i < |v| && f(v[i]) != "" :: Norm(f(v[i]))
  {
    hide WellFormed, Values, ReportDoc, ReportText, Collect, Norm, HoldsString, FreeKey;
    ReportTextIs(v);
    KeyIsName(key);
    ReportHolds(v, key, m, n, f);
    CollectDoc(ReportDoc(v), key);
    forall s
      ensures s in StringsOf(v, 0, f) <==> s in (set i | 0 <= i < |v| && f(v[i]) != "" :: Norm(f(v[i])))
    {
      StringsAre(v, 0, f, s);
    }
  }

  lemma SeverityHeld()
    ensures HoldsString("severity", 7, 2, (a: Anomaly) => a.severity) && FreeKey("severity")
  {
    hide FreeKey, Decimal, HexDigits, JsonEntropy, Decimals, HeadFields, SizeField, PlaceFields, SectionFields;
    hide ImportFields, IsPeField;
    assert |"severity"| == 8;
    FreeByLength("severity");
  }

  lemma FingerprintHeld()
    ensures HoldsString("fingerprint", 7, 3, (a: Anomaly) => a.fingerprint) && FreeKey("fingerprint")
  {
    hide FreeKey, Decimal, HexDigits, JsonEntropy, Decimals, HeadFields, SizeField, PlaceFields, SectionFields;
    hide ImportFields, IsPeField;
    assert |"fingerprint"| == 11;
    FreeByLength("fingerprint");
  }

  /** Reading a written report gives exactly the non-empty fingerprints of its items, whatever the
      fields of the items contain. */
  lemma ReportReadsBack(v: seq<Anomaly>)
    ensures Collect(ReportText(v), KEY) ==
            set i | 0 <= i < |v| && v[i].fingerprint != "" :: Norm(v[i].fingerprint)
  {
    hide ReportText, Collect, Norm, HoldsString, IsKey, FreeKey;
    VerdictNames();
    FingerprintHeld();
    FieldReadsBack(v, KEY, 7, 3, (a: Anomaly) => a.fingerprint);
  }

  lemma ProcessHeld()
    ensures HoldsString("process", 1, 1, (a: Anomaly) => a.process) && FreeKey("process")
  {
    hide FreeKey, Decimal, HexDigits, JsonEntropy, Decimals, SizeField, PlaceFields, SectionFields;
    hide ImportFields, IsPeField, VerdictFields;
    assert |"process"| == 7 && "process"[0] == 'p';
    FreeByLength("process");
  }

  lemma BaseHeld()
    ensures HoldsString("base", 1, 2, (a: Anomaly) => ToHex64(a.base)) && FreeKey("base")
  {
    hide FreeKey, Decimal, HexDigits, JsonEntropy, Decimals, SizeField, PlaceFields, SectionFields;
    hide ImportFields, IsPeField, VerdictFields;
    assert |"base"| == 4;
    FreeByLength("base");
  }

  lemma AllocationBaseHeld()
    ensures HoldsString("allocation_base", 1, 3, (a: Anomaly) => ToHex64(a.allocationBase))
    ensures FreeKey("allocation_base")
  {
    hide FreeKey, Decimal, HexDigits, JsonEntropy, Decimals, SizeField, PlaceFields, SectionFields;
    hide ImportFields, IsPeField, VerdictFields;
    assert |"allocation_base"| == 15;
    FreeByLength("allocation_base");
  }

  lemma TypeHeld()
    ensures HoldsString("type", 3, 0, (a: Anomaly) => a.kind) && FreeKey("type")
  {
    hide FreeKey, Decimal, HexDigits, JsonEntropy, Decimals, HeadFields, SizeField, SectionFields, ImportFields;
    hide IsPeField, VerdictFields;
    assert |"type"| == 4;
    FreeByLength("type");
  }

  lemma ProtectHeld()
    ensures HoldsString("protect", 3, 1, (a: Anomaly) => a.protect) && FreeKey("protect")
  {
    hide FreeKey, Decimal, HexDigits, JsonEntropy, Decimals, HeadFields, SizeField, SectionFields, ImportFields;
    hide IsPeField, VerdictFields;
    assert |"protect"| == 7 && "protect"[0] == 'p';
    FreeByLength("protect");
  }

  lemma MappedPathHeld()
    ensures HoldsString("mapped_path", 3, 2, (a: Anomaly) => a.mappedPath) && FreeKey("mapped_path")
  {
    hide FreeKey, Decimal, HexDigits, JsonEntropy, Decimals, HeadFields, SizeField, SectionFields, ImportFields;
    hide IsPeField, VerdictFields;
    assert |"mapped_path"| == 11;
    FreeByLength("mapped_path");
  }

  lemma ModulePathHeld()
    ensures HoldsString("module_path", 3, 3, (a: Anomaly) => a.modulePath) && FreeKey("module_path")
  {
    hide FreeKey, Decimal, HexDigits, JsonEntropy, Decimals, HeadFields, SizeField, SectionFields, ImportFields;
    hide IsPeField, VerdictFields;
    assert |"module_path"| == 11;
    FreeByLength("module_path");
  }

  lemma SectionNameHeld()
    ensures HoldsString("section_name", 4, 0, (a: Anomaly) => a.sectionName) && FreeKey("section_name")
  {
    hide FreeKey, Decimal, HexDigits, JsonEntropy, Decimals, HeadFields, SizeField, PlaceFields, ImportFields;
    hide IsPeField, VerdictFields;
    assert |"section_name"| == 12;
    FreeByLength("section_name");
  }

  lemma SectionFlagsHeld()
    ensures HoldsString("section_flags", 4, 1, (a: Anomaly) => a.sectionFlags) && FreeKey("section_flags")
  {
    hide FreeKey, Decimal, HexDigits, JsonEntropy, Decimals, HeadFields, SizeField, PlaceFields, ImportFields;
    hide IsPeField, VerdictFields;
    assert |"section_flags"| == 13;
    FreeByLength("section_flags");
  }

  /** The other string fields of a report: process and bases. */
  lemma HeadReadsBack(v: seq<Anomaly>)
    ensures Collect(ReportText(v), "process") == set i | 0 <= i < |v| && v[i].process != "" :: Norm(v[i].process)
    ensures Collect(ReportText(v), "base") ==
            set i | 0 <= i < |v| && ToHex64(v[i].base) != "" :: Norm(ToHex64(v[i].base))
    ensures Collect(ReportText(v), "allocation_base") ==
            set i | 0 <= i < |v| && ToHex64(v[i].allocationBase) != "" :: Norm(ToHex64(v[i].allocationBase))
  {
    hide ReportText, Collect, Norm, HoldsString, IsKey, FreeKey, ToHex64;
    HeadNames();
    ProcessHeld();
    BaseHeld();
    AllocationBaseHeld();
    FieldReadsBack(v, "process", 1, 1, (a: Anomaly) => a.process);
    FieldReadsBack(v, "base", 1, 2, (a: Anomaly) => ToHex64(a.base));
    FieldReadsBack(v, "allocation_base", 1, 3, (a: Anomaly) => ToHex64(a.allocationBase));
  }

  /** Type, protection and the two paths. */
  lemma PlaceReadsBack(v: seq<Anomaly>)
    ensures Collect(ReportText(v), "type") == set i | 0 <= i < |v| && v[i].kind != "" :: Norm(v[i].kind)
    ensures Collect(ReportText(v), "protect") == set i | 0 <= i < |v| && v[i].protect != "" :: Norm(v[i].protect)
    ensures Collect(ReportText(v), "mapped_path") ==
            set i | 0 <= i < |v| && v[i].mappedPath != "" :: Norm(v[i].mappedPath)
    ensures Collect(ReportText(v), "module_path") ==
            set i | 0 <= i < |v| && v[i].modulePath != "" :: Norm(v[i].modulePath)
  {
    hide ReportText, Collect, Norm, HoldsString, IsKey, FreeKey;
    PlaceNames();
    TypeHeld();
    ProtectHeld();
    MappedPathHeld();
    ModulePathHeld();
    FieldReadsBack(v, "type", 3, 0, (a: Anomaly) => a.kind);
    FieldReadsBack(v, "protect", 3, 1, (a: Anomaly) => a.protect);
    FieldReadsBack(v, "mapped_path", 3, 2, (a: Anomaly) => a.mappedPath);
    FieldReadsBack(v, "module_path", 3, 3, (a: Anomaly) => a.modulePath);
  }

  /** Section name and flags, and the severity. */
  lemma SectionReadsBack(v: seq<Anomaly>)
    ensures Collect(ReportText(v), "section_name") ==
            set i | 0 <= i < |v| && v[i].sectionName != "" :: Norm(v[i].sectionName)
    ensures Collect(ReportText(v), "section_flags") ==
            set i | 0 <= i < |v| && v[i].sectionFlags != "" :: Norm(v[i].sectionFlags)
    ensures Collect(ReportText(v), "severity") == set i | 0 <= i < |v| && v[i].severity != "" :: Norm(v[i].severity)
  {
    hide ReportText, Collect, Norm, HoldsString, IsKey, FreeKey;
    SectionNames();
    SectionNameHeld();
    SectionFlagsHeld();
    VerdictNames();
    SeverityHeld();
    FieldReadsBack(v, "section_name", 4, 0, (a: Anomaly) => a.sectionName);
    FieldReadsBack(v, "section_flags", 4, 1, (a: Anomaly) => a.sectionFlags);
    FieldReadsBack(v, "severity", 7, 2, (a: Anomaly) => a.severity);
  }
}
