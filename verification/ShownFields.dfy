/** What an object that describes a finding shows, name by name. Reports, metadata files and manifest
    records share these groups of fields. */
module ShownFields {
  import opened Text
  import opened Json
  import opened JsonObject
  import opened Anomalies
  import opened ObjectReads

  ghost predicate ShowsHead(text: string, a: Anomaly) {
    && Reads(text, "pid", Bare(Decimal(a.pid)))
    && Reads(text, "process", String(a.process))
    && Reads(text, "base", String(ToHex64(a.base)))
    && Reads(text, "allocation_base", String(ToHex64(a.allocationBase)))
  }

  ghost predicate ShowsSize(text: string, a: Anomaly) { Reads(text, "size", Bare(Decimal(a.size))) }

  ghost predicate ShowsPlace(text: string, a: Anomaly) {
    && Reads(text, "type", String(a.kind))
    && Reads(text, "protect", String(a.protect))
    && Reads(text, "mapped_path", String(a.mappedPath))
    && Reads(text, "module_path", String(a.modulePath))
  }

  ghost predicate ShowsSection(text: string, a: Anomaly) {
    && Reads(text, "section_name", String(a.sectionName))
    && Reads(text, "section_flags", String(a.sectionFlags))
    && Reads(text, "region_entropy", Bare(JsonEntropy(a.regionEntropy)))
    && Reads(text, "section_entropy", Bare(JsonEntropy(a.sectionEntropy)))
    && Reads(text, "overlay_size", Bare(Decimal(a.overlaySize)))
  }

  ghost predicate ShowsImports(text: string, a: Anomaly) {
    && Reads(text, "import_dlls", Strings(a.importDlls))
    && Reads(text, "import_names", Strings(a.importNames))
    && Reads(text, "export_names", Strings(a.exportNames))
    && Reads(text, "api_tags", Strings(a.apiTags))
  }

  ghost predicate ShowsIsPe(text: string, a: Anomaly) {
    Reads(text, "is_pe", Bare(if a.isPe then "true" else "false"))
  }

  ghost predicate ShowsVerdict(text: string, a: Anomaly) {
    && Reads(text, "reasons", Strings(a.reasons))
    && Reads(text, "thread_ids", Bares(Decimals(a.threadIds)))
    && Reads(text, "severity", String(a.severity))
    && Reads(text, "fingerprint", String(a.fingerprint))
  }

  // ----- from the groups

  lemma HeadShown(text: string, a: Anomaly)
    requires AllRead(text, HeadFields(a))
    ensures ShowsHead(text, a)
  {
    hide Reads;
    var fs := HeadFields(a);
    assert Reads(text, fs[0].name, fs[0].value) && Reads(text, fs[1].name, fs[1].value);
    assert Reads(text, fs[2].name, fs[2].value) && Reads(text, fs[3].name, fs[3].value);
  }

  lemma SizeShown(text: string, a: Anomaly)
    requires AllRead(text, SizeField(a))
    ensures ShowsSize(text, a)
  {
    hide Reads;
    assert Reads(text, SizeField(a)[0].name, SizeField(a)[0].value);
  }

  lemma PlaceShown(text: string, a: Anomaly)
    requires AllRead(text, PlaceFields(a))
    ensures ShowsPlace(text, a)
  {
    hide Reads;
    var fs := PlaceFields(a);
    assert Reads(text, fs[0].name, fs[0].value) && Reads(text, fs[1].name, fs[1].value);
    assert Reads(text, fs[2].name, fs[2].value) && Reads(text, fs[3].name, fs[3].value);
  }

  lemma SectionShown(text: string, a: Anomaly)
    requires AllRead(text, SectionFields(a))
    ensures ShowsSection(text, a)
  {
    hide Reads, JsonEntropy;
    var fs := SectionFields(a);
    assert Reads(text, fs[0].name, fs[0].value) && Reads(text, fs[1].name, fs[1].value);
    assert Reads(text, fs[2].name, fs[2].value) && Reads(text, fs[3].name, fs[3].value);
    assert Reads(text, fs[4].name, fs[4].value);
  }

  lemma ImportsShown(text: string, a: Anomaly)
    requires AllRead(text, ImportFields(a))
    ensures ShowsImports(text, a)
  {
    hide Reads;
    var fs := ImportFields(a);
    assert Reads(text, fs[0].name, fs[0].value) && Reads(text, fs[1].name, fs[1].value);
    assert Reads(text, fs[2].name, fs[2].value) && Reads(text, fs[3].name, fs[3].value);
  }

  lemma IsPeShown(text: string, a: Anomaly)
    requires AllRead(text, IsPeField(a))
    ensures ShowsIsPe(text, a)
  {
    hide Reads;
    assert Reads(text, IsPeField(a)[0].name, IsPeField(a)[0].value);
  }

  lemma VerdictShown(text: string, a: Anomaly)
    requires AllRead(text, VerdictFields(a))
    ensures ShowsVerdict(text, a)
  {
    hide Reads, Decimals;
    var fs := VerdictFields(a);
    assert Reads(text, fs[0].name, fs[0].value) && Reads(text, fs[1].name, fs[1].value);
    assert Reads(text, fs[2].name, fs[2].value) && Reads(text, fs[3].name, fs[3].value);
  }

  // ----- the groups can be read

  predicate ReadableFields(fs: seq<Field>) { AreFields(fs) && AreKeys(fs) && BaresOk(fs) }

  lemma DecimalStarts(n: nat)
    ensures Decimal(n) != "" && !IsSpace(Decimal(n)[0])
  {
    hide Decimal;
    assert IsDigit(Decimal(n)[0]);
  }

  lemma EntropyStarts(v: real)
    ensures JsonEntropy(v) != "" && !IsSpace(JsonEntropy(v)[0])
  {
    hide Decimal;
    if v >= 0.0 {
      DecimalStarts((v * 1000.0 + 0.5).Floor / 1000);
    }
  }

  lemma StartReadable(a: Anomaly)
    ensures ReadableFields(VERSION_FIELD) && ReadableFields(HeadFields(a)) && ReadableFields(SizeField(a))
  {
    hide IsKey, Decimal, IsField;
    HeadFieldsOk(a);
    HeadNames();
    DecimalStarts(a.pid);
    DecimalStarts(a.size);
  }

  lemma PlaceReadable(a: Anomaly)
    ensures ReadableFields(PlaceFields(a))
  {
    hide IsKey, IsField;
    PlaceFieldsOk(a);
    PlaceNames();
  }

  lemma SectionReadable(a: Anomaly)
    ensures ReadableFields(SectionFields(a))
  {
    hide IsKey, Decimal, JsonEntropy, IsField;
    SectionFieldsOk(a);
    SectionNames();
    DecimalStarts(a.overlaySize);
    EntropyStarts(a.regionEntropy);
    EntropyStarts(a.sectionEntropy);
  }

  lemma ImportsReadable(a: Anomaly)
    ensures ReadableFields(ImportFields(a)) && ReadableFields(IsPeField(a))
  {
    hide IsKey, IsField;
    ImportFieldsOk(a);
    ImportNames();
  }

  lemma VerdictReadable(a: Anomaly)
    ensures ReadableFields(VerdictFields(a))
  {
    hide IsKey, Decimals, IsField;
    VerdictFieldsOk(a);
    VerdictNames();
  }

  // ----- entropies

  /** A number of thousandths, with its point. */
  function Thousandths(n: nat): string {
    Decimal(n / 1000) + "." + [Digit(n % 1000 / 100), Digit(n % 100 / 10), Digit(n % 10)]
  }

  lemma Nearest(x: real)
    requires x >= 0.0
    ensures var n := (x + 0.5).Floor; n >= 0 && x - 0.5 <= n as real <= x + 0.5
  {
  }

  ghost predicate NearThousandths(v: real, n: nat) { v * 1000.0 - 0.5 <= n as real <= v * 1000.0 + 0.5 }

  /** An entropy is written as the nearest number of thousandths; a missing one as null. */
  lemma EntropyText(v: real)
    ensures v < 0.0 ==> JsonEntropy(v) == "null"
    ensures v >= 0.0 ==> exists n: nat :: NearThousandths(v, n) && JsonEntropy(v) == Thousandths(n)
  {
    hide Decimal, Digit;
    if v >= 0.0 {
      Nearest(v * 1000.0);
      var n: nat := (v * 1000.0 + 0.5).Floor;
      assert NearThousandths(v, n);
    }
  }
}
