/** One finding of the scanner, and the fields it is written with. Wide strings stand as their UTF-8
    bytes; the two conversions are taken to be inverse to each other. */
module Anomalies {
  import opened Text
  import opened JsonDoc
  import opened JsonObject

  datatype Anomaly = Anomaly(
    pid: nat,
    process: string,
    base: nat,
    allocationBase: nat,
    size: nat,
    kind: string,
    protect: string,
    mappedPath: string,
    modulePath: string,
    sectionName: string,
    sectionFlags: string,
    regionEntropy: real,
    sectionEntropy: real,
    overlaySize: nat,
    importDlls: seq<string>,
    importNames: seq<string>,
    exportNames: seq<string>,
    apiTags: seq<string>,
    isPe: bool,
    reasons: seq<string>,
    severity: string,
    fingerprint: string,
    threadIds: seq<nat>)

  /** A non-negative number with three decimals. */
  function Fixed3(v: real): string
    requires v >= 0.0
  {
    var n := (v * 1000.0 + 0.5).Floor;
    Decimal(n / 1000) + "." + [Digit(n % 1000 / 100), Digit(n % 100 / 10), Digit(n % 10)]
  }

  function JsonEntropy(v: real): (s: string)
    ensures PlainGap(s)
  {
    if v < 0.0 then "null" else Fixed3(v)
  }

  function BoolText(b: bool): string { if b then "true" else "false" }

  predicate IsWord(s: string) {
    s != "" && 'a' <= s[0] <= 'z' && forall i | 0 <= i < |s| :: 'a' <= s[i] <= 'z' || s[i] == '_'
  }

  lemma WordIsKey(s: string)
    requires IsWord(s)
    ensures IsKey(s)
  {
  }

  // ----- fields, in the groups that reports and evidence records share

  function HeadFields(a: Anomaly): seq<Field> {
    [Field("pid", Bare(Decimal(a.pid))),
     Field("process", String(a.process)),
     Field("base", String(ToHex64(a.base))),
     Field("allocation_base", String(ToHex64(a.allocationBase)))]
  }

  function SizeField(a: Anomaly): seq<Field> { [Field("size", Bare(Decimal(a.size)))] }

  function PlaceFields(a: Anomaly): seq<Field> {
    [Field("type", String(a.kind)),
     Field("protect", String(a.protect)),
     Field("mapped_path", String(a.mappedPath)),
     Field("module_path", String(a.modulePath))]
  }

  function SectionFields(a: Anomaly): seq<Field> {
    [Field("section_name", String(a.sectionName)),
     Field("section_flags", String(a.sectionFlags)),
     Field("region_entropy", Bare(JsonEntropy(a.regionEntropy))),
     Field("section_entropy", Bare(JsonEntropy(a.sectionEntropy))),
     Field("overlay_size", Bare(Decimal(a.overlaySize)))]
  }

  function ImportFields(a: Anomaly): seq<Field> {
    [Field("import_dlls", Strings(a.importDlls)),
     Field("import_names", Strings(a.importNames)),
     Field("export_names", Strings(a.exportNames)),
     Field("api_tags", Strings(a.apiTags))]
  }

  function IsPeField(a: Anomaly): seq<Field> { [Field("is_pe", Bare(BoolText(a.isPe)))] }

  function VerdictFields(a: Anomaly): seq<Field> {
    [Field("reasons", Strings(a.reasons)),
     Field("thread_ids", Bares(Decimals(a.threadIds))),
     Field("severity", String(a.severity)),
     Field("fingerprint", String(a.fingerprint))]
  }

  /** The field that snapshots are compared by. */
  const KEY := "fingerprint"

  const VERSION_FIELD := [Field("version", Bare("1"))]

  lemma DecimalsPlain(ns: seq<nat>)
    ensures forall i | 0 <= i < |ns| :: PlainGap(Decimals(ns)[i])
  {
    forall i | 0 <= i < |ns|
      ensures PlainGap(Decimals(ns)[i])
    {
      DigitsPlain(Decimal(ns[i]));
    }
  }

  lemma HeadNames()
    ensures IsKey("pid")
    ensures IsKey("process")
    ensures IsKey("base")
    ensures IsKey("allocation_base")
    ensures IsKey("size")
    ensures IsKey("version")
  {
    WordIsKey("pid");
    WordIsKey("process");
    WordIsKey("base");
    WordIsKey("allocation_base");
    WordIsKey("size");
    WordIsKey("version");
  }

  lemma HeadFieldsOk(a: Anomaly)
    ensures AreFields(HeadFields(a)) && AreFields(SizeField(a)) && AreFields(VERSION_FIELD)
  {
    hide NameLiteral;
    HeadNames();
  }

  lemma PlaceNames()
    ensures IsKey("type")
    ensures IsKey("protect")
    ensures IsKey("mapped_path")
    ensures IsKey("module_path")
  {
    WordIsKey("type");
    WordIsKey("protect");
    WordIsKey("mapped_path");
    WordIsKey("module_path");
  }

  lemma PlaceFieldsOk(a: Anomaly)
    ensures AreFields(PlaceFields(a))
  {
    hide NameLiteral;
    PlaceNames();
  }

  lemma SectionNames()
    ensures IsKey("section_name")
    ensures IsKey("section_flags")
    ensures IsKey("region_entropy")
    ensures IsKey("section_entropy")
    ensures IsKey("overlay_size")
  {
    WordIsKey("section_name");
    WordIsKey("section_flags");
    WordIsKey("region_entropy");
    WordIsKey("section_entropy");
    WordIsKey("overlay_size");
  }

  lemma SectionFieldsOk(a: Anomaly)
    ensures AreFields(SectionFields(a))
  {
    hide NameLiteral;
    SectionNames();
  }

  lemma ImportNames()
    ensures IsKey("import_dlls")
    ensures IsKey("import_names")
    ensures IsKey("export_names")
    ensures IsKey("api_tags")
    ensures IsKey("is_pe")
  {
    WordIsKey("import_dlls");
    WordIsKey("import_names");
    WordIsKey("export_names");
    WordIsKey("api_tags");
    WordIsKey("is_pe");
  }

  lemma ImportFieldsOk(a: Anomaly)
    ensures AreFields(ImportFields(a)) && AreFields(IsPeField(a))
  {
    hide NameLiteral;
    ImportNames();
  }

  lemma VerdictNames()
    ensures IsKey("reasons")
    ensures IsKey("thread_ids")
    ensures IsKey("severity")
    ensures IsKey("fingerprint")
  {
    WordIsKey("reasons");
    WordIsKey("thread_ids");
    WordIsKey("severity");
    WordIsKey("fingerprint");
  }

  lemma VerdictFieldsOk(a: Anomaly)
    ensures AreFields(VerdictFields(a))
  {
    hide NameLiteral;
    VerdictNames();
    DecimalsPlain(a.threadIds);
  }
}
