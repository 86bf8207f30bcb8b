/** The names of the fields the tool writes, told apart by a number, so that every object's fields can be
    shown to have different names. */
module FieldNames {
  import opened JsonObject
  import opened Anomalies

  /** Length, second and second last character. */
  function NameCode(s: string): nat {
    if |s| < 2 then 0 else 1_000_000 * |s| + 1000 * (s[1] as int) + s[|s| - 2] as int
  }

  /** The position of a name among all names, in the order they are written. */
  function NameRank(s: string): nat {
    match NameCode(s)
    case 7_101_111 => 0
    case 12_111_111 => 1
    case 15_097_116 => 2
    case 3_105_105 => 3
    case 7_114_115 => 4
    case 4_097_115 => 5
    case 15_108_115 => 6
    case 4_105_122 => 7
    case 4_121_112 => 8
    case 7_114_099 => 9
    case 11_097_116 => 10
    case 11_111_116 => 11
    case 12_101_109 => 12
    case 13_101_103 => 13
    case 14_101_112 => 14
    case 15_101_112 => 15
    case 12_118_122 => 16
    case 11_109_108 => 17
    case 12_109_101 => 18
    case 12_120_101 => 19
    case 8_112_103 => 20
    case 5_115_112 => 21
    case 7_101_110 => 22
    case 10_104_100 => 23
    case 8_101_116 => 24
    case 11_105_110 => 25
    case 9_117_108 => 26
    case 13_101_108 => 27
    case 9_117_122 => 28
    case 11_117_053 => 29
    case 9_108_110 => 30
    case 9_101_110 => 31
    case 11_100_110 => 32
    case 13_101_110 => 33
    case 5_100_101 => 34
    case 7_101_101 => 35
    case _ => 99
  }

  /** The fields have ranks from `lo` to below `hi`, increasing. */
  predicate RanksIn(fs: seq<Field>, lo: nat, hi: nat) {
    && (forall i | 0 <= i < |fs| :: lo <= NameRank(fs[i].name) < hi)
    && (forall i, j | 0 <= i < j < |fs| :: NameRank(fs[i].name) < NameRank(fs[j].name))
  }

  /** Group `i` has ranks from bound `i` to bound `i + 1`. */
  predicate GroupsRanked(groups: seq<seq<Field>>, bounds: seq<nat>) {
    && |bounds| == |groups| + 1
    && (forall i, j | 0 <= i <= j < |bounds| :: bounds[i] <= bounds[j])
    && (forall i | 0 <= i < |groups| :: RanksIn(groups[i], bounds[i], bounds[i + 1]))
  }

  /** Only field `n` of group `m` has its name. */
  lemma OnlyOne(groups: seq<seq<Field>>, bounds: seq<nat>, m: nat, n: nat)
    requires GroupsRanked(groups, bounds) && m < |groups| && n < |groups[m]|
    ensures forall j | 0 <= j < |groups| && j != m :: NotNamed(groups[j], 0, groups[m][n].name)
    ensures forall i | 0 <= i < |groups[m]| && i != n :: groups[m][i].name != groups[m][n].name
  {
    hide NameRank;
    var key := groups[m][n].name;
    forall j | 0 <= j < |groups| && j != m
      ensures NotNamed(groups[j], 0, key)
    {
      assert RanksIn(groups[j], bounds[j], bounds[j + 1]) && RanksIn(groups[m], bounds[m], bounds[m + 1]);
      assert j < m ==> bounds[j + 1] <= bounds[m];
      assert j > m ==> bounds[m + 1] <= bounds[j];
    }
    assert RanksIn(groups[m], bounds[m], bounds[m + 1]);
  }

  lemma RankOfVersion()
    ensures NameRank("version") == 0
  {
    assert NameCode("version") == 7_101_111;
  }

  lemma RankOfToolVersion()
    ensures NameRank("tool_version") == 1
  {
    assert NameCode("tool_version") == 12_111_111;
  }

  lemma RankOfCapturedAtUtc()
    ensures NameRank("captured_at_utc") == 2
  {
    assert NameCode("captured_at_utc") == 15_097_116;
  }

  lemma RankOfPid()
    ensures NameRank("pid") == 3
  {
    assert NameCode("pid") == 3_105_105;
  }

  lemma RankOfProcess()
    ensures NameRank("process") == 4
  {
    assert NameCode("process") == 7_114_115;
  }

  lemma RankOfBase()
    ensures NameRank("base") == 5
  {
    assert NameCode("base") == 4_097_115;
  }

  lemma RankOfAllocationBase()
    ensures NameRank("allocation_base") == 6
  {
    assert NameCode("allocation_base") == 15_108_115;
  }

  lemma RankOfSize()
    ensures NameRank("size") == 7
  {
    assert NameCode("size") == 4_105_122;
  }

  lemma RankOfType()
    ensures NameRank("type") == 8
  {
    assert NameCode("type") == 4_121_112;
  }

  lemma RankOfProtect()
    ensures NameRank("protect") == 9
  {
    assert NameCode("protect") == 7_114_099;
  }

  lemma RankOfMappedPath()
    ensures NameRank("mapped_path") == 10
  {
    assert NameCode("mapped_path") == 11_097_116;
  }

  lemma RankOfModulePath()
    ensures NameRank("module_path") == 11
  {
    assert NameCode("module_path") == 11_111_116;
  }

  lemma RankOfSectionName()
    ensures NameRank("section_name") == 12
  {
    assert NameCode("section_name") == 12_101_109;
  }

  lemma RankOfSectionFlags()
    ensures NameRank("section_flags") == 13
  {
    assert NameCode("section_flags") == 13_101_103;
  }

  lemma RankOfRegionEntropy()
    ensures NameRank("region_entropy") == 14
  {
    assert NameCode("region_entropy") == 14_101_112;
  }

  lemma RankOfSectionEntropy()
    ensures NameRank("section_entropy") == 15
  {
    assert NameCode("section_entropy") == 15_101_112;
  }

  lemma RankOfOverlaySize()
    ensures NameRank("overlay_size") == 16
  {
    assert NameCode("overlay_size") == 12_118_122;
  }

  lemma RankOfImportDlls()
    ensures NameRank("import_dlls") == 17
  {
    assert NameCode("import_dlls") == 11_109_108;
  }

  lemma RankOfImportNames()
    ensures NameRank("import_names") == 18
  {
    assert NameCode("import_names") == 12_109_101;
  }

  lemma RankOfExportNames()
    ensures NameRank("export_names") == 19
  {
    assert NameCode("export_names") == 12_120_101;
  }

  lemma RankOfApiTags()
    ensures NameRank("api_tags") == 20
  {
    assert NameCode("api_tags") == 8_112_103;
  }

  lemma RankOfIsPe()
    ensures NameRank("is_pe") == 21
  {
    assert NameCode("is_pe") == 5_115_112;
  }

  lemma RankOfReasons()
    ensures NameRank("reasons") == 22
  {
    assert NameCode("reasons") == 7_101_110;
  }

  lemma RankOfThreadIds()
    ensures NameRank("thread_ids") == 23
  {
    assert NameCode("thread_ids") == 10_104_100;
  }

  lemma RankOfSeverity()
    ensures NameRank("severity") == 24
  {
    assert NameCode("severity") == 8_101_116;
  }

  lemma RankOfFingerprint()
    ensures NameRank("fingerprint") == 25
  {
    assert NameCode("fingerprint") == 11_105_110;
  }

  lemma RankOfDumpFile()
    ensures NameRank("dump_file") == 26
  {
    assert NameCode("dump_file") == 9_117_108;
  }

  lemma RankOfMetadataFile()
    ensures NameRank("metadata_file") == 27
  {
    assert NameCode("metadata_file") == 13_101_108;
  }

  lemma RankOfDumpSize()
    ensures NameRank("dump_size") == 28
  {
    assert NameCode("dump_size") == 9_117_122;
  }

  lemma RankOfDumpSha256()
    ensures NameRank("dump_sha256") == 29
  {
    assert NameCode("dump_sha256") == 11_117_053;
  }

  lemma RankOfOldCount()
    ensures NameRank("old_count") == 30
  {
    assert NameCode("old_count") == 9_108_110;
  }

  lemma RankOfNewCount()
    ensures NameRank("new_count") == 31
  {
    assert NameCode("new_count") == 9_101_110;
  }

  lemma RankOfAddedCount()
    ensures NameRank("added_count") == 32
  {
    assert NameCode("added_count") == 11_100_110;
  }

  lemma RankOfRemovedCount()
    ensures NameRank("removed_count") == 33
  {
    assert NameCode("removed_count") == 13_101_110;
  }

  lemma RankOfAdded()
    ensures NameRank("added") == 34
  {
    assert NameCode("added") == 5_100_101;
  }

  lemma RankOfRemoved()
    ensures NameRank("removed") == 35
  {
    assert NameCode("removed") == 7_101_101;
  }

  lemma VersionRanks()
    ensures RanksIn(VERSION_FIELD, 0, 1)
  {
    hide NameRank;
    RankOfVersion();
  }

  lemma HeadRanks(a: Anomaly)
    ensures RanksIn(HeadFields(a), 3, 7)
  {
    hide NameRank;
    RankOfPid();
    RankOfProcess();
    RankOfBase();
    RankOfAllocationBase();
  }

  lemma SizeRanks(a: Anomaly)
    ensures RanksIn(SizeField(a), 7, 8)
  {
    hide NameRank;
    RankOfSize();
  }

  lemma PlaceRanks(a: Anomaly)
    ensures RanksIn(PlaceFields(a), 8, 12)
  {
    hide NameRank;
    RankOfType();
    RankOfProtect();
    RankOfMappedPath();
    RankOfModulePath();
  }

  lemma SectionRanks(a: Anomaly)
    ensures RanksIn(SectionFields(a), 12, 17)
  {
    hide NameRank;
    RankOfSectionName();
    RankOfSectionFlags();
    RankOfRegionEntropy();
    RankOfSectionEntropy();
    RankOfOverlaySize();
  }

  lemma ImportRanks(a: Anomaly)
    ensures RanksIn(ImportFields(a), 17, 21)
  {
    hide NameRank;
    RankOfImportDlls();
    RankOfImportNames();
    RankOfExportNames();
    RankOfApiTags();
  }

  lemma IsPeRanks(a: Anomaly)
    ensures RanksIn(IsPeField(a), 21, 22)
  {
    hide NameRank;
    RankOfIsPe();
  }

  lemma VerdictRanks(a: Anomaly)
    ensures RanksIn(VerdictFields(a), 22, 26)
  {
    hide NameRank;
    RankOfReasons();
    RankOfThreadIds();
    RankOfSeverity();
    RankOfFingerprint();
  }
}
