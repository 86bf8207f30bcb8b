# HollowDetect: a verified model

HollowDetect walks the memory of Windows processes, classifies suspicious regions, writes JSON reports,
baselines and an evidence log, and reads its own files back. These Dafny modules model that logic and
prove what it is meant to guarantee. All results hold for every input unless a row says otherwise.

**JSON.** `Json` models the writer and the scanner of `json.cpp`. The scanner is not a parser: after a
string that is not followed by a colon it restarts one byte later, inside the string it just read, so it
can read the end of a value, or the text between two strings, as a name. `JsonDoc` views a written file as
literals separated by gaps and follows the scanner through every misaligned position; `DocScan` does the
same for the reader that looks for every occurrence of a quoted key. `JsonObject` and `JsonArrays` give the
layouts in which `Report`, `Baseline`, `Snapshot`, `EvidenceText` and `Evidence` write their files;
`FieldNames`, `ObjectReads` and `ShownFields` show that every field reads back by its own name. Control
bytes without a short escape come back as `?`, so round trips are stated up to `Norm`, and `NormExact` says
when they are exact. Byte strings are Dafny strings; nothing depends on a character being below 256.

**PE.** `PeFormat` gives the layout of the Microsoft PE Format specification, with the limits and fallbacks
of `peparse.cpp`, as functions of the bytes. `PeParse` holds the loops over a byte array, with offsets in a
64-bit and header fields in a 32-bit type, so that verification of the bodies shows every read in bounds
and every sum free of wrap-around. `PeEncoding` writes the structures of the specification
as lists of fields, and `PeImage` shows that images given by their bytes parse to what they encode.
`PeProperties`, `PeFlat`, `PePrefix` and `FileFacts` prove what else the reading promises.

**Scan.** `Memory` describes a process as the system shows it: answers to region queries, bytes by address,
mapped paths, modules, thread starts and files. `Classify` is the cache-free meaning of one region and of
the walk. `Scan` holds `ScanPid` as a class with its cursor, both caches, output and evidence counter,
proved against `Classify`. `FindingFields` says what every field of a finding is in terms of the
answers of the system. `Metadata`, `ApiTags`, `ReasonLists`, `Signals`, `Walk`, `Relocation`, `Restart`,
`FingerprintInjective` and `BaselineCycle` prove properties of whole scans and of the commands built on them.

**Evidence.** `Evidence` is a state machine over captures that may stop at any step, over the directory
object `EvidenceDirectory`, which `Scan` writes to and `ScanEvidence` relates to the findings; `TextLines`
splits texts into lines as `std::getline` does.

`dafny verify dfyconfig.toml` checks everything.

Where the code and its documentation differ, the model follows the code, and `Documented` and
`ScanEvidence` prove exactly when they agree, with an input where they do not:

- Line 41 of the repository's README.md speaks of the first readable region of an image allocation. The code
  looks at the region at the allocation base, also when reading it fails (`NotMzAsDocumentedIff`).
- Line 42 of the repository's README.md speaks of a PE identity that differs from the mapped file. The code
  skips managed images and files that are no PE (`MismatchAsDocumentedIff`), and its identity is six header
  fields (`DifferingBytesIff`).
- Line 47 of the repository's README.md speaks of high entropy in an already suspicious region. The code also
  reports an executable private region for its entropy alone (`EntropyAsDocumentedIff`).
- Line 3 of the repository's README.md speaks of evidence for each finding. The code calls the
  writer for the first 16 of each process, and a call can write nothing; `ScanEvidence.EvidenceForEachIff`
  says exactly when every finding has its record.
- A written report or baseline beyond 64 MiB cannot be read back (src/core/json.cpp:175);
  `Snapshot.SnapshotRoundTrip`, `Baseline.ExactRoundTrip` and `BaselineCycle.AppliedBaselineSilencesProcess`
  carry that limit.

## Model

| member | source | states |
|---|---|---|
| `Json.JsonEscape` | src/core/json.cpp:137-159 | the byte loop writes exactly the escaping that `JsonEscaping` proves decodable, clean and injective |
| `Json.ParseJsonString` | src/core/json.cpp:26-67 | the cursor loop succeeds exactly when the input has a readable literal; it returns its value and stops just after its closing quote, never outside the text |
| `Json.FindKeyValueAt` | src/core/json.cpp:69-94 | the scanning loop with its restart one byte after an opening quote finds the value position of the first match, for any text and key |
| `Json.JsonFindString` | src/core/json.cpp:245-255 | the string read at the value found, or nothing when there is no match or no string there |
| `Json.JsonFindStringArray` | src/core/json.cpp:257-287 | the items read up to a bracket or the end of the text; nothing at all when an item or separator is malformed |
| `Json.NormExact` | src/core/json.cpp:55-61 | what a read loses: control bytes without a short escape become `?`; exact if and only if there is none; a second round changes nothing |
| `JsonEscaping.ShortEscapes` | src/core/json.cpp:141-147 | the seven characters with a two-character escape, and their escapes |
| `JsonEscaping.OtherEscapes` | src/core/json.cpp:148-155 | the other control bytes as two lower-case hexadecimal digits, everything else as it is |
| `JsonEscaping.ReaderFollowsDecoder` | src/core/json.cpp:26-67 | every literal the independent decoder accepts is read to the same end with the same characters, but for a `?` for each `u` escape |
| `JsonEscaping.ReaderRejects` | src/core/json.cpp:42-66 | unknown and unfinished escapes and a missing closing quote are refused |
| `JsonEscaping.JsonStringDecodes` | src/core/json.cpp:137-163 | an independent decoder after section 7 of RFC 8259 gives back every byte string from its literal |
| `JsonEscaping.JsonStringInjective` | src/core/json.cpp:161-163 | different strings are written differently |
| `JsonEscaping.EscapeIsClean` | src/core/json.cpp:137-159 | no byte below 0x20 (so no newline) and no quote without a backslash before it |
| `JsonEscaping.ParseQuoted` | src/core/json.cpp:26-67 | inside any larger text the reader gets `Norm(s)` from the literal of `s` and stops just after its closing quote |
| `JsonEscaping.ParseEscape` | src/core/json.cpp:26-67 | a parse from any aligned position inside a literal ends at the closing quote of that literal |
| `JsonDoc.FindOutside` | src/core/json.cpp:69-94 | for every well-formed document, whatever its literals hold, the scan over its text finds the value of the first name equal to the key |
| `JsonDoc.FindInside` | src/core/json.cpp:82-85 | from any position inside a literal the scan finds nothing in this literal and goes on to what the document says after it |
| `JsonDoc.FindAtClose` | src/core/json.cpp:82-85 | from a closing quote the gap up to the next literal is read as a name and never taken for the key; a next literal that starts with a colon moves the scan inside it without a false match |
| `JsonDoc.FindStringInDoc` | src/core/json.cpp:245-255 | looking a string up in the text gives the string the document holds |
| `JsonObject.FieldReadsBack` | src/core/json.cpp:69-94 | a named field is found by its name whatever the values of all other fields contain, unless an earlier field has the same name |
| `ObjectReads.ObjectReadsBack` | src/core/json.cpp:245-287 | every field of a written object reads back by its name, strings and arrays item by item, other values as their whole text |
| `ObjectReads.NumberRead` | src/core/json.cpp:69-94 | the digits at the name of a number give back the number |
| `JsonArrays.InlineItems` | src/core/json.cpp:257-287 | an array written on one line is read back item by item |
| `JsonArrays.LinesItems` | src/core/json.cpp:257-287 | a list written one item below the other is read back item by item |
| `DocScan.CollectDoc` | src/cli/main.cpp:118-129 | running a lookup from every occurrence of the quoted key collects exactly the non-empty string values the document holds under the key |
| `DocScan.CollectAtQuote` | src/cli/main.cpp:118-129 | the same from an inner quote of a literal, where an occurrence of the quoted key can be the end of a value after an escaped quote |
| `Report.RenderJson` | src/cli/main.cpp:49-103 | the writing loop produces the text of the report document; `ReportIs` and `ItemShows` say what stands in it |
| `Report.ReportIs` | src/cli/main.cpp:50-99 | the report is its heading and its items, in order, separated by commas |
| `Report.TopText` | src/cli/main.cpp:52-53 | the heading names the version and the schema |
| `Report.ItemShows` | src/cli/main.cpp:57-94 | an item shows each of the 23 fields of its finding under its own name: every string, array, number, flag and entropy |
| `ShownFields.EntropyText` | src/cli/main.cpp:40-47 | an entropy is written as the nearest number of thousandths, a missing one as null |
| `Text.ToHex64Exact` | src/core/util.cpp:12-14 | the prefix and digits that give back the number |
| `Report.ItemHolds` | src/cli/main.cpp:56-97 | under the name of a string field an item holds that string of its finding and nothing else |
| `Report.ReportReadsBack` | src/cli/main.cpp:49-131 | reading a written report gives exactly the non-empty fingerprints, for arbitrary contents of all 23 fields |
| `Report.HeadReadsBack` | src/cli/main.cpp:60-62 | collecting process, base and allocation base from a report gives exactly those of its findings |
| `Report.PlaceReadsBack` | src/cli/main.cpp:64-67 | the same for type, protection, mapped path and module path |
| `Report.SectionReadsBack` | src/cli/main.cpp:68-92 | the same for section name, section flags and severity |
| `Snapshot.FingerprintsFromReport` | src/cli/main.cpp:111-131 | the loop over occurrences computes the collected set, as an ordered list without duplicates; an unreadable file has none |
| `Snapshot.SnapshotRoundTrip` | src/cli/main.cpp:244-256 | save and read back: exactly the non-empty fingerprints if and only if the file is within the 64 MiB read limit or there is none to find; beyond the limit nothing |
| `Snapshot.LargeReportIsLost` | src/core/json.cpp:175-178 | reports beyond the read limit exist: any list with more findings than the limit has bytes, whatever they hold |
| `OrderedSet.Insert` | src/cli/main.cpp:126 | `std::set::insert`: order and elements, no duplicate |
| `OrderedSet.SetDifference` | src/cli/main.cpp:136-137 | the merge of two ordered lists gives the ordered set difference |
| `OrderedSet.SortedUnique` | src/cli/main.cpp:133-137 | an ordered list is determined by its elements |
| `OrderedSet.LessIff` | src/cli/main.cpp:113 | the order is lexicographic: at the first difference the first string ends or has the smaller byte |
| `Snapshot.RenderSnapshotDiff` | src/cli/main.cpp:133-161 | added and removed are ordered, disjoint and the two differences; old minus removed plus added is new; the counts balance; the code is 0 exactly when the snapshots are equal |
| `Snapshot.DiffShows` | src/cli/main.cpp:139-158 | the printed difference shows each count and each list under its own name |
| `Snapshot.CmdSnapshotDiff` | src/cli/main.cpp:258-263 | the exit code is 0 exactly when both files hold the same set of fingerprints, and the printed lists are the two differences |
| `Snapshot.DiffReadsBack` | src/cli/main.cpp:139-159 | the tool's own reader gets both lists back from the printed difference |
| `Baseline.SaveBaseline` | src/core/config.cpp:35-46 | the writing loop produces the text of the baseline document |
| `Baseline.BaselineTextIs` | src/core/config.cpp:36-44 | the whole text, with the schema version, the app and the fingerprints one below the other |
| `Baseline.LoadBaseline` | src/core/config.cpp:22-33 | fails without change on an empty path or unreadable file; otherwise replaces the app when there is one and appends the listed fingerprints in order |
| `Baseline.BaselineReadsBack` | src/core/config.cpp:22-46 | loading a saved file succeeds exactly within the 64 MiB read limit, and then gives the app and appends all fingerprints in order, normed, for every app, also one that contains a whole `"allowed": [...]` |
| `Baseline.SaveThenLoad` | src/core/config.cpp:22-46 | the same for the two methods run one after the other, over whatever the caller holds; a failed load changes nothing |
| `Baseline.LargeBaselineIsLost` | src/core/json.cpp:175-178 | the limit is reached: a longer app or more fingerprints than it allows bytes cannot be loaded |
| `Baseline.SaveLoadSaveIsFixed` | src/core/config.cpp:22-46 | whatever a saved file loads as, saving that again fits the read limit and loads as the same |
| `Baseline.ExactRoundTrip` | src/core/config.cpp:22-46 | the round trip is exact if and only if the text is within the read limit and no string has a control byte without a short escape |
| `TextLines.GetLine` | src/core/evidence.cpp:89 | `std::getline` from a position: the next line and the position of the rest |
| `TextLines.LinesOfUnlines` | src/core/evidence.cpp:85-93 | lines without newlines, written one below the other, split back into themselves |
| `EvidenceText.RenderManifestLine` | src/core/evidence.cpp:173-224 | the writer produces the record of a capture and one newline |
| `EvidenceText.RecordIsOneLine` | src/core/evidence.cpp:173-224 | no field contents can put a raw newline into a record |
| `EvidenceText.RecordShows` | src/core/evidence.cpp:173-224 | a record shows each field of its finding and of its files under its own name |
| `EvidenceText.RecordReadsBack` | src/core/evidence.cpp:173-224 | the tool's own reader gets the fingerprint, the dump file name and the dump digest back from a record |
| `EvidenceText.RecordTellsBase` | src/core/evidence.cpp:181 | a record gives back the base address of its finding |
| `EvidenceText.NamesIdentify` | src/core/evidence.cpp:237-244 | two captures share a dump or metadata file exactly when process id and base are equal |
| `EvidenceText.NamesExact` | src/core/evidence.cpp:237-240 | both names hold the decimal process id and the hexadecimal base |
| `EvidenceText.RenderEvidenceIndex` | src/core/evidence.cpp:85-113 | the loops collect the non-empty manifest lines and write the index over them |
| `EvidenceText.IndexReadsBack` | src/core/evidence.cpp:85-113 | an index gives back exactly the records it was written for, and its count is their number |
| `EvidenceText.IndexHeading` | src/core/evidence.cpp:96-101 | the heading of an index: version, tool version, time, manifest file and count |
| `Evidence.MetaShows` | src/core/evidence.cpp:115-171 | the metadata file shows each field of its finding and of its dump under its own name |
| `Evidence.MetaReadsBack` | src/core/evidence.cpp:163-168 | the reader gets the fingerprint, the dump file name and the dump digest back from the written metadata file |
| `Evidence.EvidenceDirectory.WriteEvidence` | src/core/evidence.cpp:228-268 | one capture changes the directory as `Step` says; `StepExact` and `DumpExact` say what that is |
| `Evidence.StepExact` | src/core/evidence.cpp:228-268 | for each file of the directory on its own, which steps must have succeeded to change it and what it becomes, and when the call succeeds |
| `Evidence.DumpExact` | src/core/evidence.cpp:246-250 | the dump is what the memory reads as for the smaller of the region size and the limit, and never longer |
| `ScanEvidence.CaptureStores` | src/core/evidence.cpp:246-253 | a capture stores exactly the bytes of its region, up to the limit, under the dump name |
| `Evidence.StepKeeps` | src/core/evidence.cpp:228-268 | the invariant between manifest and index over one capture that may stop at any step |
| `Evidence.RunKeeps` | src/core/evidence.cpp:228-268 | the same over any calls, each with the options of its own run, on a directory that already holds records |
| `Evidence.EvidenceLog` | src/core/evidence.cpp:228-268 | after any such calls the manifest splits into the earlier and exactly the appended records, and the index reads back as a prefix of them with the right `item_count` |
| `Evidence.NewDirectoryLog` | src/core/evidence.cpp:228-268 | the same for a directory that starts empty: its manifest is exactly the appended records |
| `Evidence.SuccessIsComplete` | src/core/evidence.cpp:243-268 | after every success the index holds all records, the last one is of this capture, and its dump and metadata files hold what was written |
| `Evidence.DumpDescribedIff` | src/core/evidence.cpp:237-259 | the dump file that an appended record names holds the bytes it describes if and only if no later call was the last to write that file with other bytes |
| `Evidence.SecondCaptureReplaces` | src/core/evidence.cpp:248-259 | it happens: a second capture of the same region with other bytes, even one that stops after its dump, outdates the first record |
| `PeParse.ReadU16` | src/core/peparse.cpp:164-171 | succeeds exactly when the value lies inside the buffer, and reads it little-endian |
| `PeEncoding.LittleEndian` | src/core/peparse.cpp:164-171 | two-, four- and eight-byte fields in terms of their bytes |
| `PeParse.CandidateOffsets` | src/core/peparse.cpp:173-194 | the loop computes the candidate offsets in 64-bit arithmetic without wrap; all are inside the buffer |
| `PeParse.ReadCStringAt` | src/core/peparse.cpp:206-222 | the bounded loop computes the name at an offset |
| `PeParse.ReadCStringRva` | src/core/peparse.cpp:224-232 | the first non-empty name over the candidate offsets |
| `PeParse.FindTable` | src/core/peparse.cpp:295-308 | the first candidate with a named, non-zero descriptor |
| `PeParse.ReadThunkTable` | src/core/peparse.cpp:328-362 | the thunk loop with its limit of 256 computes names and ordinal count, with no 64-bit wrap |
| `PeParse.ParseImports` | src/core/peparse.cpp:290-372 | the nested loops append exactly the DLLs of the functional reading, which `PeImage.ImportsParse` ties to the bytes of the tables |
| `PeParse.ParseExports` | src/core/peparse.cpp:374-402 | the export loop appends exactly the names of the functional reading, with the 32-bit truncated entry address |
| `PeParse.CountBytes` | src/core/peparse.cpp:243-246 | the counting loop computes the histogram |
| `PeParse.FillSectionStats` | src/core/peparse.cpp:260-280 | the in-place loop over sections sets entropies, the largest raw end and the overlay |
| `PeParse.FindNtHeaders` | src/core/peparse.cpp:404-413 | the header checks, including the signed `e_lfanew` |
| `PeParse.ParsePe` | src/core/peparse.cpp:404-488 | for every byte buffer the loops compute the functional reading; all reads are inside the buffer and no offset wraps |
| `PeEncoding.CoffReads` | src/core/peparse.cpp:414-421 | the file header, read from its seven fields in the order of the specification |
| `PeEncoding.SectionReads` | src/core/peparse.cpp:474-481 | a section header, read from its fields in order, with its name up to the first zero byte |
| `PeEncoding.DescriptorReads` | src/core/peparse.cpp:133-139 | an import descriptor, read from its five fields in order |
| `PeEncoding.ExportReads` | src/core/peparse.cpp:141-153 | an export directory, read from its eleven fields in order |
| `PeImage.HeadersParse` | src/core/peparse.cpp:404-483 | where the headers of the specification stand in the buffer, field after field, the parse reports exactly their fields, directories and sections |
| `PeImage.ImportsParse` | src/core/peparse.cpp:290-372 | an import directory table given by its bytes, with its lookup tables, hints and names, is reported DLL by DLL as it is encoded |
| `PeImage.ExportsParse` | src/core/peparse.cpp:374-402 | an export directory given by its bytes is reported by its first 512 names |
| `PeImage.ImageParses` | src/core/peparse.cpp:404-488 | both for whole images, at the RVAs of the data directories |
| `PeProperties.IsPeIff` | src/core/peparse.cpp:406-413 | a buffer is taken for a PE exactly when its bytes pass the header checks |
| `PeProperties.RvaOffsetsExact` | src/core/peparse.cpp:173-194 | no duplicates, all below the size, exactly the flat offset (first when in range) and the raw mapping of every section that holds the RVA; at most 97 for 96 sections |
| `PeProperties.FoundSectionIsMapped` | src/core/memscan.cpp:170-185 | when a region lies in a section, the in-range raw offset of that section is a candidate |
| `PeProperties.NameAtIff` | src/core/peparse.cpp:206-222 | a name is read at an offset if and only if 1 to 259 printable bytes that spell it and a zero byte stand there |
| `PeProperties.ParseIsSound` | src/core/peparse.cpp:290-488 | for every byte string: one descriptor table at a candidate of the import RVA; each DLL name is the first terminated printable run at a candidate of its descriptor's name RVA; each import name belongs to a thunk of that descriptor, plus 2 after a hint; each export name to an entry of the name table of a directory at a candidate of the export RVA; all in table order, before the first zero entry, within the limits 64, import size / 20 + 1, 256 and 512 |
| `PeFlat.FlatImportsExact` | src/core/peparse.cpp:290-372 | a flat import table is reported exactly, whatever the section table says, if and only if no DLL without entries gets some from another candidate of its thunk RVA |
| `PeFlat.NoImportsIff` | src/core/peparse.cpp:295-308 | nothing is imported exactly when no candidate of the import RVA names a DLL |
| `PeFlat.FlatExportsExact` | src/core/peparse.cpp:374-402 | a flat export directory is reported exactly, up to 512 names |
| `PeFlat.FlatImageParses` | src/core/peparse.cpp:404-488 | both for the result of the whole parse, imports and exports each on their own |
| `PePrefix.PrefixMonotone` | src/core/peparse.cpp:404-488 | a longer buffer keeps validity, file header, magic and full optional header; sections without entropy are only added; the raw end does not decrease |
| `PePrefix.RawEndIsLargest` | src/core/peparse.cpp:260-276 | the raw end bounds the end of every section with raw bytes and is one of them, or 0 |
| `PePrefix.RawEndComplete` | src/core/peparse.cpp:260-276 | a buffer that holds all section headers already fixes the raw end of every longer one |
| `PePrefix.OverlayOfParse` | src/core/peparse.cpp:276-279 | the overlay is the buffer behind a non-zero raw end |
| `PeProperties.SectionEntropyExact` | src/core/peparse.cpp:262-275 | the entropy of a section is that of its raw bytes in the buffer, else of its virtual range, else missing |
| `PePrefix.PartialOptional` | src/core/peparse.cpp:425-465 | of an optional header that is cut off or has another magic only the magic is taken |
| `FileFacts.OverlayFromPrefixIsExact` | src/core/memscan.cpp:236-254 | the overlay computed from the first 64 KiB and the file size is the overlay of the whole file, once the section headers fit |
| `FileFacts.OverlayIff` | src/core/memscan.cpp:243-251 | a file has an overlay exactly when its size is known, its start parses as PE and a section with raw bytes ends before its end; the overlay is the rest |
| `FileFacts.UnchangedHeaderMatches` | src/core/memscan.cpp:362-376 | equal reads of memory and disk, or a prefix of each other with whole optional headers, report no mismatch |
| `Metadata.AddApiTagForName` | src/core/memscan.cpp:272-303 | adds the tags of a name in the order of the groups |
| `ApiTags.TagsExact` | src/core/memscan.cpp:272-303 | a name gets a tag exactly when it is, in any case, one of the functions of that tag as the Windows API spells them |
| `Metadata.ExtractPeMetadata` | src/core/memscan.cpp:305-318 | the nested loops compute the four lists |
| `Metadata.AppendsDistinct` | src/core/memscan.cpp:263-270 | appending one by one keeps exactly the first `limit` distinct non-empty values in order |
| `Metadata.MetadataExact` | src/core/memscan.cpp:305-318 | the first 32 distinct DLLs, the first 96 distinct import and export names, and the tags of all imported names, also those beyond the 96, since seven tags never reach the limit of 16 |
| `Scan.IsIgnored` | src/core/memscan.cpp:120-124 | true exactly when some pattern matches the process or the path |
| `Scan.FindModuleByBase` | src/core/memscan.cpp:413-420 | the first module with this base |
| `Scan.FindSectionForRva` | src/core/memscan.cpp:174-185 | the first section whose span holds the RVA, in 64 bits without wrap |
| `Scan.CollectThreads` | src/core/memscan.cpp:476-486 | the threads that start in the region in order; none when its end wraps |
| `Scan.HashFingerprint` | src/core/memscan.cpp:378-387 | the loop over the reasons builds the hashed text |
| `Scan.ReadLayout` | src/core/memscan.cpp:335-344 | the headers come from the largest probe that reads anything |
| `Scan.ReadOverlay` | src/core/memscan.cpp:243-251 | the file bytes behind the raw image end; 0 for anything unreadable |
| `Scan.AddImageHeaderComparison` | src/core/memscan.cpp:362-376 | adds the mismatch exactly when both headers are PE, neither managed, and their identities differ |
| `Scan.AddModuleConsistency` | src/core/memscan.cpp:422-438 | module path and module reasons of an image base |
| `Scan.IsSuppressed` | src/core/memscan.cpp:612-617 | the loop over the baseline computes `Suppressed`; `BaselineCycle.BaselineLeavesOutIff` says exactly what that leaves out |
| `Scan.ProcessScan.LoadImageLayout` | src/core/memscan.cpp:329-347 | with a cache of fresh reads the result is the fresh read, and the cache stays so |
| `Scan.ProcessScan.OverlaySizeForFile` | src/core/memscan.cpp:236-254 | the cached value of the normalized path, or the freshly computed one, which is then cached |
| `Scan.ProcessScan.Examine` | src/core/memscan.cpp:513-610 | the steps of one region, with both caches, give the cache-free finding; `FindingFields` says when there is one and what each field of it is |
| `Scan.ProcessScan.Visit` | src/core/memscan.cpp:510-624 | one region: skipped, suppressed or reported, and handed to the evidence writer while fewer than 16 were |
| `Scan.ProcessScan.ScanPid` | src/core/memscan.cpp:488-628 | the walk with both caches outputs in order exactly the cache-free findings not in the baseline, when equal path keys mean equal overlays; it ends for every sequence of answers; the evidence directory ends up as the writer leaves it when called for the first 16 findings, whatever each call meets |
| `Scan.CacheIsTransparent` | src/core/memscan.cpp:236-254 | the overlay cache changes nothing when looked-up paths with the same key agree |
| `FindingFields.ReportIff` | src/core/memscan.cpp:503-619 | the report holds exactly the findings of the visited regions that are committed, match no ignore pattern and whose fingerprint is, up to case, not in the baseline |
| `FindingFields.FindingIff` | src/core/memscan.cpp:532-574 | a region is a finding exactly when it is writable and executable, private with a PE header, private code with high entropy or a thread start, or an image base that is no PE or differs in header or module |
| `FindingFields.AnswerFields` | src/core/memscan.cpp:576-609 | the fields taken from the answers of the system; a thread is listed exactly when the region is private and executable, its end does not wrap, and the thread starts in it |
| `FindingFields.ThreadsExact` | src/core/memscan.cpp:567-572 | the same for the thread list of any region |
| `FindingFields.ModuleField` | src/core/memscan.cpp:422-428 | the module path is that of the first module at an image base |
| `FindingFields.FirstModule` | src/core/memscan.cpp:413-420 | no module has the base, or the one found is the first that has |
| `FindingFields.SectionFieldsExact` | src/core/memscan.cpp:540-544 | section name, flags and entropy are those of the section the RVA of the region lies in |
| `FindingFields.FirstSection` | src/core/memscan.cpp:174-185 | no section holds the RVA, or the one found is the first that does; a section reaches as far as the larger of its sizes |
| `FindingFields.HeaderFields` | src/core/memscan.cpp:538-558 | names, tags and overlay come from the header read: of the image, or of a private region with a PE header, up to 64 KiB |
| `FindingFields.HeadExact` | src/core/memscan.cpp:522-530 | PE flag and entropy come from the first 4 KiB of a region that can be read; the flag needs 256 bytes |
| `FindingFields.HistogramExact` | src/core/memscan.cpp:195-215 | the counts are how often each byte occurs |
| `FindingFields.ProtectTable` | src/core/util.cpp:16-30 | the text of each page protection, by its number |
| `FindingFields.TypeTable` | src/core/memscan.cpp:126-130 | the text of each memory type, by its number |
| `FindingFields.SectionFlagsTable` | src/core/memscan.cpp:187-193 | the three section flags by their bits |
| `FindingFields.IdentityIff` | src/core/memscan.cpp:160-168 | two headers have one identity exactly when both are PE and the six fields agree |
| `FindingFields.NormalizeExact` | src/core/memscan.cpp:55-61 | each character of a normalized path, with at most one long-path prefix dropped |
| `ReasonLists.ReasonsCanonical` | src/core/memscan.cpp:532-572 | every reason list is duplicate-free and a subsequence of one fixed order |
| `ReasonLists.CanonicalUnique` | src/core/memscan.cpp:532-572 | such a list is determined by its set |
| `ReasonLists.ContextNeverFirst` | src/core/memscan.cpp:320-327 | `SuspiciousImports` and `LargeOverlay` are never the first reason |
| `ReasonLists.EntropyFirstIff` | src/core/memscan.cpp:532-562 | `HighEntropyExecutable` is first if and only if the region is private, executable, not writable, without a PE header and of high entropy |
| `Signals.StateExplained` | src/core/memscan.cpp:349-360 | `PrivatePE`, `Write+Exec`, `ImageRWX` and `SectionProtectionMismatch` are in a finding if and only if its own type, protection, PE and section flag fields say so |
| `Signals.ImageBaseExplained` | src/core/memscan.cpp:422-438 | the same for the four reasons of an image base, given the module list and the file on disk |
| `Signals.ContextExplained` | src/core/memscan.cpp:559-572 | in a finding: suspicious imports exactly for tags of a private image or at least two, high entropy exactly for executable bytes from 7.2 on, a large overlay exactly from 1 MiB on unless a thread start is all there is, a thread start exactly for listed threads |
| `Documented.NotMzExact` | src/core/memscan.cpp:535 | reported exactly for a readable region at its allocation base that does not read as PE |
| `Documented.NotMzAsDocumentedIff` | README.md:41 | the code agrees with the documented first readable region exactly when the region is no readable image, reads as PE, or is first if and only if it is at the base |
| `Documented.SecondPageIsMissed` | src/core/memscan.cpp:535 | a scan where they differ: a readable page without a header behind an unreadable base page |
| `Documented.MismatchAsDocumentedIff` | src/core/memscan.cpp:362-376 | reported exactly for a differing identity when the mapped file is a PE and nothing is managed; for an image whose file can be read, as documented exactly when the identity does not differ or both of these hold |
| `Documented.DifferingBytesIff` | src/core/memscan.cpp:160-168 | read as any difference of the headers, as documented exactly when they are equal or, in addition, the identity differs |
| `Documented.ManagedMismatchIsMissed` | src/core/memscan.cpp:371 | a scan where they differ: a managed image with a changed timestamp |
| `Documented.JunkFileIsMissed` | src/core/memscan.cpp:369-370 | a scan where they differ: the mapped file was overwritten with something that is no PE |
| `Documented.ChecksumIsNotCompared` | src/core/memscan.cpp:160-168 | a scan in which a native image with a changed checksum is not reported |
| `Documented.EntropyAsDocumentedIff` | src/core/memscan.cpp:560-562 | a finding with high entropy has another reason first exactly when it is not private, writable and executable, or reads as PE |
| `Documented.EntropyAlone` | src/core/memscan.cpp:560-562 | a scan whose one finding has high entropy as its first reason |
| `ScanEvidence.EvidenceForEachIff` | src/core/memscan.cpp:619-624 | every finding of a scan has its own record among the new manifest lines if and only if there are at most 16 and each call of the writer got as far as appending |
| `ScanEvidence.SeventeenthIsNotCaptured` | src/core/memscan.cpp:621-624 | a process with 17 findings, for which the writer is called 16 times |
| `ScanEvidence.GuardedPageHasNoEvidence` | src/core/evidence.cpp:246-250 | a guarded page is reported for its protection, but nothing is written for it |
| `ScanEvidence.NoDumpSizeNoEvidence` | src/core/evidence.cpp:228-231 | with a dump size of zero nothing is written for any finding |
| `ReasonLists.SeverityExact` | src/core/memscan.cpp:596-607 | medium exactly for `[Write+Exec]`, low exactly for `[ImageHeaderNotMZ]`, high for every other emitted list |
| `Walk.CursorMovesForward` | src/core/memscan.cpp:503-509 | for any answers, also sums that wrap, the cursor strictly increases |
| `Walk.VisitedTiles` | src/core/memscan.cpp:503-509 | the visited regions tile the walked range without gap, overlap or wrap if and only if each accepted answer starts at its cursor; then up to where the loop stops |
| `Walk.PagesStartAtCursor` | src/core/memscan.cpp:503-509 | answers of whole pages that start at the page of the queried address do start at the cursor |
| `Walk.CachedWalkExact` | src/core/memscan.cpp:236-254 | the scan with the overlay cache equals the cache-free one if and only if every looked-up region has the cached overlay or is not reported with either |
| `Walk.OutputOrdered` | src/core/memscan.cpp:503-619 | for such walks findings are in address order and disjoint, so no base is reported twice |
| `Walk.ThreadsIff` | src/core/memscan.cpp:476-486 | a thread is listed exactly when it starts inside the region and the end of the region does not wrap |
| `Walk.ThreadListedOnce` | src/core/memscan.cpp:567-572 | a thread id is listed in at most one finding of a process |
| `Relocation.RelocationInvariant` | src/core/memscan.cpp:488-628 | when all answers, modules, thread starts and bytes from the first committed region on are moved by a constant, below the limit and with other free space around, both walks meet the same regions and only the two reported bases change; reasons, severity, thread ids and fingerprints of the whole scan stay the same |
| `Restart.SameFingerprint` | src/core/memscan.cpp:378-387 | a region that moved on its own keeps reasons, severity and fingerprint, also with another process id and other thread ids |
| `Restart.RestartKeepsFingerprints` | src/core/memscan.cpp:488-628 | two runs of one program whose committed regions are counterparts of each other report the same set of fingerprints, also with a baseline, when equal path keys mean equal overlays |
| `Restart.SnapshotAcrossRestart` | src/cli/main.cpp:244-263 | snapshots of both runs compare with exit code 0 |
| `FingerprintInjective.TextInjective` | src/core/memscan.cpp:378-387 | the hashed text determines all seven parts when the two paths hold no vertical bar; the section name may |
| `FingerprintInjective.PartsInOrder` | src/core/memscan.cpp:379-386 | which part stands between which separators of the hashed text, the reasons last |
| `FingerprintInjective.FindingHashes` | src/core/memscan.cpp:608-610 | the fingerprint of a finding is the hash of the text of its own parts, over canonical reasons |
| `FingerprintInjective.FindingsSeparated` | src/core/memscan.cpp:608-610 | two findings with the same hashed text agree in process, path, type, protection, PE flag, section and reasons |
| `BaselineCycle.ScanSystem` | src/core/memscan.cpp:638-652 | the findings of the chosen processes in order; id 0 and processes that cannot be opened are left out |
| `BaselineCycle.SystemIff` | src/core/memscan.cpp:646-650 | a finding is in the scan of several processes exactly when it is in that of one of them |
| `BaselineCycle.BaselineIsFilter` | src/core/memscan.cpp:612-619 | a scan with a baseline is the unfiltered scan without the suppressed findings |
| `BaselineCycle.BaselineLeavesOutIff` | src/core/memscan.cpp:612-617 | a finding is left out exactly when some baseline entry equals its fingerprint up to case |
| `BaselineCycle.LargerBaselineReportsLess` | src/core/memscan.cpp:612-619 | a larger baseline reports a sublist of what a smaller one reports |
| `BaselineCycle.CreateBaseline` | src/cli/main.cpp:206-222 | scan, choice of the app and selection loop give the text of the baseline |
| `BaselineCycle.SelectedExact` | src/cli/main.cpp:220-221 | exactly the fingerprints of the findings of the app, one for each, in order |
| `BaselineCycle.CreatedReadsBack` | src/cli/main.cpp:216-222 | a new baseline reads back as the chosen app, or that of the first finding, with the fingerprints of that app and of no other |
| `BaselineCycle.ApplyBaseline` | src/cli/main.cpp:227-242 | code 2 and no report when the file cannot be loaded; otherwise the report of a scan with the fingerprints read |
| `BaselineCycle.AppliedIff` | src/cli/main.cpp:237-241 | applying a baseline reports exactly the findings whose fingerprint it does not list, up to case |
| `BaselineCycle.AppliedBaselineSilencesApp` | src/cli/main.cpp:206-242 | on an unchanged system nothing of the app the baseline was created for is reported |
| `BaselineCycle.AppliedBaselineSilencesProcess` | src/cli/main.cpp:206-242 | created from one process id, the baseline silences that process completely, as long as the file is within the read limit; beyond it, applying it fails |

## Left out

- Win32 calls: region queries, memory and file reads, module, thread and process lists and
  `DosPathFromDevice` are function fields of `World` and `FileSystem`, or parameters. A world does not
  change during a scan.
- SHA-256, `towlower` and `PathMatchSpecW` are function fields; nothing is assumed about them, except that
  digests are hexadecimal (`HexSystem`) in the two lemmas on creating and applying a baseline.
- UTF-8 conversion: wide strings stand as their UTF-8 bytes, and the two conversions are taken to be inverse
  to each other. `NormalizePath` and its case folding work on those bytes.
- Entropy: a function of the byte histogram with values in `real`; `log2`, floating-point rounding and the
  rounding mode of the three printed decimals are not modelled.
- Pointer casts in the PE parser: modelled as little-endian byte reads; a buffer has at most 2^63 - 1 bytes.
- JSON texts: escapes above 7F are rejected by the decoder used as reference, since the writer never
  produces them.
- Field writers: the repeated stream insertions of a record are one loop over a list of named fields, in the
  same order and with the same separators.
- Evidence.EvidenceDirectory.WriteEvidence: a single file write happens completely or not at all; a write
  that stops half-way, which would truncate a file or leave half a line, is not modelled.
- BaselineCycle.ScanSystem: scans without evidence, as the baseline and snapshot commands do.
- Walk.OutputOrdered: holds for walks whose answers start at the cursor, as those of page-wise queries do.
- Walk.ThreadListedOnce: the same, and the system lists a thread once.
- Relocation.RelocationInvariant: all modules and threads move by the same constant; `Restart` lets every region
  move on its own, and then promises fingerprints, reasons and severity only.
- JSON output files: writing a report to a file, and the code 2 when that fails, in `RenderJson` and the
  commands.
- Argument parsing, usage text, console lines, the `--fail-on` threshold of `scan`, `LoadExceptions` (two
  array lookups), `EnsureDirectoryTree`, timestamps, `dump-schema`: shallow or input and output only.
