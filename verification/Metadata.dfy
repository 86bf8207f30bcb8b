/** `ExtractPeMetadata` of memscan.cpp: bounded duplicate-free lists built name by name. */
module Metadata {
  import opened PeFormat

  datatype PeMetadata = PeMetadata(importDlls: seq<string>, importNames: seq<string>, exportNames: seq<string>,
                                   apiTags: seq<string>)

  const NO_METADATA := PeMetadata([], [], [], [])

  // ----- appending

  function Appended(values: seq<string>, v: string, limit: nat): seq<string> {
    if v == "" || |values| >= limit || v in values then values else values + [v]
  }

  function AppendedAll(values: seq<string>, vs: seq<string>, limit: nat): seq<string>
    decreases vs
  {
    if vs == [] then values else AppendedAll(Appended(values, vs[0], limit), vs[1..], limit)
  }

  method AppendUnique(values: seq<string>, v: string, limit: nat) returns (r: seq<string>)
    ensures r == Appended(values, v, limit)
    ensures values <= r && |r| <= |values| + 1 && (|values| <= limit ==> |r| <= limit)
    ensures v in r <==> v in values || (v != "" && |values| < limit)
    ensures (forall i, j | 0 <= i < j < |values| :: values[i] != values[j]) ==>
              forall i, j | 0 <= i < j < |r| :: r[i] != r[j]
  {
    r := values;
    if v == "" || |values| >= limit {
      return;
    }
    if v !in values {
      r := r + [v];
    }
  }

  /** The non-empty values in order of first appearance. */
  function Distinct(vs: seq<string>): (r: seq<string>)
    ensures forall x :: x in r <==> x in vs && x != ""
    ensures forall i, j | 0 <= i < j < |r| :: r[i] != r[j]
  {
    if vs == [] then []
    else
      var before, last := Distinct(vs[..|vs| - 1]), vs[|vs| - 1];
      assert vs == vs[..|vs| - 1] + [last];
      if last == "" || last in before then before else before + [last]
  }

  function Upto(vs: seq<string>, limit: nat): seq<string> { if |vs| <= limit then vs else vs[..limit] }

  lemma {:induction false} AppendedAllLast(values: seq<string>, vs: seq<string>, v: string, limit: nat)
    ensures AppendedAll(values, vs + [v], limit) == Appended(AppendedAll(values, vs, limit), v, limit)
    decreases vs
  {
    if vs == [] {
      assert vs + [v] == [v];
    } else {
      AppendedAllLast(Appended(values, vs[0], limit), vs[1..], v, limit);
      assert (vs + [v])[1..] == vs[1..] + [v] && (vs + [v])[0] == vs[0];
    }
  }

  lemma {:induction false} AppendedAllTwice(values: seq<string>, a: seq<string>, b: seq<string>, limit: nat)
    ensures AppendedAll(values, a + b, limit) == AppendedAll(AppendedAll(values, a, limit), b, limit)
    decreases a
  {
    if a == [] {
      assert a + b == b;
    } else {
      AppendedAllTwice(Appended(values, a[0], limit), a[1..], b, limit);
      assert (a + b)[1..] == a[1..] + b && (a + b)[0] == a[0];
    }
  }

  /** Appending one by one keeps exactly the first `limit` distinct values. */
  lemma {:induction false} AppendsDistinct(vs: seq<string>, limit: nat)
    ensures AppendedAll([], vs, limit) == Upto(Distinct(vs), limit)
  {
    if vs != [] {
      var n := |vs| - 1;
      AppendsDistinct(vs[..n], limit);
      AppendedAllLast([], vs[..n], vs[n], limit);
      assert vs == vs[..n] + [vs[n]];
      UptoStep(Distinct(vs[..n]), vs[n], limit);
    }
  }

  lemma UptoStep(before: seq<string>, v: string, limit: nat)
    ensures Appended(Upto(before, limit), v, limit) ==
            Upto(if v == "" || v in before then before else before + [v], limit)
  {
    if |before| >= limit {
      assert |before| > limit ==> (before + [v])[..limit] == before[..limit];
      assert |before| == limit ==> (before + [v])[..limit] == before;
    }
  }

  // ----- API tags

  function LowerChar(c: char): char { if 'A' <= c <= 'Z' then c + 32 as char else c }

  function LowerAscii(s: string): (r: string)
    ensures |r| == |s|
  {
    seq(|s|, i requires 0 <= i < |s| => LowerChar(s[i]))
  }

  const MEMORY_PERMISSION := {
    "virtualalloc", "virtualallocex", "virtualprotect", "virtualprotectex", "ntallocatevirtualmemory",
    "ntprotectvirtualmemory" }
  const REMOTE_MEMORY := {
    "writeprocessmemory", "ntwritevirtualmemory", "readprocessmemory", "ntreadvirtualmemory" }
  const REMOTE_THREAD := { "createremotethread", "ntcreatethreadex", "rtlcreateuserthread" }
  const THREAD_CONTEXT := {
    "getthreadcontext", "setthreadcontext", "wow64getthreadcontext", "wow64setthreadcontext", "resumethread",
    "suspendthread" }
  const IMAGE_UNMAP := { "ntunmapviewofsection", "zwunmapviewofsection" }
  const SECTION_MAP := {
    "createfilemappinga", "createfilemappingw", "mapviewoffile", "ntmapviewofsection", "zwmapviewofsection" }
  const PROCESS_OPEN := { "openprocess", "ntopenprocess" }

  const ALL_TAGS := [
    "memory-permission", "remote-memory", "remote-thread", "thread-context", "image-unmap", "section-map",
    "process-open"]

  function Group(k: nat): set<string>
    requires k < 7
  {
    [MEMORY_PERMISSION, REMOTE_MEMORY, REMOTE_THREAD, THREAD_CONTEXT, IMAGE_UNMAP, SECTION_MAP, PROCESS_OPEN][k]
  }

  /** The tags of a name, from group `k` on. */
  function TagsFrom(api: string, k: nat): (r: seq<string>)
    requires k <= 7
    ensures forall x | x in r :: x in ALL_TAGS
    decreases 7 - k
  {
    if k == 7 then [] else (if api in Group(k) then [ALL_TAGS[k]] else []) + TagsFrom(api, k + 1)
  }

  function TagsOf(name: string): seq<string> { TagsFrom(LowerAscii(name), 0) }

  const TAG_LIMIT := 16

  method AddApiTagForName(name: string, tags: seq<string>) returns (r: seq<string>)
    ensures r == AppendedAll(tags, TagsOf(name), TAG_LIMIT)
  {
    hide LowerAscii, Appended, AppendedAll, TagsFrom, Group;
    var api := LowerAscii(name);
    r := tags;
    TagStep(r, api, 0);
    if api in Group(0) {
      r := AppendUnique(r, ALL_TAGS[0], TAG_LIMIT);
    }
    TagStep(r, api, 1);
    if api in Group(1) {
      r := AppendUnique(r, ALL_TAGS[1], TAG_LIMIT);
    }
    TagStep(r, api, 2);
    if api in Group(2) {
      r := AppendUnique(r, ALL_TAGS[2], TAG_LIMIT);
    }
    TagStep(r, api, 3);
    if api in Group(3) {
      r := AppendUnique(r, ALL_TAGS[3], TAG_LIMIT);
    }
    TagStep(r, api, 4);
    if api in Group(4) {
      r := AppendUnique(r, ALL_TAGS[4], TAG_LIMIT);
    }
    TagStep(r, api, 5);
    if api in Group(5) {
      r := AppendUnique(r, ALL_TAGS[5], TAG_LIMIT);
    }
    TagStep(r, api, 6);
    if api in Group(6) {
      r := AppendUnique(r, ALL_TAGS[6], TAG_LIMIT);
    }
    NoMoreTags(r, api);
  }

  lemma NoMoreTags(r: seq<string>, api: string)
    ensures AppendedAll(r, TagsFrom(api, 7), TAG_LIMIT) == r
  {
  }

  lemma TagStep(r: seq<string>, api: string, k: nat)
    requires k < 7
    ensures AppendedAll(r, TagsFrom(api, k), TAG_LIMIT) ==
            AppendedAll(if api in Group(k) then Appended(r, ALL_TAGS[k], TAG_LIMIT) else r, TagsFrom(api, k + 1),
                        TAG_LIMIT)
  {
    hide Group, Appended;
    var rest := TagsFrom(api, k + 1);
    if api in Group(k) {
      assert ([ALL_TAGS[k]] + rest)[1..] == rest;
    } else {
      assert [] + rest == rest;
    }
  }

  // ----- the metadata of an image

  function DllNames(dlls: seq<ImportDll>): seq<string> {
    if dlls == [] then [] else DllNames(dlls[..|dlls| - 1]) + [dlls[|dlls| - 1].dll]
  }

  function ImportedNames(dlls: seq<ImportDll>): seq<string> {
    if dlls == [] then [] else ImportedNames(dlls[..|dlls| - 1]) + dlls[|dlls| - 1].names
  }

  function TagsOfAll(names: seq<string>): seq<string> {
    if names == [] then [] else TagsOfAll(names[..|names| - 1]) + TagsOf(names[|names| - 1])
  }

  function MetadataOf(pe: PeQuick): PeMetadata {
    PeMetadata(
      AppendedAll([], DllNames(pe.imports), 32),
      AppendedAll([], ImportedNames(pe.imports), 96),
      AppendedAll([], pe.exports, 96),
      AppendedAll([], TagsOfAll(ImportedNames(pe.imports)), TAG_LIMIT))
  }

  lemma {:induction false} TagsOfAllAppend(a: seq<string>, b: seq<string>)
    ensures TagsOfAll(a + b) == TagsOfAll(a) + TagsOfAll(b)
  {
    if b == [] {
      assert a + b == a && TagsOfAll(b) == [];
    } else {
      var n := |b| - 1;
      TagsOfAllAppend(a, b[..n]);
      assert (a + b)[..|a + b| - 1] == a + b[..n] && (a + b)[|a + b| - 1] == b[n];
      assert (TagsOfAll(a) + TagsOfAll(b[..n])) + TagsOf(b[n]) == TagsOfAll(a) + (TagsOfAll(b[..n]) + TagsOf(b[n]));
    }
  }

  /** The names of one DLL, added to the kept names and to the tags. */
  method AddNames(kept: seq<string>, tags: seq<string>, names: seq<string>)
    returns (kept': seq<string>, tags': seq<string>)
    ensures kept' == AppendedAll(kept, names, 96)
    ensures tags' == AppendedAll(tags, TagsOfAll(names), TAG_LIMIT)
  {
    hide TagsOf;
    kept', tags' := kept, tags;
    for j := 0 to |names|
      invariant kept' == AppendedAll(kept, names[..j], 96)
      invariant tags' == AppendedAll(tags, TagsOfAll(names[..j]), TAG_LIMIT)
    {
      var name := names[j];
      assert names[..j + 1] == names[..j] + [name] && names[..j + 1][..j] == names[..j];
      AppendedAllLast(kept, names[..j], name, 96);
      AppendedAllTwice(tags, TagsOfAll(names[..j]), TagsOf(name), TAG_LIMIT);
      kept' := AppendUnique(kept', name, 96);
      tags' := AddApiTagForName(name, tags');
    }
    assert names[..|names|] == names;
  }

  method ExtractPeMetadata(pe: PeQuick) returns (out: PeMetadata)
    ensures out == MetadataOf(pe)
  {
    hide TagsOfAll, Appended, AppendedAll;
    var dlls: seq<string> := [];
    var names: seq<string> := [];
    var tags: seq<string> := [];
    AppendedNothing([], 32);
    AppendedNothing([], 96);
    AppendedNothing([], TAG_LIMIT);
    NoTags();
    for i := 0 to |pe.imports|
      invariant dlls == AppendedAll([], DllNames(pe.imports[..i]), 32)
      invariant names == AppendedAll([], ImportedNames(pe.imports[..i]), 96)
      invariant tags == AppendedAll([], TagsOfAll(ImportedNames(pe.imports[..i])), TAG_LIMIT)
    {
      var dll := pe.imports[i];
      var before := pe.imports[..i];
      assert pe.imports[..i + 1][..i] == before;
      AppendedAllLast([], DllNames(before), dll.dll, 32);
      AppendedAllTwice([], ImportedNames(before), dll.names, 96);
      TagsOfAllAppend(ImportedNames(before), dll.names);
      AppendedAllTwice([], TagsOfAll(ImportedNames(before)), TagsOfAll(dll.names), TAG_LIMIT);
      dlls := AppendUnique(dlls, dll.dll, 32);
      names, tags := AddNames(names, tags, dll.names);
    }
    assert pe.imports[..|pe.imports|] == pe.imports;
    var exports := AddExports(pe.exports);
    out := PeMetadata(dlls, names, exports, tags);
  }

  method AddExports(names: seq<string>) returns (exports: seq<string>)
    ensures exports == AppendedAll([], names, 96)
  {
    hide Appended;
    exports := [];
    for j := 0 to |names|
      invariant exports == AppendedAll([], names[..j], 96)
    {
      assert names[..j + 1] == names[..j] + [names[j]];
      AppendedAllLast([], names[..j], names[j], 96);
      exports := AppendUnique(exports, names[j], 96);
    }
    assert names[..|names|] == names;
  }

  lemma AppendedNothing(values: seq<string>, limit: nat)
    ensures AppendedAll(values, [], limit) == values
  {
  }

  lemma NoTags()
    ensures TagsOfAll([]) == []
  {
  }

  lemma {:induction false} TagsAreKnown(names: seq<string>)
    ensures forall x | x in TagsOfAll(names) :: x in ALL_TAGS
  {
    hide TagsOf;
    if names != [] {
      TagsAreKnown(names[..|names| - 1]);
      assert forall x | x in TagsOf(names[|names| - 1]) :: x in ALL_TAGS by { TagsOfKnown(names[|names| - 1]); }
    }
  }

  lemma TagsOfKnown(name: string)
    ensures forall x | x in TagsOf(name) :: x in ALL_TAGS
  {
  }

  /** A duplicate-free list of elements of another list is not longer. */
  lemma {:induction false} PigeonHole(xs: seq<string>, all: seq<string>)
    requires forall i, j | 0 <= i < j < |xs| :: xs[i] != xs[j]
    requires forall x | x in xs :: x in all
    ensures |xs| <= |all|
    decreases |all|
  {
    if xs != [] {
      var last := xs[|xs| - 1];
      assert last in xs;
      assert last in all;
      var k :| 0 <= k < |all| && all[k] == last;
      var fewer := all[..k] + all[k + 1..];
      var rest := xs[..|xs| - 1];
      forall x | x in rest
        ensures x in fewer
      {
        var i :| 0 <= i < |rest| && rest[i] == x;
        assert xs[i] == x && x != last;
        assert x in xs;
        assert x in all;
        var m :| 0 <= m < |all| && all[m] == x;
        assert fewer[if m < k then m else m - 1] == x;
      }
      PigeonHole(rest, fewer);
    }
  }

  /** The kept lists are the first distinct names within their limits; the tags are all tags of all
      imported names, also of those beyond the 96 kept, since seven tags never reach the limit. */
  lemma MetadataExact(pe: PeQuick)
    ensures MetadataOf(pe).importDlls == Upto(Distinct(DllNames(pe.imports)), 32)
    ensures MetadataOf(pe).importNames == Upto(Distinct(ImportedNames(pe.imports)), 96)
    ensures MetadataOf(pe).exportNames == Upto(Distinct(pe.exports), 96)
    ensures MetadataOf(pe).apiTags == Distinct(TagsOfAll(ImportedNames(pe.imports)))
  {
    hide AppendedAll, TagsOfAll, Distinct;
    AppendsDistinct(DllNames(pe.imports), 32);
    AppendsDistinct(ImportedNames(pe.imports), 96);
    AppendsDistinct(pe.exports, 96);
    var tags := TagsOfAll(ImportedNames(pe.imports));
    AppendsDistinct(tags, TAG_LIMIT);
    TagsAreKnown(ImportedNames(pe.imports));
    PigeonHole(Distinct(tags), ALL_TAGS);
  }
}
