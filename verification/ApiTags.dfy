/** Which imported names get which tag, by the names as the Windows API spells them. */
module ApiTags {
  import opened Metadata

  /** The letter without its case. */
  function Fold(c: char): char {
    if 'A' <= c <= 'Z' then 'a' + (c - 'A') else c
  }

  /** The same name, up to the case of its letters. */
  predicate SameName(a: string, b: string) { |a| == |b| && forall i | 0 <= i < |a| :: Fold(a[i]) == Fold(b[i]) }

  predicate Named(name: string, names: seq<string>) { exists i :: 0 <= i < |names| && SameName(name, names[i]) }

  const MEMORY_PERMISSION_APIS := [
    "VirtualAlloc", "VirtualAllocEx", "VirtualProtect", "VirtualProtectEx", "NtAllocateVirtualMemory",
    "NtProtectVirtualMemory"]

  const REMOTE_MEMORY_APIS := [
    "WriteProcessMemory", "NtWriteVirtualMemory", "ReadProcessMemory", "NtReadVirtualMemory"]

  const REMOTE_THREAD_APIS := [
    "CreateRemoteThread", "NtCreateThreadEx", "RtlCreateUserThread"]

  const THREAD_CONTEXT_APIS := [
    "GetThreadContext", "SetThreadContext", "Wow64GetThreadContext", "Wow64SetThreadContext", "ResumeThread",
    "SuspendThread"]

  const IMAGE_UNMAP_APIS := [
    "NtUnmapViewOfSection", "ZwUnmapViewOfSection"]

  const SECTION_MAP_APIS := [
    "CreateFileMappingA", "CreateFileMappingW", "MapViewOfFile", "NtMapViewOfSection", "ZwMapViewOfSection"]

  const PROCESS_OPEN_APIS := [
    "OpenProcess", "NtOpenProcess"]

  lemma SameNameIff(a: string, b: string)
    ensures SameName(a, b) <==> LowerAscii(a) == LowerAscii(b)
  {
    if SameName(a, b) {
      forall i | 0 <= i < |a|
        ensures LowerAscii(a)[i] == LowerAscii(b)[i]
      {
        assert Fold(a[i]) == Fold(b[i]);
      }
    }
    if LowerAscii(a) == LowerAscii(b) {
      forall i | 0 <= i < |a|
        ensures Fold(a[i]) == Fold(b[i])
      {
        assert LowerAscii(a)[i] == LowerAscii(b)[i];
      }
    }
  }

  /** These names, in lower case, are this group. */
  ghost predicate Spells(names: seq<string>, group: set<string>) {
    && (forall i | 0 <= i < |names| :: LowerAscii(names[i]) in group)
    && (forall x | x in group :: exists i :: 0 <= i < |names| && LowerAscii(names[i]) == x)
  }

  lemma NamedIff(name: string, names: seq<string>, group: set<string>)
    requires Spells(names, group)
    ensures Named(name, names) <==> LowerAscii(name) in group
  {
    hide SameName, LowerAscii;
    if i :| 0 <= i < |names| && SameName(name, names[i]) {
      SameNameIff(name, names[i]);
    }
    if LowerAscii(name) in group {
      var i :| 0 <= i < |names| && LowerAscii(names[i]) == LowerAscii(name);
      SameNameIff(name, names[i]);
    }
  }

  lemma LowerVirtualAlloc()
    ensures LowerAscii("VirtualAlloc") == "virtualalloc"
  {
  }

  lemma LowerVirtualAllocEx()
    ensures LowerAscii("VirtualAllocEx") == "virtualallocex"
  {
  }

  lemma LowerVirtualProtect()
    ensures LowerAscii("VirtualProtect") == "virtualprotect"
  {
  }

  lemma LowerVirtualProtectEx()
    ensures LowerAscii("VirtualProtectEx") == "virtualprotectex"
  {
  }

  lemma LowerNtAllocateVirtualMemory()
    ensures LowerAscii("NtAllocateVirtualMemory") == "ntallocatevirtualmemory"
  {
  }

  lemma LowerNtProtectVirtualMemory()
    ensures LowerAscii("NtProtectVirtualMemory") == "ntprotectvirtualmemory"
  {
  }

  lemma LowerWriteProcessMemory()
    ensures LowerAscii("WriteProcessMemory") == "writeprocessmemory"
  {
  }

  lemma LowerNtWriteVirtualMemory()
    ensures LowerAscii("NtWriteVirtualMemory") == "ntwritevirtualmemory"
  {
  }

  lemma LowerReadProcessMemory()
    ensures LowerAscii("ReadProcessMemory") == "readprocessmemory"
  {
  }

  lemma LowerNtReadVirtualMemory()
    ensures LowerAscii("NtReadVirtualMemory") == "ntreadvirtualmemory"
  {
  }

  lemma LowerCreateRemoteThread()
    ensures LowerAscii("CreateRemoteThread") == "createremotethread"
  {
  }

  lemma LowerNtCreateThreadEx()
    ensures LowerAscii("NtCreateThreadEx") == "ntcreatethreadex"
  {
  }

  lemma LowerRtlCreateUserThread()
    ensures LowerAscii("RtlCreateUserThread") == "rtlcreateuserthread"
  {
  }

  lemma LowerGetThreadContext()
    ensures LowerAscii("GetThreadContext") == "getthreadcontext"
  {
  }

  lemma LowerSetThreadContext()
    ensures LowerAscii("SetThreadContext") == "setthreadcontext"
  {
  }

  lemma LowerWow64GetThreadContext()
    ensures LowerAscii("Wow64GetThreadContext") == "wow64getthreadcontext"
  {
  }

  lemma LowerWow64SetThreadContext()
    ensures LowerAscii("Wow64SetThreadContext") == "wow64setthreadcontext"
  {
  }

  lemma LowerResumeThread()
    ensures LowerAscii("ResumeThread") == "resumethread"
  {
  }

  lemma LowerSuspendThread()
    ensures LowerAscii("SuspendThread") == "suspendthread"
  {
  }

  lemma LowerNtUnmapViewOfSection()
    ensures LowerAscii("NtUnmapViewOfSection") == "ntunmapviewofsection"
  {
  }

  lemma LowerZwUnmapViewOfSection()
    ensures LowerAscii("ZwUnmapViewOfSection") == "zwunmapviewofsection"
  {
  }

  lemma LowerCreateFileMappingA()
    ensures LowerAscii("CreateFileMappingA") == "createfilemappinga"
  {
  }

  lemma LowerCreateFileMappingW()
    ensures LowerAscii("CreateFileMappingW") == "createfilemappingw"
  {
  }

  lemma LowerMapViewOfFile()
    ensures LowerAscii("MapViewOfFile") == "mapviewoffile"
  {
  }

  lemma LowerNtMapViewOfSection()
    ensures LowerAscii("NtMapViewOfSection") == "ntmapviewofsection"
  {
  }

  lemma LowerZwMapViewOfSection()
    ensures LowerAscii("ZwMapViewOfSection") == "zwmapviewofsection"
  {
  }

  lemma LowerOpenProcess()
    ensures LowerAscii("OpenProcess") == "openprocess"
  {
  }

  lemma LowerNtOpenProcess()
    ensures LowerAscii("NtOpenProcess") == "ntopenprocess"
  {
  }

  lemma MemoryPermissionSpelled()
    ensures Spells(MEMORY_PERMISSION_APIS, MEMORY_PERMISSION)
  {
    hide LowerAscii;
    LowerVirtualAlloc();
    LowerVirtualAllocEx();
    LowerVirtualProtect();
    LowerVirtualProtectEx();
    LowerNtAllocateVirtualMemory();
    LowerNtProtectVirtualMemory();
    var names := MEMORY_PERMISSION_APIS;
    assert LowerAscii(names[0]) == "virtualalloc";
    assert LowerAscii(names[1]) == "virtualallocex";
    assert LowerAscii(names[2]) == "virtualprotect";
    assert LowerAscii(names[3]) == "virtualprotectex";
    assert LowerAscii(names[4]) == "ntallocatevirtualmemory";
    assert LowerAscii(names[5]) == "ntprotectvirtualmemory";
  }

  lemma RemoteMemorySpelled()
    ensures Spells(REMOTE_MEMORY_APIS, REMOTE_MEMORY)
  {
    hide LowerAscii;
    LowerWriteProcessMemory();
    LowerNtWriteVirtualMemory();
    LowerReadProcessMemory();
    LowerNtReadVirtualMemory();
    var names := REMOTE_MEMORY_APIS;
    assert LowerAscii(names[0]) == "writeprocessmemory";
    assert LowerAscii(names[1]) == "ntwritevirtualmemory";
    assert LowerAscii(names[2]) == "readprocessmemory";
    assert LowerAscii(names[3]) == "ntreadvirtualmemory";
  }

  lemma RemoteThreadSpelled()
    ensures Spells(REMOTE_THREAD_APIS, REMOTE_THREAD)
  {
    hide LowerAscii;
    LowerCreateRemoteThread();
    LowerNtCreateThreadEx();
    LowerRtlCreateUserThread();
    var names := REMOTE_THREAD_APIS;
    assert LowerAscii(names[0]) == "createremotethread";
    assert LowerAscii(names[1]) == "ntcreatethreadex";
    assert LowerAscii(names[2]) == "rtlcreateuserthread";
  }

  lemma ThreadContextSpelled()
    ensures Spells(THREAD_CONTEXT_APIS, THREAD_CONTEXT)
  {
    hide LowerAscii;
    LowerGetThreadContext();
    LowerSetThreadContext();
    LowerWow64GetThreadContext();
    LowerWow64SetThreadContext();
    LowerResumeThread();
    LowerSuspendThread();
    var names := THREAD_CONTEXT_APIS;
    assert LowerAscii(names[0]) == "getthreadcontext";
    assert LowerAscii(names[1]) == "setthreadcontext";
    assert LowerAscii(names[2]) == "wow64getthreadcontext";
    assert LowerAscii(names[3]) == "wow64setthreadcontext";
    assert LowerAscii(names[4]) == "resumethread";
    assert LowerAscii(names[5]) == "suspendthread";
  }

  lemma ImageUnmapSpelled()
    ensures Spells(IMAGE_UNMAP_APIS, IMAGE_UNMAP)
  {
    hide LowerAscii;
    LowerNtUnmapViewOfSection();
    LowerZwUnmapViewOfSection();
    var names := IMAGE_UNMAP_APIS;
    assert LowerAscii(names[0]) == "ntunmapviewofsection";
    assert LowerAscii(names[1]) == "zwunmapviewofsection";
  }

  lemma SectionMapSpelled()
    ensures Spells(SECTION_MAP_APIS, SECTION_MAP)
  {
    hide LowerAscii;
    LowerCreateFileMappingA();
    LowerCreateFileMappingW();
    LowerMapViewOfFile();
    LowerNtMapViewOfSection();
    LowerZwMapViewOfSection();
    var names := SECTION_MAP_APIS;
    assert LowerAscii(names[0]) == "createfilemappinga";
    assert LowerAscii(names[1]) == "createfilemappingw";
    assert LowerAscii(names[2]) == "mapviewoffile";
    assert LowerAscii(names[3]) == "ntmapviewofsection";
    assert LowerAscii(names[4]) == "zwmapviewofsection";
  }

  lemma ProcessOpenSpelled()
    ensures Spells(PROCESS_OPEN_APIS, PROCESS_OPEN)
  {
    hide LowerAscii;
    LowerOpenProcess();
    LowerNtOpenProcess();
    var names := PROCESS_OPEN_APIS;
    assert LowerAscii(names[0]) == "openprocess";
    assert LowerAscii(names[1]) == "ntopenprocess";
  }

  lemma {:induction false} TagInFrom(api: string, k: nat, j: nat)
    requires k <= 7 && j < 7
    ensures ALL_TAGS[j] in TagsFrom(api, k) <==> k <= j && api in Group(j)
    decreases 7 - k
  {
    hide Group;
    TagsDiffer();
    if k < 7 {
      TagInFrom(api, k + 1, j);
    }
  }

  lemma TagsDiffer()
    ensures forall i, j | 0 <= i < 7 && 0 <= j < 7 && ALL_TAGS[i] == ALL_TAGS[j] :: i == j
  {
    var t := ALL_TAGS;
    assert |t[0]| == 17 && |t[1]| == |t[2]| == 13 && |t[3]| == 14 && |t[4]| == |t[5]| == 11 && |t[6]| == 12;
    assert t[1][7] == 'm' && t[2][7] == 't' && t[4][0] == 'i' && t[5][0] == 's';
  }

  /** An imported name gets a tag exactly when it is one of the tag's functions, in any case. */
  lemma TagsExact(name: string)
    ensures "memory-permission" in TagsOf(name) <==> Named(name, MEMORY_PERMISSION_APIS)
    ensures "remote-memory" in TagsOf(name) <==> Named(name, REMOTE_MEMORY_APIS)
    ensures "remote-thread" in TagsOf(name) <==> Named(name, REMOTE_THREAD_APIS)
    ensures "thread-context" in TagsOf(name) <==> Named(name, THREAD_CONTEXT_APIS)
    ensures "image-unmap" in TagsOf(name) <==> Named(name, IMAGE_UNMAP_APIS)
    ensures "section-map" in TagsOf(name) <==> Named(name, SECTION_MAP_APIS)
    ensures "process-open" in TagsOf(name) <==> Named(name, PROCESS_OPEN_APIS)
  {
    hide LowerAscii, Named, Spells, TagsFrom;
    MemoryPermissionSpelled();
    NamedIff(name, MEMORY_PERMISSION_APIS, MEMORY_PERMISSION);
    TagInFrom(LowerAscii(name), 0, 0);
    RemoteMemorySpelled();
    NamedIff(name, REMOTE_MEMORY_APIS, REMOTE_MEMORY);
    TagInFrom(LowerAscii(name), 0, 1);
    RemoteThreadSpelled();
    NamedIff(name, REMOTE_THREAD_APIS, REMOTE_THREAD);
    TagInFrom(LowerAscii(name), 0, 2);
    ThreadContextSpelled();
    NamedIff(name, THREAD_CONTEXT_APIS, THREAD_CONTEXT);
    TagInFrom(LowerAscii(name), 0, 3);
    ImageUnmapSpelled();
    NamedIff(name, IMAGE_UNMAP_APIS, IMAGE_UNMAP);
    TagInFrom(LowerAscii(name), 0, 4);
    SectionMapSpelled();
    NamedIff(name, SECTION_MAP_APIS, SECTION_MAP);
    TagInFrom(LowerAscii(name), 0, 5);
    ProcessOpenSpelled();
    NamedIff(name, PROCESS_OPEN_APIS, PROCESS_OPEN);
    TagInFrom(LowerAscii(name), 0, 6);
  }
}
