/** The process under scan as the operating system shows it, and the small tests of memscan.cpp.
    System calls, hashing, case folding and wildcard matching are fields of the world. */
module Memory {
  import opened Text
  import opened PeFormat

  const ADDRESS_SPACE := 0x1_0000_0000_0000_0000

  const MEM_COMMIT: U32 := 0x1000
  const MEM_IMAGE: U32 := 0x100_0000
  const MEM_MAPPED: U32 := 0x4_0000
  const MEM_PRIVATE: U32 := 0x2_0000

  /** What `VirtualQueryEx` answers. */
  datatype Region = Region(base: U64, allocationBase: U64, size: U64, state: U32, protect: U32, kind: U32)

  datatype Module = Module(base: U64, path: string)

  datatype ThreadStart = ThreadStart(tid: U32, address: U64)

  datatype World = World(
    process: string,
    maxAddr: U64,
    query: U64 -> Option<Region>,
    mappedPath: U64 -> string,
    memory: (U64, nat) -> Bytes,
    modulesKnown: bool,
    modules: seq<Module>,
    threads: seq<ThreadStart>,
    files: FileSystem)

  /** Everything that does not belong to the process. */
  datatype FileSystem = FileSystem(
    size: string -> Option<nat>,
    prefix: (string, nat) -> Bytes,
    lower: string -> string,
    matches: (string, string) -> bool,
    sha: string -> string,
    entropy: seq<nat> -> real)

  datatype Options = Options(ignoreProcesses: seq<string>, ignorePaths: seq<string>, baseline: seq<string>)

  // ----- reads: at most the wanted bytes, none on failure

  function Take(d: Bytes, n: nat): (r: Bytes)
    ensures |r| <= n
  {
    if |d| <= n then d else d[..n]
  }

  function ReadRemote(w: World, base: U64, n: nat): (r: Bytes)
    ensures |r| <= n
  {
    Take(w.memory(base, n), n)
  }

  function ReadFilePrefix(fs: FileSystem, path: string, n: nat): (r: Bytes)
    ensures |r| <= n
  {
    if path == "" then [] else Take(fs.prefix(path, n), n)
  }

  // ----- protection bits

  function BaseProtect(protect: U32): U32 { protect % 0x100 }

  predicate Guarded(protect: U32) { protect / 0x100 % 2 == 1 }

  predicate Readable(protect: U32) { !Guarded(protect) && BaseProtect(protect) != 0x01 }

  predicate HasExecute(protect: U32) { BaseProtect(protect) in {0x10, 0x20, 0x40, 0x80} }

  predicate HasWrite(protect: U32) { BaseProtect(protect) in {0x04, 0x08, 0x40, 0x80} }

  predicate HasWriteExec(protect: U32) { HasWrite(protect) && HasExecute(protect) }

  predicate HasRead(protect: U32) { BaseProtect(protect) in {0x02, 0x04, 0x08, 0x20, 0x40, 0x80} }

  function ProtectToString(protect: U32): string {
    if BaseProtect(protect) == 0x01 then "NOACC"
    else
      [if HasRead(protect) then 'R' else '-',
       if HasWrite(protect) then 'W' else '-',
       if HasExecute(protect) then 'X' else '-'] + if Guarded(protect) then "G" else ""
  }

  function TypeToString(kind: U32): string {
    if kind == MEM_IMAGE then "IMAGE" else if kind == MEM_MAPPED then "MAPPED" else "PRIVATE"
  }

  predicate SectionWrite(characteristics: U32) { characteristics / 0x8000_0000 % 2 == 1 }

  predicate SectionExecute(characteristics: U32) { characteristics / 0x2000_0000 % 2 == 1 }

  predicate SectionRead(characteristics: U32) { characteristics / 0x4000_0000 % 2 == 1 }

  function SectionFlags(characteristics: U32): string {
    [if SectionRead(characteristics) then 'R' else '-',
     if SectionWrite(characteristics) then 'W' else '-',
     if SectionExecute(characteristics) then 'X' else '-']
  }

  // ----- paths

  function Backslashes(path: string): (r: string)
    ensures |r| == |path|
  {
    seq(|path|, i requires 0 <= i < |path| => if path[i] == '/' then '\\' else path[i])
  }

  const LONG_PREFIX := "\\\\?\\"

  /** Only one long-path prefix is taken off, so the result can be normalized further. */
  function NormalizePath(fs: FileSystem, path: string): string {
    var p := Backslashes(path);
    fs.lower(if LONG_PREFIX <= p then p[4..] else p)
  }

  predicate ShouldIgnore(fs: FileSystem, o: Options, process: string, path: string) {
    || (exists i :: 0 <= i < |o.ignoreProcesses| && fs.matches(process, o.ignoreProcesses[i]))
    || (exists i :: 0 <= i < |o.ignorePaths| && fs.matches(path, o.ignorePaths[i]))
  }

  // ----- PE facts

  function Pe(fs: FileSystem, d: Bytes): PeQuick
    requires |d| <= 0x1_0000
  {
    PeOf(d, fs.entropy)
  }

  predicate ContainsPe(fs: FileSystem, d: Bytes)
    requires |d| <= 0x1_0000
  {
    |d| >= 0x100 && Pe(fs, d).valid
  }

  function EntropyOf(fs: FileSystem, d: Bytes): real {
    if d == [] then 0.0 else fs.entropy(Histogram(d))
  }

  predicate SamePeIdentity(a: PeQuick, b: PeQuick) {
    && a.valid && b.valid
    && a.machine == b.machine
    && a.sections == b.sections
    && a.optionalMagic == b.optionalMagic
    && a.timestamp == b.timestamp
    && a.characteristics == b.characteristics
    && a.subsystem == b.subsystem
  }

  datatype ImageLayout = ImageLayout(valid: bool, pe: PeQuick)

  /** The headers of an image, read with the largest probe that works. */
  function LayoutOf(w: World, base: U64): ImageLayout {
    var d :=
      if ReadRemote(w, base, 65536) != [] then ReadRemote(w, base, 65536)
      else if ReadRemote(w, base, 16384) != [] then ReadRemote(w, base, 16384)
      else ReadRemote(w, base, 4096);
    if d == [] then ImageLayout(false, NO_PE)
    else ImageLayout(Pe(w.files, d).valid, Pe(w.files, d))
  }

  /** Bytes of a file behind its raw image. */
  function OverlayOf(fs: FileSystem, path: string): nat {
    var head := ReadFilePrefix(fs, path, 65536);
    if path == "" || fs.size(path).None? || head == [] then 0
    else
      var pe := Pe(fs, head);
      if pe.valid && pe.rawImageEnd != 0 && fs.size(path).value > pe.rawImageEnd
      then fs.size(path).value - pe.rawImageEnd
      else 0
  }

  function FindModule(modules: seq<Module>, base: U64): Option<Module> {
    if modules == [] then None
    else if modules[0].base == base then Some(modules[0])
    else FindModule(modules[1..], base)
  }

  /** Threads that start inside the region; none when its end wraps around. */
  function ThreadsInRegion(threads: seq<ThreadStart>, base: U64, size: U64): seq<U32> {
    var end := (base + size) % ADDRESS_SPACE;
    if end <= base || threads == [] then []
    else
      (if base <= threads[0].address < end then [threads[0].tid] else []) +
      ThreadsInRegion(threads[1..], base, size)
  }
}
