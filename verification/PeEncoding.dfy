/** Structures of the Microsoft PE Format specification as lists of fields in the order of the
    specification, and what the parser's reads give where such a structure stands in a buffer. */
module PeEncoding {
  import opened Text
  import opened PeFormat

  // ----- bytes

  /** The bytes `b` stand at offset `o`. */
  predicate At(d: Bytes, o: nat, b: Bytes) { o + |b| <= |d| && d[o..o + |b|] == b }

  /** A field of one, two, four or eight bytes. */
  datatype Word = W8(b: Byte) | W16(h: U16) | W32(w: U32) | W64(q: U64)
  {
    function Width(): nat {
      match this
      case W8(_) => 1
      case W16(_) => 2
      case W32(_) => 4
      case W64(_) => 8
    }
  }

  function Bytes16(x: U16): (b: Bytes)
    ensures |b| == 2
  {
    [x % 0x100, x / 0x100]
  }

  /** The lower half comes first. */
  function Bytes32(x: U32): (b: Bytes)
    ensures |b| == 4
  {
    Bytes16(x % 0x1_0000) + Bytes16(x / 0x1_0000)
  }

  function Bytes64(x: U64): (b: Bytes)
    ensures |b| == 8
  {
    Bytes32(x % 0x1_0000_0000) + Bytes32(x / 0x1_0000_0000)
  }

  function WordBytes(w: Word): (b: Bytes)
    ensures |b| == w.Width()
  {
    match w
    case W8(x) => [x]
    case W16(x) => Bytes16(x)
    case W32(x) => Bytes32(x)
    case W64(x) => Bytes64(x)
  }

  /** The bytes of the first `n` fields. */
  function Encode(ws: seq<Word>, n: nat): (b: Bytes)
    requires n <= |ws|
    ensures |b| == Offset(ws, n)
  {
    if n == 0 then [] else Encode(ws, n - 1) + WordBytes(ws[n - 1])
  }

  function Offset(ws: seq<Word>, n: nat): nat
    requires n <= |ws|
  {
    if n == 0 then 0 else Offset(ws, n - 1) + ws[n - 1].Width()
  }

  /** The structure stands at offset `o`. */
  predicate Stands(d: Bytes, o: nat, ws: seq<Word>) { At(d, o, Encode(ws, |ws|)) }

  lemma AtSplit(d: Bytes, o: nat, a: Bytes, b: Bytes)
    ensures At(d, o, a + b) <==> At(d, o, a) && At(d, o + |a|, b)
  {
    if o + |a + b| <= |d| {
      assert d[o..o + |a + b|] == d[o..o + |a|] + d[o + |a|..o + |a| + |b|];
      assert d[o..o + |a|] == d[o..o + |a + b|][..|a|] && d[o + |a|..o + |a| + |b|] == d[o..o + |a + b|][|a|..];
      assert a == (a + b)[..|a|] && b == (a + b)[|a|..];
    }
  }

  lemma {:induction false} FieldAt(d: Bytes, o: nat, ws: seq<Word>, n: nat, k: nat)
    requires k < n <= |ws| && At(d, o, Encode(ws, n))
    ensures At(d, o + Offset(ws, k), WordBytes(ws[k]))
    decreases n
  {
    hide WordBytes, At;
    AtSplit(d, o, Encode(ws, n - 1), WordBytes(ws[n - 1]));
    if k < n - 1 {
      FieldAt(d, o, ws, n - 1, k);
    }
  }

  // ----- reads

  function Number(a: int, b: int, c: int, d: int): int { a + 0x100 * b + 0x1_0000 * c + 0x100_0000 * d }

  /** The numbers in bytes. */
  lemma LittleEndian(d: Bytes, o: nat)
    ensures o + 2 <= |d| ==> U16At(d, o) == d[o] as int + 0x100 * (d[o + 1] as int)
    ensures o + 4 <= |d| ==> U32At(d, o) == Number(d[o], d[o + 1], d[o + 2], d[o + 3])
    ensures o + 8 <= |d| ==> U64At(d, o) == Number(d[o], d[o + 1], d[o + 2], d[o + 3]) +
                                            0x1_0000_0000 * Number(d[o + 4], d[o + 5], d[o + 6], d[o + 7])
  {
  }

  lemma Reads16(d: Bytes, o: nat, x: U16)
    requires At(d, o, Bytes16(x))
    ensures o + 2 <= |d| && U16At(d, o) == x
  {
    assert d[o] == d[o..o + 2][0] && d[o + 1] == d[o..o + 2][1];
  }

  lemma Reads32(d: Bytes, o: nat, x: U32)
    requires At(d, o, Bytes32(x))
    ensures o + 4 <= |d| && U32At(d, o) == x
  {
    hide U16At, Bytes16, At;
    AtSplit(d, o, Bytes16(x % 0x1_0000), Bytes16(x / 0x1_0000));
    Reads16(d, o, x % 0x1_0000);
    Reads16(d, o + 2, x / 0x1_0000);
  }

  lemma Reads64(d: Bytes, o: nat, x: U64)
    requires At(d, o, Bytes64(x))
    ensures o + 8 <= |d| && U64At(d, o) == x
  {
    hide U32At, Bytes32, At;
    AtSplit(d, o, Bytes32(x % 0x1_0000_0000), Bytes32(x / 0x1_0000_0000));
    Reads32(d, o, x % 0x1_0000_0000);
    Reads32(d, o + 4, x / 0x1_0000_0000);
  }

  /** What a field reads as. */
  ghost predicate ReadsAs(d: Bytes, o: nat, w: Word) {
    && o + w.Width() <= |d|
    && match w
       case W8(x) => d[o] == x
       case W16(x) => U16At(d, o) == x
       case W32(x) => U32At(d, o) == x
       case W64(x) => U64At(d, o) == x
  }

  lemma WordReads(d: Bytes, o: nat, w: Word)
    requires At(d, o, WordBytes(w))
    ensures ReadsAs(d, o, w)
  {
    hide U16At, U32At, U64At, Bytes16, Bytes32, Bytes64;
    match w
    case W8(x) => assert d[o] == d[o..o + 1][0];
    case W16(x) => Reads16(d, o, x);
    case W32(x) => Reads32(d, o, x);
    case W64(x) => Reads64(d, o, x);
  }

  lemma FieldReads(d: Bytes, o: nat, ws: seq<Word>, k: nat)
    requires Stands(d, o, ws) && k < |ws|
    ensures ReadsAs(d, o + Offset(ws, k), ws[k])
  {
    hide ReadsAs, At, Encode, WordBytes;
    FieldAt(d, o, ws, |ws|, k);
    WordReads(d, o + Offset(ws, k), ws[k]);
  }

  // ----- file header

  datatype CoffHeader = CoffHeader(
    machine: U16,
    numberOfSections: U16,
    timeDateStamp: U32,
    pointerToSymbolTable: U32,
    numberOfSymbols: U32,
    sizeOfOptionalHeader: U16,
    characteristics: U16)

  function CoffWords(h: CoffHeader): seq<Word> {
    [W16(h.machine), W16(h.numberOfSections), W32(h.timeDateStamp), W32(h.pointerToSymbolTable), W32(h.numberOfSymbols),
     W16(h.sizeOfOptionalHeader), W16(h.characteristics)]
  }

  lemma CoffReads(d: Bytes, o: nat, h: CoffHeader)
    requires Stands(d, o, CoffWords(h))
    ensures o + 20 <= |d|
    ensures U16At(d, o) == h.machine && U16At(d, o + 2) == h.numberOfSections && U32At(d, o + 4) == h.timeDateStamp
    ensures U16At(d, o + 16) == h.sizeOfOptionalHeader && U16At(d, o + 18) == h.characteristics
  {
    hide Stands, U16At, U32At;
    var ws := CoffWords(h);
    assert Offset(ws, 1) == 2 && Offset(ws, 2) == 4 && Offset(ws, 3) == 8 && Offset(ws, 4) == 12;
    assert Offset(ws, 5) == 16 && Offset(ws, 6) == 18;
    FieldReads(d, o, ws, 0);
    FieldReads(d, o, ws, 1);
    FieldReads(d, o, ws, 2);
    FieldReads(d, o, ws, 5);
    FieldReads(d, o, ws, 6);
  }

  // ----- optional headers, without their data directories

  datatype Optional32 = Optional32(
    majorLinkerVersion: Byte,
    minorLinkerVersion: Byte,
    sizeOfCode: U32,
    sizeOfInitializedData: U32,
    sizeOfUninitializedData: U32,
    addressOfEntryPoint: U32,
    baseOfCode: U32,
    baseOfData: U32,
    imageBase: U32,
    sectionAlignment: U32,
    fileAlignment: U32,
    majorOsVersion: U16,
    minorOsVersion: U16,
    majorImageVersion: U16,
    minorImageVersion: U16,
    majorSubsystemVersion: U16,
    minorSubsystemVersion: U16,
    win32Version: U32,
    sizeOfImage: U32,
    sizeOfHeaders: U32,
    checkSum: U32,
    subsystem: U16,
    dllCharacteristics: U16,
    stackReserve: U32,
    stackCommit: U32,
    heapReserve: U32,
    heapCommit: U32,
    loaderFlags: U32,
    numberOfRvaAndSizes: U32)

  /** The standard fields. */
  function Standard32Words(h: Optional32): seq<Word> {
    [W16(0x10b), W8(h.majorLinkerVersion), W8(h.minorLinkerVersion), W32(h.sizeOfCode),
     W32(h.sizeOfInitializedData), W32(h.sizeOfUninitializedData), W32(h.addressOfEntryPoint),
     W32(h.baseOfCode), W32(h.baseOfData)]
  }

  /** The fields specific to Windows, up to the stack sizes. */
  function Image32Words(h: Optional32): seq<Word> {
    [W32(h.imageBase), W32(h.sectionAlignment), W32(h.fileAlignment), W16(h.majorOsVersion),
     W16(h.minorOsVersion), W16(h.majorImageVersion), W16(h.minorImageVersion), W16(h.majorSubsystemVersion),
     W16(h.minorSubsystemVersion), W32(h.win32Version), W32(h.sizeOfImage), W32(h.sizeOfHeaders),
     W32(h.checkSum), W16(h.subsystem), W16(h.dllCharacteristics)]
  }

  /** The stack and heap sizes, and how many data directories follow. */
  function Stack32Words(h: Optional32): seq<Word> {
    [W32(h.stackReserve), W32(h.stackCommit), W32(h.heapReserve), W32(h.heapCommit), W32(h.loaderFlags),
     W32(h.numberOfRvaAndSizes)]
  }

  predicate Optional32Stands(d: Bytes, o: nat, h: Optional32) {
    Stands(d, o, Standard32Words(h)) && Stands(d, o + 28, Image32Words(h)) && Stands(d, o + 72, Stack32Words(h))
  }

  lemma Standard32Reads(d: Bytes, o: nat, h: Optional32)
    requires Stands(d, o, Standard32Words(h))
    ensures o + 28 <= |d|
    ensures U16At(d, o) == 0x10b
    ensures U32At(d, o + 16) == h.addressOfEntryPoint
  {
    hide Stands, U16At, U32At, U64At;
    var ws := Standard32Words(h);
    assert Offset(ws, 1) == 2 && Offset(ws, 2) == 3 && Offset(ws, 3) == 4 && Offset(ws, 4) == 8;
    assert Offset(ws, 5) == 12 && Offset(ws, 6) == 16 && Offset(ws, 7) == 20 && Offset(ws, 8) == 24;
    assert Offset(ws, 9) == 28;
    EncodedLength(d, o, ws);
    FieldReads(d, o, ws, 0);
    FieldReads(d, o, ws, 6);
  }

  lemma Image32Reads(d: Bytes, o: nat, h: Optional32)
    requires Stands(d, o + 28, Image32Words(h))
    ensures o + 72 <= |d|
    ensures U32At(d, o + 28) == h.imageBase
    ensures U32At(d, o + 56) == h.sizeOfImage
    ensures U32At(d, o + 64) == h.checkSum
    ensures U16At(d, o + 68) == h.subsystem
  {
    hide Stands, U16At, U32At, U64At;
    var ws := Image32Words(h);
    assert Offset(ws, 1) == 4 && Offset(ws, 2) == 8 && Offset(ws, 3) == 12 && Offset(ws, 4) == 14;
    assert Offset(ws, 5) == 16 && Offset(ws, 6) == 18 && Offset(ws, 7) == 20 && Offset(ws, 8) == 22;
    assert Offset(ws, 9) == 24 && Offset(ws, 10) == 28 && Offset(ws, 11) == 32 && Offset(ws, 12) == 36;
    assert Offset(ws, 13) == 40 && Offset(ws, 14) == 42 && Offset(ws, 15) == 44;
    EncodedLength(d, o + 28, ws);
    FieldReads(d, o + 28, ws, 0);
    FieldReads(d, o + 28, ws, 10);
    FieldReads(d, o + 28, ws, 12);
    FieldReads(d, o + 28, ws, 13);
  }

  lemma Stack32Reads(d: Bytes, o: nat, h: Optional32)
    requires Stands(d, o + 72, Stack32Words(h))
    ensures o + 96 <= |d|
    ensures U32At(d, o + 92) == h.numberOfRvaAndSizes
  {
    hide Stands, U16At, U32At, U64At;
    var ws := Stack32Words(h);
    assert Offset(ws, 1) == 4 && Offset(ws, 2) == 8 && Offset(ws, 3) == 12 && Offset(ws, 4) == 16;
    assert Offset(ws, 5) == 20 && Offset(ws, 6) == 24;
    EncodedLength(d, o + 72, ws);
    FieldReads(d, o + 72, ws, 5);
  }

  datatype Optional64 = Optional64(
    majorLinkerVersion: Byte,
    minorLinkerVersion: Byte,
    sizeOfCode: U32,
    sizeOfInitializedData: U32,
    sizeOfUninitializedData: U32,
    addressOfEntryPoint: U32,
    baseOfCode: U32,
    imageBase: U64,
    sectionAlignment: U32,
    fileAlignment: U32,
    majorOsVersion: U16,
    minorOsVersion: U16,
    majorImageVersion: U16,
    minorImageVersion: U16,
    majorSubsystemVersion: U16,
    minorSubsystemVersion: U16,
    win32Version: U32,
    sizeOfImage: U32,
    sizeOfHeaders: U32,
    checkSum: U32,
    subsystem: U16,
    dllCharacteristics: U16,
    stackReserve: U64,
    stackCommit: U64,
    heapReserve: U64,
    heapCommit: U64,
    loaderFlags: U32,
    numberOfRvaAndSizes: U32)

  /** The standard fields. */
  function Standard64Words(h: Optional64): seq<Word> {
    [W16(0x20b), W8(h.majorLinkerVersion), W8(h.minorLinkerVersion), W32(h.sizeOfCode),
     W32(h.sizeOfInitializedData), W32(h.sizeOfUninitializedData), W32(h.addressOfEntryPoint),
     W32(h.baseOfCode)]
  }

  /** The fields specific to Windows, up to the stack sizes. */
  function Image64Words(h: Optional64): seq<Word> {
    [W64(h.imageBase), W32(h.sectionAlignment), W32(h.fileAlignment), W16(h.majorOsVersion),
     W16(h.minorOsVersion), W16(h.majorImageVersion), W16(h.minorImageVersion), W16(h.majorSubsystemVersion),
     W16(h.minorSubsystemVersion), W32(h.win32Version), W32(h.sizeOfImage), W32(h.sizeOfHeaders),
     W32(h.checkSum), W16(h.subsystem), W16(h.dllCharacteristics)]
  }

  /** The stack and heap sizes, and how many data directories follow. */
  function Stack64Words(h: Optional64): seq<Word> {
    [W64(h.stackReserve), W64(h.stackCommit), W64(h.heapReserve), W64(h.heapCommit), W32(h.loaderFlags),
     W32(h.numberOfRvaAndSizes)]
  }

  predicate Optional64Stands(d: Bytes, o: nat, h: Optional64) {
    Stands(d, o, Standard64Words(h)) && Stands(d, o + 24, Image64Words(h)) && Stands(d, o + 72, Stack64Words(h))
  }

  lemma Standard64Reads(d: Bytes, o: nat, h: Optional64)
    requires Stands(d, o, Standard64Words(h))
    ensures o + 24 <= |d|
    ensures U16At(d, o) == 0x20b
    ensures U32At(d, o + 16) == h.addressOfEntryPoint
  {
    hide Stands, U16At, U32At, U64At;
    var ws := Standard64Words(h);
    assert Offset(ws, 1) == 2 && Offset(ws, 2) == 3 && Offset(ws, 3) == 4 && Offset(ws, 4) == 8;
    assert Offset(ws, 5) == 12 && Offset(ws, 6) == 16 && Offset(ws, 7) == 20 && Offset(ws, 8) == 24;
    EncodedLength(d, o, ws);
    FieldReads(d, o, ws, 0);
    FieldReads(d, o, ws, 6);
  }

  lemma Image64Reads(d: Bytes, o: nat, h: Optional64)
    requires Stands(d, o + 24, Image64Words(h))
    ensures o + 72 <= |d|
    ensures U64At(d, o + 24) == h.imageBase
    ensures U32At(d, o + 56) == h.sizeOfImage
    ensures U32At(d, o + 64) == h.checkSum
    ensures U16At(d, o + 68) == h.subsystem
  {
    hide Stands, U16At, U32At, U64At;
    var ws := Image64Words(h);
    assert Offset(ws, 1) == 8 && Offset(ws, 2) == 12 && Offset(ws, 3) == 16 && Offset(ws, 4) == 18;
    assert Offset(ws, 5) == 20 && Offset(ws, 6) == 22 && Offset(ws, 7) == 24 && Offset(ws, 8) == 26;
    assert Offset(ws, 9) == 28 && Offset(ws, 10) == 32 && Offset(ws, 11) == 36 && Offset(ws, 12) == 40;
    assert Offset(ws, 13) == 44 && Offset(ws, 14) == 46 && Offset(ws, 15) == 48;
    EncodedLength(d, o + 24, ws);
    FieldReads(d, o + 24, ws, 0);
    FieldReads(d, o + 24, ws, 10);
    FieldReads(d, o + 24, ws, 12);
    FieldReads(d, o + 24, ws, 13);
  }

  lemma Stack64Reads(d: Bytes, o: nat, h: Optional64)
    requires Stands(d, o + 72, Stack64Words(h))
    ensures o + 112 <= |d|
    ensures U32At(d, o + 108) == h.numberOfRvaAndSizes
  {
    hide Stands, U16At, U32At, U64At;
    var ws := Stack64Words(h);
    assert Offset(ws, 1) == 8 && Offset(ws, 2) == 16 && Offset(ws, 3) == 24 && Offset(ws, 4) == 32;
    assert Offset(ws, 5) == 36 && Offset(ws, 6) == 40;
    EncodedLength(d, o + 72, ws);
    FieldReads(d, o + 72, ws, 5);
  }

  lemma EncodedLength(d: Bytes, o: nat, ws: seq<Word>)
    requires Stands(d, o, ws)
    ensures o + Offset(ws, |ws|) <= |d|
  {
  }

  datatype Directory = Directory(rva: U32, size: U32)

  function DirectoryWords(x: Directory): seq<Word> { [W32(x.rva), W32(x.size)] }

  /** The data directories stand one after the other. */
  predicate DirectoriesStand(d: Bytes, o: nat, xs: seq<Directory>) {
    forall i | 0 <= i < |xs| :: Stands(d, o + 8 * i, DirectoryWords(xs[i]))
  }

  lemma DirectoryReads(d: Bytes, o: nat, x: Directory)
    requires Stands(d, o, DirectoryWords(x))
    ensures o + 8 <= |d| && U32At(d, o) == x.rva && U32At(d, o + 4) == x.size
  {
    hide Stands, U32At;
    var ws := DirectoryWords(x);
    assert Offset(ws, 1) == 4;
    FieldReads(d, o, ws, 0);
    FieldReads(d, o, ws, 1);
  }

  // ----- section headers

  datatype SectionHeader = SectionHeader(
    name: seq<Byte>,
    virtualSize: U32,
    virtualAddress: U32,
    sizeOfRawData: U32,
    pointerToRawData: U32,
    pointerToRelocations: U32,
    pointerToLinenumbers: U32,
    numberOfRelocations: U16,
    numberOfLinenumbers: U16,
    characteristics: U32)

  /** The header after its eight bytes of name. */
  function SectionWords(h: SectionHeader): seq<Word> {
    [W32(h.virtualSize), W32(h.virtualAddress), W32(h.sizeOfRawData), W32(h.pointerToRawData),
     W32(h.pointerToRelocations), W32(h.pointerToLinenumbers), W16(h.numberOfRelocations), W16(h.numberOfLinenumbers),
     W32(h.characteristics)]
  }

  predicate SectionStands(d: Bytes, o: nat, h: SectionHeader) {
    |h.name| == 8 && At(d, o, h.name) && Stands(d, o + 8, SectionWords(h))
  }

  /** The name is what stands before the first zero byte. */
  predicate Shows(name: seq<Byte>, s: string) {
    && |s| <= |name| && (|s| < |name| ==> name[|s|] == 0)
    && forall i | 0 <= i < |s| :: name[i] != 0 && s[i] == name[i] as char
  }

  lemma {:induction false} SectionNameShows(d: Bytes, o: nat, n: nat)
    requires n <= 8 && o + 8 <= |d|
    ensures Shows(d[o + n..o + 8], SectionName(d, o, n))
    decreases 8 - n
  {
    if n < 8 && d[o + n] != 0 {
      SectionNameShows(d, o, n + 1);
      assert d[o + n..o + 8] == [d[o + n]] + d[o + n + 1..o + 8];
    }
  }

  lemma SectionReads(d: Bytes, o: nat, h: SectionHeader)
    requires SectionStands(d, o, h)
    ensures o + 40 <= |d| && Shows(h.name, SectionAt(d, o).name)
    ensures var s := SectionAt(d, o);
            && s.virtualSize == h.virtualSize && s.virtualAddress == h.virtualAddress && s.rawSize == h.sizeOfRawData
            && s.rawOffset == h.pointerToRawData && s.characteristics == h.characteristics
  {
    hide Stands, U32At, Shows, SectionName;
    var ws := SectionWords(h);
    assert Offset(ws, 1) == 4 && Offset(ws, 2) == 8 && Offset(ws, 3) == 12 && Offset(ws, 4) == 16;
    assert Offset(ws, 5) == 20 && Offset(ws, 6) == 24 && Offset(ws, 7) == 26 && Offset(ws, 8) == 28;
    assert Offset(ws, 9) == 32;
    EncodedLength(d, o + 8, ws);
    FieldReads(d, o + 8, ws, 0);
    FieldReads(d, o + 8, ws, 1);
    FieldReads(d, o + 8, ws, 2);
    FieldReads(d, o + 8, ws, 3);
    FieldReads(d, o + 8, ws, 8);
    SectionNameShows(d, o, 0);
    assert d[o + 0..o + 8] == h.name;
  }

  // ----- import descriptors and export directory

  function DescriptorWords(x: Descriptor): seq<Word> {
    [W32(x.originalFirstThunk), W32(x.timeDateStamp), W32(x.forwarderChain), W32(x.name), W32(x.firstThunk)]
  }

  lemma DescriptorReads(d: Bytes, o: nat, x: Descriptor)
    requires Stands(d, o, DescriptorWords(x))
    ensures DescriptorAt(d, o) == Some(x)
  {
    hide Stands, U32At;
    var ws := DescriptorWords(x);
    assert Offset(ws, 1) == 4 && Offset(ws, 2) == 8 && Offset(ws, 3) == 12 && Offset(ws, 4) == 16;
    FieldReads(d, o, ws, 0);
    FieldReads(d, o, ws, 1);
    FieldReads(d, o, ws, 2);
    FieldReads(d, o, ws, 3);
    FieldReads(d, o, ws, 4);
  }

  datatype ExportTable = ExportTable(
    characteristics: U32,
    timeDateStamp: U32,
    majorVersion: U16,
    minorVersion: U16,
    name: U32,
    base: U32,
    numberOfFunctions: U32,
    numberOfNames: U32,
    addressOfFunctions: U32,
    addressOfNames: U32,
    addressOfNameOrdinals: U32)

  function ExportWords(x: ExportTable): seq<Word> {
    [W32(x.characteristics), W32(x.timeDateStamp), W16(x.majorVersion), W16(x.minorVersion), W32(x.name), W32(x.base),
     W32(x.numberOfFunctions), W32(x.numberOfNames), W32(x.addressOfFunctions), W32(x.addressOfNames),
     W32(x.addressOfNameOrdinals)]
  }

  lemma ExportReads(d: Bytes, o: nat, x: ExportTable)
    requires Stands(d, o, ExportWords(x))
    ensures ExportDirectoryAt(d, o) == Some(ExportDirectory(x.numberOfNames, x.addressOfNames))
  {
    hide Stands, U32At;
    var ws := ExportWords(x);
    assert Offset(ws, 1) == 4 && Offset(ws, 2) == 8 && Offset(ws, 3) == 10 && Offset(ws, 4) == 12;
    assert Offset(ws, 5) == 16 && Offset(ws, 6) == 20 && Offset(ws, 7) == 24 && Offset(ws, 8) == 28;
    assert Offset(ws, 9) == 32 && Offset(ws, 10) == 36;
    FieldReads(d, o, ws, 7);
    FieldReads(d, o, ws, 9);
    FieldReads(d, o, ws, 10);
  }
}
