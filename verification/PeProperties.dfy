/** What the PE reading promises: where offsets and names come from, exactness on flat images, and
    stability when more bytes of the same file are read. */
module PeProperties {
  import opened Text
  import opened PeFormat

  // ----- headers

  /** The header checks in bytes: "MZ", a positive offset of "PE" and two zero bytes at byte 60, and room
      for the file header behind it. */
  lemma IsPeIff(d: Bytes)
    ensures IsPe(d) <==>
            && |d| >= 64 && d[0] == 0x4D && d[1] == 0x5A && d[63] < 0x80
            && var nt := d[60] as int + 0x100 * (d[61] as int)
                         + 0x1_0000 * (d[62] as int) + 0x100_0000 * (d[63] as int);
               && nt > 0 && nt + 24 <= |d|
               && d[nt] == 0x50 && d[nt + 1] == 0x45 && d[nt + 2] == 0 && d[nt + 3] == 0
  {
    if |d| >= 64 {
      TwoBytes(d[0], d[1]);
      var nt := U32At(d, 60);
      if nt + 24 <= |d| {
        TwoBytes(d[nt], d[nt + 1]);
        TwoBytes(d[nt + 2], d[nt + 3]);
      }
    }
  }

  lemma TwoBytes(a: Byte, b: Byte)
    ensures a as int + 0x100 * (b as int) == 0x5A4D <==> a == 0x4D && b == 0x5A
    ensures a as int + 0x100 * (b as int) == 0x4550 <==> a == 0x50 && b == 0x45
    ensures a as int + 0x100 * (b as int) == 0 <==> a == 0 && b == 0
  {
  }

  /** The entropy of a section is that of its raw bytes, as far as the buffer goes; without raw bytes in
      the buffer, that of its virtual range taken as offsets; -1 otherwise. */
  lemma SectionEntropyExact(d: Bytes, pe: PeQuick, entropy: seq<nat> -> real, i: nat)
    requires |d| <= MAX_SIZE && i < |pe.sectionTable|
    ensures var s, e := pe.sectionTable[i], WithStats(d, pe, entropy).sectionTable[i].entropy;
            var raw, flat := s.rawOffset + s.rawSize, s.virtualAddress + s.virtualSize;
            && (s.rawSize > 0 && s.rawOffset < |d| ==>
                  e == entropy(Histogram(d[s.rawOffset..if raw < |d| then raw else |d|])))
            && (!(s.rawSize > 0 && s.rawOffset < |d|) && s.virtualSize > 0 && s.virtualAddress < |d| ==>
                  e == entropy(Histogram(d[s.virtualAddress..if flat < |d| then flat else |d|])))
            && (!(s.rawSize > 0 && s.rawOffset < |d|) && !(s.virtualSize > 0 && s.virtualAddress < |d|) ==>
                  e == s.entropy)
  {
    hide Histogram, RawEnd;
  }

  // ----- candidate offsets

  ghost predicate Distinct(xs: seq<nat>) { forall i, j | 0 <= i < j < |xs| :: xs[i] != xs[j] }

  /** The RVA lies in the section, as far as the larger of its two sizes reaches, and the offset is as
      far into its raw data. */
  predicate MapsTo(s: Section, rva: int, o: int) {
    && s.virtualAddress <= rva && (rva - s.virtualAddress < s.virtualSize || rva - s.virtualAddress < s.rawSize)
    && o - s.rawOffset == rva - s.virtualAddress
  }

  lemma MapsToIff(s: Section, rva: int, o: int)
    ensures MapsTo(s, rva, o) <==> Holds(s, rva) && o == Mapped(s, rva)
  {
  }

  /** The offset is the RVA itself or the raw mapping of a section whose span holds the RVA. */
  ghost predicate IsCandidate(ss: seq<Section>, k: nat, size: nat, rva: U32, o: nat)
    requires k <= |ss|
  {
    o < size && (o == rva || exists i :: 0 <= i < k && MapsTo(ss[i], rva, o))
  }

  lemma {:induction false} OffsetsExact(ss: seq<Section>, k: nat, size: nat, rva: U32)
    requires k <= |ss|
    ensures Distinct(Offsets(ss, k, size, rva))
    ensures |Offsets(ss, k, size, rva)| <= k + 1
    ensures forall o :: o in Offsets(ss, k, size, rva) <==> IsCandidate(ss, k, size, rva, o)
    ensures rva < size ==> Offsets(ss, k, size, rva) != [] && Offsets(ss, k, size, rva)[0] == rva
  {
    if k > 0 {
      OffsetsExact(ss, k - 1, size, rva);
      var before := Offsets(ss, k - 1, size, rva);
      var all := Offsets(ss, k, size, rva);
      forall o
        ensures o in all <==> IsCandidate(ss, k, size, rva, o)
      {
        CandidateStep(ss, k, size, rva, o);
        assert o in before <==> IsCandidate(ss, k - 1, size, rva, o);
      }
    }
  }

  lemma CandidateStep(ss: seq<Section>, k: nat, size: nat, rva: U32, o: nat)
    requires 0 < k <= |ss|
    ensures IsCandidate(ss, k, size, rva, o) <==>
            IsCandidate(ss, k - 1, size, rva, o) ||
            (o < size && Holds(ss[k - 1], rva) && o == Mapped(ss[k - 1], rva))
  {
    hide Holds, MapsTo, Mapped;
    MapsToIff(ss[k - 1], rva, o);
  }

  /** Exactly the flat offset, first when in range, and the raw mappings; never a repetition, never
      outside the buffer, and at most 97 of them for a parsed image. */
  lemma RvaOffsetsExact(ss: seq<Section>, size: nat, rva: U32)
    ensures Distinct(RvaOffsets(ss, size, rva))
    ensures forall o :: o in RvaOffsets(ss, size, rva) <==> IsCandidate(ss, |ss|, size, rva, o)
    ensures rva < size ==> RvaOffsets(ss, size, rva) != [] && RvaOffsets(ss, size, rva)[0] == rva
    ensures |ss| <= 96 ==> |RvaOffsets(ss, size, rva)| <= 97
  {
    OffsetsExact(ss, |ss|, size, rva);
  }

  /** `FindSectionForRva` of memscan.cpp: the first section whose span holds the RVA. */
  function FindSection(ss: seq<Section>, rva: nat): (r: Option<Section>)
    ensures r.Some? ==> r.value in ss && Holds(r.value, rva)
    ensures r.None? ==> forall i | 0 <= i < |ss| :: !Holds(ss[i], rva)
  {
    if ss == [] then None else if Holds(ss[0], rva) then Some(ss[0]) else FindSection(ss[1..], rva)
  }

  /** The section found for a region is one the parser maps through. */
  lemma FoundSectionIsMapped(ss: seq<Section>, size: nat, rva: U32)
    requires FindSection(ss, rva).Some? && Mapped(FindSection(ss, rva).value, rva) < size
    ensures Mapped(FindSection(ss, rva).value, rva) in RvaOffsets(ss, size, rva)
  {
    RvaOffsetsExact(ss, size, rva);
    var s := FindSection(ss, rva).value;
    var i :| 0 <= i < |ss| && ss[i] == s;
    MapsToIff(s, rva, Mapped(s, rva));
    assert IsCandidate(ss, |ss|, size, rva, Mapped(s, rva));
  }

  // ----- names

  /** Byte `k` from offset `o` on is printable and spells character `k`. */
  predicate Spells(d: Bytes, o: nat, s: string, k: nat)
    requires k < |s| && o + |s| < |d|
  {
    PrintableByte(d[o + k]) && s[k] == d[o + k] as char
  }

  /** Printable bytes that spell `s`, then a zero byte, all inside the buffer. */
  predicate RunAt(d: Bytes, o: nat, s: string) {
    && o + |s| < |d|
    && (forall k: nat | k < |s| :: Spells(d, o, s, k))
    && d[o + |s|] == 0
  }

  /** A name of 1 to 259 bytes stands at offset `o`. */
  predicate NamedAt(d: Bytes, o: nat, s: string) { 1 <= |s| <= 259 && RunAt(d, o, s) }

  lemma RunStep(d: Bytes, o: nat, s: string)
    requires s != ""
    ensures RunAt(d, o, s) <==> o < |d| && PrintableByte(d[o]) && s[0] == d[o] as char && RunAt(d, o + 1, s[1..])
  {
    if o + |s| < |d| {
      assert Spells(d, o, s, 0) <==> PrintableByte(d[o]) && s[0] == d[o] as char;
      forall k: nat {:trigger Spells(d, o + 1, s[1..], k)} | k < |s| - 1
        ensures Spells(d, o + 1, s[1..], k) <==> Spells(d, o, s, k + 1)
      {
        assert s[1..][k] == s[k + 1];
      }
      if RunAt(d, o + 1, s[1..]) {
        forall k: nat | 0 < k < |s|
          ensures Spells(d, o, s, k) <==> Spells(d, o + 1, s[1..], k - 1)
        {
        }
      }
    }
  }

  lemma {:induction false} CStringIff(d: Bytes, o: nat, n: nat, s: string)
    ensures CString(d, o, n) == Some(s) <==> |s| < n && RunAt(d, o, s)
    decreases n
  {
    if s == "" {
      assert CString(d, o, n).Some? && d[o] != 0 ==> |CString(d, o, n).value| > 0;
    } else {
      RunStep(d, o, s);
      if o < |d| && n > 0 && d[o] != 0 && PrintableByte(d[o]) {
        CStringIff(d, o + 1, n - 1, s[1..]);
        assert s == [s[0]] + s[1..];
        PrefixedSome(d[o] as char, CString(d, o + 1, n - 1), s);
      }
    }
  }

  lemma PrefixedSome(c: char, r: Option<string>, s: string)
    requires s != ""
    ensures (match r case None => None case Some(t) => Some([c] + t)) == Some(s) <==> s[0] == c && r == Some(s[1..])
  {
    if r.Some? {
      assert ([c] + r.value)[1..] == r.value;
    }
    assert s == [s[0]] + s[1..];
  }

  lemma NameAtIff(d: Bytes, o: nat, s: string)
    requires s != ""
    ensures NameAt(d, o) == s <==> NamedAt(d, o, s)
  {
    hide RunAt, CString;
    CStringIff(d, o, MAX_NAME, s);
  }

  /** Nothing is named at the offset. */
  ghost predicate Nameless(d: Bytes, o: nat) { forall s :: !NamedAt(d, o, s) }

  /** The name stands at candidate `i`, moved by `skip`, and nothing is named at those before it. */
  ghost predicate FirstNamed(d: Bytes, offs: seq<nat>, skip: nat, i: nat, s: string) {
    i < |offs| && NamedAt(d, offs[i] + skip, s) && forall j | 0 <= j < i :: Nameless(d, offs[j] + skip)
  }

  /** This is the name that belongs to the RVA. */
  ghost predicate NamedBy(d: Bytes, ss: seq<Section>, rva: U32, skip: nat, s: string) {
    exists i :: FirstNamed(d, RvaOffsets(ss, |d|, rva), skip, i, s)
  }

  lemma NamelessAt(d: Bytes, o: nat)
    requires NameAt(d, o) == ""
    ensures Nameless(d, o)
  {
    hide NameAt, RunAt;
    forall s
      ensures !NamedAt(d, o, s)
    {
      if s != "" {
        NameAtIff(d, o, s);
      }
    }
  }

  lemma {:induction false} FirstNameFrom(d: Bytes, offs: seq<nat>, skip: nat)
    requires FirstName(d, offs, skip) != ""
    ensures exists i :: FirstNamed(d, offs, skip, i, FirstName(d, offs, skip))
  {
    hide NamedAt, NameAt;
    var s := FirstName(d, offs, skip);
    if NameAt(d, offs[0] + skip) != "" {
      NameAtIff(d, offs[0] + skip, s);
      assert FirstNamed(d, offs, skip, 0, s);
    } else {
      NamelessAt(d, offs[0] + skip);
      FirstNameFrom(d, offs[1..], skip);
      var i :| FirstNamed(d, offs[1..], skip, i, s);
      FirstNamedLater(d, offs, skip, i, s);
    }
  }

  lemma FirstNamedLater(d: Bytes, offs: seq<nat>, skip: nat, i: nat, s: string)
    requires offs != [] && Nameless(d, offs[0] + skip) && FirstNamed(d, offs[1..], skip, i, s)
    ensures FirstNamed(d, offs, skip, i + 1, s)
  {
    hide NamedAt, Nameless;
    assert offs[1..][i] == offs[i + 1];
    forall j | 0 <= j < i + 1
      ensures Nameless(d, offs[j] + skip)
    {
      if j > 0 {
        assert offs[1..][j - 1] == offs[j];
      }
    }
  }

  lemma NamesComeFrom(d: Bytes, ss: seq<Section>, rva: U32)
    ensures NameAtRva(d, ss, rva) != "" ==> NamedBy(d, ss, rva, 0, NameAtRva(d, ss, rva))
    ensures HintNameAtRva(d, ss, rva) != "" ==> NamedBy(d, ss, rva, 2, HintNameAtRva(d, ss, rva))
  {
    hide RvaOffsets, FirstNamed, FirstName;
    var offs := RvaOffsets(ss, |d|, rva);
    if NameAtRva(d, ss, rva) != "" {
      FirstNameFrom(d, offs, 0);
    }
    if HintNameAtRva(d, ss, rva) != "" {
      FirstNameFrom(d, offs, 2);
    }
  }

  // ----- tables

  /** Increasing positions below a limit. */
  ghost predicate Positions(ks: seq<nat>, n: nat) {
    (forall i | 0 <= i < |ks| :: ks[i] < n) && forall i, j | 0 <= i < j < |ks| :: ks[i] < ks[j]
  }

  /** All positions moved up by one. */
  function Later(ks: seq<nat>): (r: seq<nat>)
    ensures |r| == |ks| && forall i | 0 <= i < |ks| :: r[i] == ks[i] + 1
  {
    seq(|ks|, i requires 0 <= i < |ks| => ks[i] + 1)
  }

  predicate LiveThunk(d: Bytes, is64: bool, o: nat) { ThunkAt(d, is64, o).Some? && ThunkAt(d, is64, o).value != 0 }

  predicate OrdinalThunk(d: Bytes, is64: bool, o: nat) {
    LiveThunk(d, is64, o) && IsOrdinal(is64, ThunkAt(d, is64, o).value)
  }

  /** The thunk at the offset imports by name, and this is the name behind its hint. */
  ghost predicate NameThunk(d: Bytes, ss: seq<Section>, is64: bool, o: nat, s: string) {
    && LiveThunk(d, is64, o)
    && !IsOrdinal(is64, ThunkAt(d, is64, o).value)
    && NamedBy(d, ss, LowRva(ThunkAt(d, is64, o).value), 2, s)
  }

  /** The first `live` thunks of the table are not zero; the names belong to thunks `ns` among them,
      and the ordinals are thunks `os`. */
  ghost predicate ThunksAt(d: Bytes, ss: seq<Section>, is64: bool, o: nat, live: nat, t: Thunks, ns: seq<nat>,
                           os: seq<nat>) {
    && Positions(ns, live) && Positions(os, live)
    && (forall m: nat | m < live :: LiveThunk(d, is64, ThunkOffset(is64, o, m)))
    && |ns| == |t.names|
    && (forall i | 0 <= i < |ns| :: NameThunk(d, ss, is64, ThunkOffset(is64, o, ns[i]), t.names[i]))
    && |os| == t.ordinalCount && (forall i | 0 <= i < |os| :: OrdinalThunk(d, is64, ThunkOffset(is64, o, os[i])))
  }

  ghost predicate ThunksFrom(d: Bytes, ss: seq<Section>, is64: bool, o: nat, n: nat, t: Thunks) {
    exists live: nat, ns, os :: live <= n && ThunksAt(d, ss, is64, o, live, t, ns, os)
  }

  lemma {:induction false} ThunksSound(d: Bytes, ss: seq<Section>, is64: bool, o: nat, n: nat)
    returns (live: nat, ns: seq<nat>, os: seq<nat>)
    ensures live <= n && ThunksAt(d, ss, is64, o, live, ReadThunks(d, ss, is64, o, n), ns, os)
    decreases n
  {
    hide ThunksAt, HintNameAtRva, ThunkAt, NameThunk, OrdinalThunk, LiveThunk, Positions, Later;
    live, ns, os := 0, [], [];
    var t := ThunkAt(d, is64, o);
    if n == 0 || t.None? || t.value == 0 {
      NoThunks(d, ss, is64, o);
    } else {
      var rest := ReadThunks(d, ss, is64, o + ThunkSize(is64), n - 1);
      live, ns, os := ThunksSound(d, ss, is64, o + ThunkSize(is64), n - 1);
      ThunkKinds(d, ss, is64, o);
      ThunksLater(d, ss, is64, o, live, rest, ns, os);
      live, ns, os := live + 1, Later(ns), Later(os);
      if IsOrdinal(is64, t.value) {
        OrdinalFirst(d, ss, is64, o, live, rest, ns, os);
        os := [0] + os;
      } else if HintNameAtRva(d, ss, LowRva(t.value)) != "" {
        NameFirst(d, ss, is64, o, live, rest, ns, os, HintNameAtRva(d, ss, LowRva(t.value)));
        ns := [0] + ns;
      }
    }
  }

  lemma NoThunks(d: Bytes, ss: seq<Section>, is64: bool, o: nat)
    ensures ThunksAt(d, ss, is64, o, 0, Thunks([], 0), [], [])
  {
  }

  /** The entries stand after position 0. */
  ghost predicate AfterFirst(ks: seq<nat>) { forall i | 0 <= i < |ks| :: ks[i] > 0 }

  lemma OrdinalFirst(d: Bytes, ss: seq<Section>, is64: bool, o: nat, live: nat, t: Thunks, ns: seq<nat>, os: seq<nat>)
    requires ThunksAt(d, ss, is64, o, live, t, ns, os) && live > 0 && AfterFirst(os) && OrdinalThunk(d, is64, o)
    ensures ThunksAt(d, ss, is64, o, live, Thunks(t.names, t.ordinalCount + 1), ns, [0] + os)
  {
    hide NameThunk, OrdinalThunk, LiveThunk;
  }

  lemma NameFirst(d: Bytes, ss: seq<Section>, is64: bool, o: nat, live: nat, t: Thunks, ns: seq<nat>, os: seq<nat>,
                  s: string)
    requires ThunksAt(d, ss, is64, o, live, t, ns, os) && live > 0 && AfterFirst(ns) && NameThunk(d, ss, is64, o, s)
    ensures ThunksAt(d, ss, is64, o, live, Thunks([s] + t.names, t.ordinalCount), [0] + ns, os)
  {
    hide NameThunk, OrdinalThunk, LiveThunk;
  }

  lemma ThunkKinds(d: Bytes, ss: seq<Section>, is64: bool, o: nat)
    requires ThunkAt(d, is64, o).Some? && ThunkAt(d, is64, o).value != 0
    ensures LiveThunk(d, is64, o)
    ensures IsOrdinal(is64, ThunkAt(d, is64, o).value) ==> OrdinalThunk(d, is64, o)
    ensures var name := HintNameAtRva(d, ss, LowRva(ThunkAt(d, is64, o).value));
            !IsOrdinal(is64, ThunkAt(d, is64, o).value) && name != "" ==> NameThunk(d, ss, is64, o, name)
  {
    hide NamedBy, HintNameAtRva, ThunkAt;
    NamesComeFrom(d, ss, LowRva(ThunkAt(d, is64, o).value));
  }

  /** The thunks after the first, seen from the first. */
  lemma ThunksLater(d: Bytes, ss: seq<Section>, is64: bool, o: nat, live: nat, t: Thunks, ns: seq<nat>, os: seq<nat>)
    requires LiveThunk(d, is64, o) && ThunksAt(d, ss, is64, o + ThunkSize(is64), live, t, ns, os)
    ensures ThunksAt(d, ss, is64, o, live + 1, t, Later(ns), Later(os))
    ensures AfterFirst(Later(ns)) && AfterFirst(Later(os))
  {
    hide NameThunk, OrdinalThunk, LiveThunk;
    var o' := o + ThunkSize(is64);
    assert ThunkOffset(is64, o, 0) == o;
    forall m: nat | 0 < m < live + 1
      ensures LiveThunk(d, is64, ThunkOffset(is64, o, m))
    {
      assert ThunkOffset(is64, o, m) == ThunkOffset(is64, o', m - 1);
    }
    forall i | 0 <= i < |ns|
      ensures ThunkOffset(is64, o, Later(ns)[i]) == ThunkOffset(is64, o', ns[i])
    {
    }
    forall i | 0 <= i < |os|
      ensures ThunkOffset(is64, o, Later(os)[i]) == ThunkOffset(is64, o', os[i])
    {
    }
  }

  // ----- imports

  predicate LiveDescriptor(d: Bytes, o: nat) { DescriptorAt(d, o).Some? && !DescriptorAt(d, o).value.IsZero() }

  /** The thunks of a descriptor, if any, stand at a candidate of its thunk RVA. */
  ghost predicate ThunksBy(d: Bytes, ss: seq<Section>, is64: bool, rva: U32, t: Thunks) {
    t.Empty() ||
    (rva != 0 && exists i :: 0 <= i < |RvaOffsets(ss, |d|, rva)| &&
                             ThunksFrom(d, ss, is64, RvaOffsets(ss, |d|, rva)[i], MAX_THUNKS, t))
  }

  /** The descriptor at the offset gives the DLL: its name RVA the name, its thunk RVA the rest. */
  ghost predicate DllAt(d: Bytes, ss: seq<Section>, is64: bool, o: nat, dll: ImportDll) {
    && LiveDescriptor(d, o)
    && NamedBy(d, ss, DescriptorAt(d, o).value.name, 0, dll.dll)
    && ThunksBy(d, ss, is64, DescriptorAt(d, o).value.Thunk(), Thunks(dll.names, dll.ordinalCount))
  }

  /** The first `live` descriptors are not zero, and the DLLs are those of descriptors `ks`. */
  ghost predicate DllsAt(d: Bytes, ss: seq<Section>, is64: bool, o: nat, live: nat, dlls: seq<ImportDll>,
                         ks: seq<nat>) {
    && Positions(ks, live) && |ks| == |dlls|
    && (forall m: nat | m < live :: LiveDescriptor(d, o + DESCRIPTOR_SIZE * m))
    && (forall i | 0 <= i < |ks| :: DllAt(d, ss, is64, o + DESCRIPTOR_SIZE * ks[i], dlls[i]))
  }

  lemma {:induction false} FirstThunksSound(d: Bytes, ss: seq<Section>, is64: bool, offs: seq<nat>)
    ensures var t := FirstThunks(d, ss, is64, offs);
            t.Empty() || exists i :: 0 <= i < |offs| && ThunksFrom(d, ss, is64, offs[i], MAX_THUNKS, t)
  {
    hide ReadThunks, ThunksAt;
    if offs != [] {
      var live, ns, os := ThunksSound(d, ss, is64, offs[0], MAX_THUNKS);
      FirstThunksSound(d, ss, is64, offs[1..]);
      var t := FirstThunks(d, ss, is64, offs);
      if ReadThunks(d, ss, is64, offs[0], MAX_THUNKS).Empty() && !t.Empty() {
        var i :| 0 <= i < |offs| - 1 && ThunksFrom(d, ss, is64, offs[1..][i], MAX_THUNKS, t);
        assert offs[1..][i] == offs[i + 1];
      } else {
        assert ThunksFrom(d, ss, is64, offs[0], MAX_THUNKS, ReadThunks(d, ss, is64, offs[0], MAX_THUNKS));
      }
    }
  }

  lemma DllSound(d: Bytes, ss: seq<Section>, is64: bool, o: nat)
    requires LiveDescriptor(d, o) && NameAtRva(d, ss, DescriptorAt(d, o).value.name) != ""
    ensures var desc := DescriptorAt(d, o).value;
            var t := DllThunks(d, ss, is64, desc);
            DllAt(d, ss, is64, o, ImportDll(NameAtRva(d, ss, desc.name), t.names, t.ordinalCount))
  {
    hide NamedBy, NameAtRva, ThunksFrom, FirstThunks, RvaOffsets, DescriptorAt;
    var desc := DescriptorAt(d, o).value;
    NamesComeFrom(d, ss, desc.name);
    FirstThunksSound(d, ss, is64, RvaOffsets(ss, |d|, desc.Thunk()));
    var t := DllThunks(d, ss, is64, desc);
    assert t == Thunks(t.names, t.ordinalCount);
  }

  lemma {:induction false} DllsSound(d: Bytes, ss: seq<Section>, is64: bool, o: nat, n: nat)
    returns (live: nat, ks: seq<nat>)
    ensures live <= n && DllsAt(d, ss, is64, o, live, Dlls(d, ss, is64, o, n), ks)
    decreases n
  {
    hide NameAtRva, DllThunks, DllsAt, DllAt, LiveDescriptor, DescriptorAt, Later;
    live, ks := 0, [];
    var desc := DescriptorAt(d, o);
    if n == 0 || desc.None? || desc.value.IsZero() {
      NoDlls(d, ss, is64, o);
    } else {
      LiveIs(d, o);
      var rest := Dlls(d, ss, is64, o + DESCRIPTOR_SIZE, n - 1);
      live, ks := DllsSound(d, ss, is64, o + DESCRIPTOR_SIZE, n - 1);
      DllsLater(d, ss, is64, o, live, rest, ks);
      live, ks := live + 1, Later(ks);
      if NameAtRva(d, ss, desc.value.name) != "" {
        DllSound(d, ss, is64, o);
        var t := DllThunks(d, ss, is64, desc.value);
        DllFirst(d, ss, is64, o, live, rest, ks, ImportDll(NameAtRva(d, ss, desc.value.name), t.names, t.ordinalCount));
        ks := [0] + ks;
      }
    }
  }

  lemma NoDlls(d: Bytes, ss: seq<Section>, is64: bool, o: nat)
    ensures DllsAt(d, ss, is64, o, 0, [], [])
  {
  }

  lemma DllFirst(d: Bytes, ss: seq<Section>, is64: bool, o: nat, live: nat, dlls: seq<ImportDll>, ks: seq<nat>,
                 dll: ImportDll)
    requires DllsAt(d, ss, is64, o, live, dlls, ks) && live > 0 && AfterFirst(ks) && DllAt(d, ss, is64, o, dll)
    ensures DllsAt(d, ss, is64, o, live, [dll] + dlls, [0] + ks)
  {
    hide DllAt, LiveDescriptor;
  }

  lemma LiveIs(d: Bytes, o: nat)
    ensures LiveDescriptor(d, o) <==> DescriptorAt(d, o).Some? && !DescriptorAt(d, o).value.IsZero()
  {
  }

  lemma DllsLater(d: Bytes, ss: seq<Section>, is64: bool, o: nat, live: nat, dlls: seq<ImportDll>, ks: seq<nat>)
    requires LiveDescriptor(d, o) && DllsAt(d, ss, is64, o + DESCRIPTOR_SIZE, live, dlls, ks)
    ensures DllsAt(d, ss, is64, o, live + 1, dlls, Later(ks)) && AfterFirst(Later(ks))
  {
    hide DllAt, LiveDescriptor;
    forall m: nat | 0 < m < live + 1
      ensures LiveDescriptor(d, o + DESCRIPTOR_SIZE * m)
    {
      assert o + DESCRIPTOR_SIZE * m == o + DESCRIPTOR_SIZE + DESCRIPTOR_SIZE * (m - 1);
    }
    forall i | 0 <= i < |ks|
      ensures o + DESCRIPTOR_SIZE * Later(ks)[i] == o + DESCRIPTOR_SIZE + DESCRIPTOR_SIZE * ks[i]
    {
    }
  }

  /** The DLLs of an image come from one descriptor table, at a candidate of the import RVA. */
  ghost predicate ImportsFrom(d: Bytes, pe: PeQuick) {
    pe.imports == [] ||
    (&& pe.importRva != 0 && pe.importSize >= DESCRIPTOR_SIZE
     && exists i, live: nat, ks ::
          && 0 <= i < |RvaOffsets(pe.sectionTable, |d|, pe.importRva)| && live <= DescriptorLimit(pe.importSize)
          && DllsAt(d, pe.sectionTable, pe.is64, RvaOffsets(pe.sectionTable, |d|, pe.importRva)[i], live,
                    pe.imports, ks))
  }

  lemma {:induction false} FirstTableIsCandidate(d: Bytes, ss: seq<Section>, offs: seq<nat>)
    ensures var t := FirstTable(d, ss, offs);
            t.Some? ==> exists i :: 0 <= i < |offs| && offs[i] == t.value
  {
    hide DescriptorAt, NameAtRva;
    if offs != [] {
      FirstTableIsCandidate(d, ss, offs[1..]);
      forall i | 0 < i < |offs|
        ensures offs[i] == offs[1..][i - 1]
      {
      }
      var t := FirstTable(d, ss, offs[1..]);
      if t.Some? {
        var i :| 0 <= i < |offs| - 1 && offs[1..][i] == t.value;
        assert offs[i + 1] == t.value;
      }
    }
  }

  lemma ImportsSound(d: Bytes, pe: PeQuick)
    ensures ImportsFrom(d, pe.(imports := Imports(d, pe)))
  {
    hide Dlls, FirstTable, RvaOffsets, DllsAt;
    var offs := RvaOffsets(pe.sectionTable, |d|, pe.importRva);
    var table := FirstTable(d, pe.sectionTable, offs);
    if Imports(d, pe) != [] {
      FirstTableIsCandidate(d, pe.sectionTable, offs);
      var i :| 0 <= i < |offs| && offs[i] == table.value;
      var live, ks := DllsSound(d, pe.sectionTable, pe.is64, table.value, DescriptorLimit(pe.importSize));
    }
  }

  // ----- exports

  /** Name entry `j` of the table can be read at a candidate, and this is the name it refers to. */
  ghost predicate ExportAt(d: Bytes, ss: seq<Section>, addressOfNames: U32, j: nat, s: string) {
    var offs := RvaOffsets(ss, |d|, EntryRva(addressOfNames, j));
    exists i :: 0 <= i < |offs| && offs[i] + 4 <= |d| && NamedBy(d, ss, U32At(d, offs[i]), 0, s)
  }

  ghost predicate ExportsAt(d: Bytes, ss: seq<Section>, addressOfNames: U32, names: seq<string>, js: seq<nat>) {
    |js| == |names| && forall i | 0 <= i < |js| :: ExportAt(d, ss, addressOfNames, js[i], names[i])
  }

  lemma {:induction false} FirstU32From(d: Bytes, offs: seq<nat>)
    ensures var v := FirstU32(d, offs);
            v.Some? ==> exists i :: 0 <= i < |offs| && offs[i] + 4 <= |d| && U32At(d, offs[i]) == v.value
  {
    hide U32At;
    if offs != [] && offs[0] + 4 > |d| {
      FirstU32From(d, offs[1..]);
      var v := FirstU32(d, offs[1..]);
      if v.Some? {
        var i :| 0 <= i < |offs| - 1 && offs[1..][i] + 4 <= |d| && U32At(d, offs[1..][i]) == v.value;
        assert offs[i + 1] == offs[1..][i];
      }
    }
  }

  lemma ExportSound(d: Bytes, ss: seq<Section>, addressOfNames: U32, j: nat)
    ensures var v := FirstU32(d, RvaOffsets(ss, |d|, EntryRva(addressOfNames, j)));
            v.Some? && NameAtRva(d, ss, v.value) != "" ==> ExportAt(d, ss, addressOfNames, j, NameAtRva(d, ss, v.value))
  {
    hide NamedBy, NameAtRva, RvaOffsets, U32At, FirstU32, EntryRva;
    var offs := RvaOffsets(ss, |d|, EntryRva(addressOfNames, j));
    FirstU32From(d, offs);
    var v := FirstU32(d, offs);
    if v.Some? {
      NamesComeFrom(d, ss, v.value);
    }
  }

  lemma {:induction false} ExportNamesSound(d: Bytes, ss: seq<Section>, addressOfNames: U32, i: nat, count: nat)
    returns (js: seq<nat>)
    requires i <= count
    ensures Positions(js, count) && forall k | 0 <= k < |js| :: i <= js[k]
    ensures ExportsAt(d, ss, addressOfNames, ExportNames(d, ss, addressOfNames, i, count), js)
    decreases count - i
  {
    hide ExportAt, NameAtRva, FirstU32, RvaOffsets, EntryRva;
    js := [];
    if i < count {
      var rva := FirstU32(d, RvaOffsets(ss, |d|, EntryRva(addressOfNames, i)));
      if rva.Some? {
        js := ExportNamesSound(d, ss, addressOfNames, i + 1, count);
        ExportSound(d, ss, addressOfNames, i);
        if NameAtRva(d, ss, rva.value) != "" {
          js := [i] + js;
        }
      }
    }
  }

  /** The exports of an image come from one directory, at a candidate of the export RVA, and from
      increasing entries of its name table. */
  ghost predicate ExportsFrom(d: Bytes, pe: PeQuick) {
    pe.exports == [] ||
    (&& pe.exportRva != 0 && pe.exportSize >= EXPORT_SIZE
     && exists i, js ::
          && 0 <= i < |RvaOffsets(pe.sectionTable, |d|, pe.exportRva)|
          && var dir := ExportDirectoryAt(d, RvaOffsets(pe.sectionTable, |d|, pe.exportRva)[i]);
             && dir.Some? && dir.value.addressOfNames != 0
             && Positions(js, Min(dir.value.numberOfNames, MAX_EXPORTS))
             && ExportsAt(d, pe.sectionTable, dir.value.addressOfNames, pe.exports, js))
  }

  lemma {:induction false} FirstDirectoryIsCandidate(d: Bytes, offs: seq<nat>)
    ensures var t := FirstDirectory(d, offs);
            t.Some? ==> t.value.addressOfNames != 0 && exists i :: 0 <= i < |offs| && ExportDirectoryAt(d, offs[i]) == t
  {
    hide ExportDirectoryAt;
    if offs != [] {
      FirstDirectoryIsCandidate(d, offs[1..]);
      var t := FirstDirectory(d, offs[1..]);
      if t.Some? {
        var i :| 0 <= i < |offs| - 1 && ExportDirectoryAt(d, offs[1..][i]) == t;
        assert offs[i + 1] == offs[1..][i];
      }
    }
  }

  lemma ExportsSound(d: Bytes, pe: PeQuick)
    ensures ExportsFrom(d, pe.(exports := Exports(d, pe)))
  {
    hide ExportsAt, ExportNames, FirstDirectory, RvaOffsets, ExportDirectoryAt, Positions;
    var offs := RvaOffsets(pe.sectionTable, |d|, pe.exportRva);
    var dir := FirstDirectory(d, offs);
    if Exports(d, pe) != [] {
      FirstDirectoryIsCandidate(d, offs);
      var i :| 0 <= i < |offs| && ExportDirectoryAt(d, offs[i]) == dir;
      var js := ExportNamesSound(d, pe.sectionTable, dir.value.addressOfNames, 0,
                                 Min(dir.value.numberOfNames, MAX_EXPORTS));
    }
  }

  // ----- the whole parse

  /** For every byte string: every DLL, import and export name is the terminated printable run that
      its descriptor, thunk or name entry refers to, in table order and within the limits. */
  lemma ParseIsSound(d: Bytes, entropy: seq<nat> -> real)
    requires |d| <= MAX_SIZE
    ensures var pe := PeOf(d, entropy);
            && |pe.sectionTable| <= 96
            && |pe.imports| <= 64 && |pe.imports| <= pe.importSize / 20 + 1
            && |pe.exports| <= 512
            && (forall i | 0 <= i < |pe.imports| :: |pe.imports[i].names| + pe.imports[i].ordinalCount <= 256)
            && ImportsFrom(d, pe) && ExportsFrom(d, pe)
  {
    hide ImportsFrom, ExportsFrom, Dlls, ExportNames, FirstTable, FirstDirectory, RvaOffsets, IsPe, SectionsAt;
    hide WithOptional, WithStats;
    if IsPe(d) && HasMagic(d) {
      var q := WithOptional(d, FileHeader(d)).(sectionTable := SectionTable(d));
      var p := WithStats(d, q, entropy);
      StatsKeepLength(d, q, entropy);
      ImportsSound(d, p);
      ExportsSound(d, p);
      FromIgnoresExports(d, p.(imports := Imports(d, p)), Exports(d, p));
      FromIgnoresImports(d, p.(exports := Exports(d, p)), Imports(d, p));
      ThunkLimits(d, p);
    } else {
      NothingFrom(d, PeOf(d, entropy));
    }
  }

  lemma NothingFrom(d: Bytes, pe: PeQuick)
    requires pe.imports == [] && pe.exports == []
    ensures ImportsFrom(d, pe) && ExportsFrom(d, pe)
  {
  }

  lemma FromIgnoresExports(d: Bytes, pe: PeQuick, exports: seq<string>)
    ensures ImportsFrom(d, pe.(exports := exports)) == ImportsFrom(d, pe)
  {
    hide DllsAt, RvaOffsets;
  }

  lemma FromIgnoresImports(d: Bytes, pe: PeQuick, imports: seq<ImportDll>)
    ensures ExportsFrom(d, pe.(imports := imports)) == ExportsFrom(d, pe)
  {
    hide ExportsAt, RvaOffsets, Positions;
  }

  lemma StatsKeepLength(d: Bytes, p: PeQuick, entropy: seq<nat> -> real)
    requires |d| <= MAX_SIZE
    ensures |WithStats(d, p, entropy).sectionTable| == |p.sectionTable|
  {
  }

  lemma {:induction false} DllLimits(d: Bytes, ss: seq<Section>, is64: bool, o: nat, n: nat)
    ensures forall i | 0 <= i < |Dlls(d, ss, is64, o, n)| ::
              |Dlls(d, ss, is64, o, n)[i].names| + Dlls(d, ss, is64, o, n)[i].ordinalCount <= MAX_THUNKS
    decreases n
  {
    hide NameAtRva, FirstThunks, DescriptorAt;
    var desc := DescriptorAt(d, o);
    if n != 0 && desc.Some? && !desc.value.IsZero() {
      DllLimits(d, ss, is64, o + DESCRIPTOR_SIZE, n - 1);
    }
  }

  lemma ThunkLimits(d: Bytes, p: PeQuick)
    ensures forall i | 0 <= i < |Imports(d, p)| ::
              |Imports(d, p)[i].names| + Imports(d, p)[i].ordinalCount <= MAX_THUNKS
  {
    hide Dlls, FirstTable, RvaOffsets;
    var table := FirstTable(d, p.sectionTable, RvaOffsets(p.sectionTable, |d|, p.importRva));
    if table.Some? {
      DllLimits(d, p.sectionTable, p.is64, table.value, DescriptorLimit(p.importSize));
    }
  }
}
