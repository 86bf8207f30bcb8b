/** The text hashed into a fingerprint determines every part it is made of. */
module FingerprintInjective {
  import opened PeFormat
  import opened Memory
  import opened Anomalies
  import opened Classify
  import opened ReasonLists

  predicate Without(s: string, c: char) { c !in s }

  /** The text up to the first separator. */
  function BeforeFirst(s: string, c: char): string {
    if s == "" || s[0] == c then "" else [s[0]] + BeforeFirst(s[1..], c)
  }

  /** The text after the last separator. */
  function AfterLast(s: string, c: char): string {
    if s == "" || s[|s| - 1] == c then "" else AfterLast(s[..|s| - 1], c) + [s[|s| - 1]]
  }

  lemma {:induction false} BeforeFirstIs(a: string, x: string, c: char)
    requires Without(a, c)
    ensures BeforeFirst(a + ([c] + x), c) == a
  {
    if a != "" {
      BeforeFirstIs(a[1..], x, c);
      assert (a + ([c] + x))[1..] == a[1..] + ([c] + x);
      assert a == [a[0]] + a[1..];
    }
  }

  lemma {:induction false} AfterLastIs(a: string, x: string, c: char)
    requires Without(x, c)
    ensures AfterLast(a + ([c] + x), c) == x
  {
    var s := a + ([c] + x);
    if x != "" {
      AfterLastIs(a, x[..|x| - 1], c);
      assert s[..|s| - 1] == a + ([c] + x[..|x| - 1]);
      assert x == x[..|x| - 1] + [x[|x| - 1]];
      assert s[|s| - 1] == x[|x| - 1];
    }
  }

  lemma {:induction false} FirstSplit(a: string, b: string, x: string, y: string, c: char)
    requires Without(a, c) && Without(b, c)
    requires a + ([c] + x) == b + ([c] + y)
    ensures a == b && x == y
  {
    BeforeFirstIs(a, x, c);
    BeforeFirstIs(b, y, c);
    assert x == (a + ([c] + x))[|a| + 1..];
    assert y == (b + ([c] + y))[|b| + 1..];
  }

  lemma LastSplit(a: string, b: string, x: string, y: string, c: char)
    requires Without(x, c) && Without(y, c)
    requires a + ([c] + x) == b + ([c] + y)
    ensures a == b && x == y
  {
    AfterLastIs(a, x, c);
    AfterLastIs(b, y, c);
    assert a == (a + ([c] + x))[..|a|];
    assert b == (b + ([c] + y))[..|b|];
  }

  predicate PlainReasons(reasons: seq<string>) {
    forall i | 0 <= i < |reasons| :: Without(reasons[i], ',') && Without(reasons[i], '|')
  }

  lemma {:induction false} JoinedInjective(a: seq<string>, b: seq<string>)
    requires PlainReasons(a) && PlainReasons(b)
    requires Joined(a) == Joined(b)
    ensures a == b
  {
    if a != [] && b != [] {
      FirstSplit(a[0], b[0], Joined(a[1..]), Joined(b[1..]), ',');
      JoinedInjective(a[1..], b[1..]);
      assert a == [a[0]] + a[1..] && b == [b[0]] + b[1..];
    }
  }

  lemma {:induction false} JoinedHasNoBar(a: seq<string>)
    requires PlainReasons(a)
    ensures Without(Joined(a), '|')
  {
    if a != [] {
      JoinedHasNoBar(a[1..]);
    }
  }

  lemma TypeHasNoBar(kind: U32)
    ensures Without(TypeToString(kind), '|')
  {
  }

  lemma ProtectHasNoBar(protect: U32)
    ensures Without(ProtectToString(protect), '|')
  {
    hide HasRead, HasWrite, HasExecute, Guarded;
  }

  /** The parts of a fingerprint, in order. */
  datatype Parts = Parts(process: string, mapped: string, kind: string, protect: string, isPe: bool,
                         section: string, reasons: seq<string>)

  function TextOf(p: Parts): string {
    FingerprintText(p.process, p.mapped, p.kind, p.protect, p.isPe, p.section, p.reasons)
  }

  /** No separator in the paths or the fixed words; the section name may hold any bytes. */
  predicate Separable(p: Parts) {
    && Without(p.process, '|') && Without(p.mapped, '|') && Without(p.kind, '|') && Without(p.protect, '|')
    && PlainReasons(p.reasons)
  }

  lemma TextInjective(p: Parts, q: Parts)
    requires Separable(p) && Separable(q) && TextOf(p) == TextOf(q)
    ensures p == q
  {
    hide Without, Joined;
    var p5, q5 := p.section + ("|" + Joined(p.reasons)), q.section + ("|" + Joined(q.reasons));
    var pb, qb := if p.isPe then "pe" else "raw", if q.isPe then "pe" else "raw";
    var p4, q4 := pb + ("|" + p5), qb + ("|" + q5);
    var p3, q3 := p.protect + ("|" + p4), q.protect + ("|" + q4);
    var p2, q2 := p.kind + ("|" + p3), q.kind + ("|" + q3);
    var p1, q1 := p.mapped + ("|" + p2), q.mapped + ("|" + q2);
    FirstSplit(p.process, q.process, p1, q1, '|');
    FirstSplit(p.mapped, q.mapped, p2, q2, '|');
    FirstSplit(p.kind, q.kind, p3, q3, '|');
    FirstSplit(p.protect, q.protect, p4, q4, '|');
    WordHasNoBar(p.isPe);
    WordHasNoBar(q.isPe);
    FirstSplit(pb, qb, p5, q5, '|');
    JoinedHasNoBar(p.reasons);
    JoinedHasNoBar(q.reasons);
    LastSplit(p.section, q.section, Joined(p.reasons), Joined(q.reasons), '|');
    JoinedInjective(p.reasons, q.reasons);
  }

  lemma WordHasNoBar(isPe: bool)
    ensures Without(if isPe then "pe" else "raw", '|')
  {
  }

  /** What stands after the first `n` separators, up to the next. */
  function Field(s: string, n: nat): string {
    if n == 0 then BeforeFirst(s, '|')
    else
      var a := BeforeFirst(s, '|');
      if |a| < |s| then Field(s[|a| + 1..], n - 1) else ""
  }

  lemma FieldStep(a: string, x: string, n: nat)
    requires Without(a, '|')
    ensures Field(a + ("|" + x), 0) == a && Field(a + ("|" + x), n + 1) == Field(x, n)
  {
    BeforeFirstIs(a, x, '|');
    assert (a + ("|" + x))[|a| + 1..] == x;
  }

  /** The parts stand in the text in this order, the reasons last. */
  lemma PartsInOrder(p: Parts)
    requires Separable(p)
    ensures var t := TextOf(p);
            && Field(t, 0) == p.process && Field(t, 1) == p.mapped && Field(t, 2) == p.kind && Field(t, 3) == p.protect
            && Field(t, 4) == (if p.isPe then "pe" else "raw")
            && (Without(p.section, '|') ==> Field(t, 5) == p.section)
            && AfterLast(t, '|') == Joined(p.reasons)
  {
    hide Without, Joined, Field;
    var p5 := p.section + ("|" + Joined(p.reasons));
    var p4 := (if p.isPe then "pe" else "raw") + ("|" + p5);
    var p3 := p.protect + ("|" + p4);
    var p2 := p.kind + ("|" + p3);
    var p1 := p.mapped + ("|" + p2);
    WordHasNoBar(p.isPe);
    forall n: nat
      ensures Field(TextOf(p), 0) == p.process && Field(TextOf(p), n + 1) == Field(p1, n)
    {
      FieldStep(p.process, p1, n);
    }
    forall n: nat
      ensures Field(p1, 0) == p.mapped && Field(p1, n + 1) == Field(p2, n)
    {
      FieldStep(p.mapped, p2, n);
    }
    forall n: nat
      ensures Field(p2, 0) == p.kind && Field(p2, n + 1) == Field(p3, n)
    {
      FieldStep(p.kind, p3, n);
    }
    forall n: nat
      ensures Field(p3, 0) == p.protect && Field(p3, n + 1) == Field(p4, n)
    {
      FieldStep(p.protect, p4, n);
    }
    FieldStep(if p.isPe then "pe" else "raw", p5, 0);
    if Without(p.section, '|') {
      FieldStep(p.section, Joined(p.reasons), 0);
    }
    assert Field(TextOf(p), 1) == Field(p1, 0) == p.mapped;
    assert Field(TextOf(p), 2) == Field(p1, 1) == Field(p2, 0);
    assert Field(TextOf(p), 3) == Field(p1, 2) == Field(p2, 1) == Field(p3, 0);
    assert Field(TextOf(p), 4) == Field(p1, 3) == Field(p2, 2) == Field(p3, 1) == Field(p4, 0);
    assert Field(TextOf(p), 5) == Field(p1, 4) == Field(p2, 3) == Field(p3, 2) == Field(p4, 1) == Field(p5, 0);
    LastPart(p);
  }

  lemma LastPart(p: Parts)
    requires Separable(p)
    ensures AfterLast(TextOf(p), '|') == Joined(p.reasons)
  {
    hide Without, Joined, PlainReasons;
    JoinedHasNoBar(p.reasons);
    var head := p.process + ("|" + (p.mapped + ("|" + (p.kind + ("|" + (p.protect + ("|" +
                ((if p.isPe then "pe" else "raw") + ("|" + p.section)))))))));
    assert TextOf(p) == head + (['|'] + Joined(p.reasons));
    AfterLastIs(head, Joined(p.reasons), '|');
  }

  /** Each reason is followed by a comma. */
  lemma {:induction false} JoinedIs(reasons: seq<string>, i: nat)
    requires i < |reasons|
    ensures Joined(reasons) == Joined(reasons[..i]) + (reasons[i] + ("," + Joined(reasons[i + 1..])))
  {
    if i > 0 {
      JoinedIs(reasons[1..], i - 1);
      assert reasons[1..][..i - 1] == reasons[..i][1..] && reasons[1..][i..] == reasons[i + 1..];
      assert reasons[..i][0] == reasons[0];
    } else {
      assert reasons[..0] == [] && Joined([]) == "";
    }
  }

  // ----- for findings

  /** Whatever the section is called, canonical reasons hold no separator. */
  lemma OrderIsPlain()
    ensures PlainReasons(ORDER)
  {
    hide Without;
    HasNoComma();
    HasNoBar();
  }

  lemma HasNoComma()
    ensures forall i | 0 <= i < |ORDER| :: Without(ORDER[i], ',')
  {
  }

  lemma HasNoBar()
    ensures forall i | 0 <= i < |ORDER| :: Without(ORDER[i], '|')
  {
  }

  lemma CanonicalIsPlain(reasons: seq<string>)
    requires Canonical(reasons)
    ensures PlainReasons(reasons)
  {
    hide Without, Rank;
    OrderIsPlain();
    forall i | 0 <= i < |reasons|
      ensures Without(reasons[i], ',') && Without(reasons[i], '|')
    {
      assert ORDER[Rank(reasons[i])] == reasons[i];
    }
  }

  /** What the fingerprint of a finding is the hash of. */
  function PartsOf(fs: FileSystem, process: string, mapped: string, r: Region, isPe: bool, section: string,
                   reasons: seq<string>): Parts {
    Parts(fs.lower(process), fs.lower(mapped), TypeToString(r.kind), ProtectToString(r.protect), isPe, section, reasons)
  }

  /** The hashed text of a finding of this region. */
  function HashedText(fs: FileSystem, r: Region, a: Anomaly): string {
    TextOf(PartsOf(fs, a.process, a.mappedPath, r, a.isPe, a.sectionName, a.reasons))
  }

  lemma FindingHashes(w: World, pid: nat, r: Region, overlay: nat)
    requires Finding(w, pid, r, overlay).Some?
    ensures var a := Finding(w, pid, r, overlay).value;
            && a.fingerprint == w.files.sha(HashedText(w.files, r, a))
            && Canonical(a.reasons) && a.reasons != []
  {
    hide Reasons, LayoutOf, RegionMetadata, RegionThreads, SectionOf, FingerprintText, HeadIsPe, Canonical;
    ReasonsCanonical(w, r, LayoutOf(w, r.allocationBase), w.mappedPath(r.base), overlay);
  }

  /** Two findings with the same hashed text agree on process, path, type, protection, PE flag,
      section and reasons, when the lowered paths hold no separator. */
  lemma FindingsSeparated(v: World, p: nat, r: Region, x: nat, w: World, q: nat, s: Region, y: nat)
    requires Finding(v, p, r, x).Some? && Finding(w, q, s, y).Some? && v.files == w.files
    requires var a, b, fs := Finding(v, p, r, x).value, Finding(w, q, s, y).value, v.files;
             && Without(fs.lower(a.process), '|') && Without(fs.lower(a.mappedPath), '|')
             && Without(fs.lower(b.process), '|') && Without(fs.lower(b.mappedPath), '|')
             && HashedText(fs, r, a) == HashedText(fs, s, b)
    ensures var a, b, fs := Finding(v, p, r, x).value, Finding(w, q, s, y).value, v.files;
            && fs.lower(a.process) == fs.lower(b.process) && fs.lower(a.mappedPath) == fs.lower(b.mappedPath)
            && TypeToString(r.kind) == TypeToString(s.kind) && ProtectToString(r.protect) == ProtectToString(s.protect)
            && a.isPe == b.isPe && a.sectionName == b.sectionName && a.reasons == b.reasons
  {
    hide Without, TypeToString, ProtectToString, Canonical, Finding, FingerprintText;
    FindingHashes(v, p, r, x);
    FindingHashes(w, q, s, y);
    var a, b, fs := Finding(v, p, r, x).value, Finding(w, q, s, y).value, v.files;
    CanonicalIsPlain(a.reasons);
    CanonicalIsPlain(b.reasons);
    TypeHasNoBar(r.kind);
    TypeHasNoBar(s.kind);
    ProtectHasNoBar(r.protect);
    ProtectHasNoBar(s.protect);
    TextInjective(PartsOf(fs, a.process, a.mappedPath, r, a.isPe, a.sectionName, a.reasons),
                  PartsOf(fs, b.process, b.mappedPath, s, b.isPe, b.sectionName, b.reasons));
  }
}
