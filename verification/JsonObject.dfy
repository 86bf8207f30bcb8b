/** Objects as the tool writes them: named fields in a fixed order, in one of a few layouts.
    Every file the tool writes is built from these, so its read-back properties are proved once. */
module JsonObject {
  import opened Text
  import opened Json
  import opened JsonDoc
  import opened DocScan

  /** Bare values are numbers, `true`, `false` and `null`. */
  datatype Value = String(s: string) | Bare(b: string) | Strings(ss: seq<string>) | Bares(bs: seq<string>)

  datatype Field = Field(name: string, value: Value)

  /** How fields are laid out: before the name, after it, between fields, after the last, in arrays. */
  datatype Layout = Layout(indent: string, colon: string, sep: string, last: string, listSep: string)

  const TOP := Layout("  ", ": ", ",\n", "\n", ", ")
  const NESTED := Layout("      ", ": ", ",\n", "\n", ", ")
  const COMPACT := Layout("", ":", ",", "", ",")

  predicate IsLayout(l: Layout) { l == TOP || l == NESTED || l == COMPACT }

  /** Keys that are looked up: plain names that start with a lower-case letter. */
  predicate IsKey(key: string) { key != "" && 'a' <= key[0] <= 'z' && NameLiteral(key) }

  predicate IsField(f: Field) {
    && NameLiteral(f.name)
    && match f.value
       case String(_) => true
       case Bare(b) => PlainGap(b)
       case Strings(_) => true
       case Bares(bs) => forall i | 0 <= i < |bs| :: PlainGap(bs[i])
  }

  predicate AreFields(fs: seq<Field>) { forall i | 0 <= i < |fs| :: IsField(fs[i]) }

  /** What is written after a field: more fields may follow in the same object. */
  function Separator(more: bool, l: Layout): string { if more then l.sep else l.last }

  // ----- text

  function StringsText(ss: seq<string>, i: nat, sep: string): string
    requires i <= |ss|
    decreases |ss| - i
  {
    if i == |ss| then "" else (if i != 0 then sep else "") + (JsonString(ss[i]) + StringsText(ss, i + 1, sep))
  }

  function BaresText(bs: seq<string>, i: nat, sep: string): string
    requires i <= |bs|
    decreases |bs| - i
  {
    if i == |bs| then "" else (if i != 0 then sep else "") + (bs[i] + BaresText(bs, i + 1, sep))
  }

  function ValueText(v: Value, l: Layout): string {
    match v
    case String(s) => JsonString(s)
    case Bare(b) => b
    case Strings(ss) => "[" + (StringsText(ss, 0, l.listSep) + "]")
    case Bares(bs) => "[" + (BaresText(bs, 0, l.listSep) + "]")
  }

  function FieldText(f: Field, l: Layout): string {
    l.indent + (JsonString(f.name) + (l.colon + ValueText(f.value, l)))
  }

  /** The text of the fields from index `k` on, each with what follows it. */
  function FieldsText(fs: seq<Field>, k: nat, l: Layout, more: bool): string
    requires k <= |fs|
    decreases |fs| - k
  {
    if k == |fs| then ""
    else FieldText(fs[k], l) + (Separator(k + 1 < |fs| || more, l) + FieldsText(fs, k + 1, l, more))
  }

  // ----- documents

  function StringsDoc(ss: seq<string>, i: nat, sep: string, d: Doc): Doc
    requires i <= |ss|
    decreases |ss| - i
  {
    if i == |ss| then d else Raw(if i != 0 then sep else "", Lit(ss[i], StringsDoc(ss, i + 1, sep, d)))
  }

  function ValueDoc(v: Value, l: Layout, d: Doc): Doc {
    match v
    case String(s) => Lit(s, d)
    case Bare(b) => Raw(b, d)
    case Strings(ss) => Raw("[", StringsDoc(ss, 0, l.listSep, Raw("]", d)))
    case Bares(bs) => Raw("[" + (BaresText(bs, 0, l.listSep) + "]"), d)
  }

  function FieldDoc(f: Field, l: Layout, d: Doc): Doc {
    Raw(l.indent, Lit(f.name, Raw(l.colon, ValueDoc(f.value, l, d))))
  }

  function FieldsDoc(fs: seq<Field>, k: nat, l: Layout, more: bool, d: Doc): Doc
    requires k <= |fs|
    decreases |fs| - k
  {
    if k == |fs| then d
    else FieldDoc(fs[k], l, Raw(Separator(k + 1 < |fs| || more, l), FieldsDoc(fs, k + 1, l, more, d)))
  }

  lemma {:induction false} RenderStrings(ss: seq<string>, i: nat, sep: string, d: Doc)
    requires i <= |ss|
    ensures Render(StringsDoc(ss, i, sep, d)) == StringsText(ss, i, sep) + Render(d)
    decreases |ss| - i
  {
    hide Render, JsonString;
    if i == |ss| {
      assert "" + Render(d) == Render(d);
    } else {
      var sp := if i != 0 then sep else "";
      var tail := StringsDoc(ss, i + 1, sep, d);
      RenderStrings(ss, i + 1, sep, d);
      RenderRaw(sp, Lit(ss[i], tail));
      RenderLit(ss[i], tail);
    }
  }

  lemma RenderValue(v: Value, l: Layout, d: Doc)
    ensures Render(ValueDoc(v, l, d)) == ValueText(v, l) + Render(d)
  {
    hide Render, JsonString;
    match v
    case String(s) => RenderLit(s, d);
    case Bare(b) => RenderRaw(b, d);
    case Strings(ss) =>
      RenderRaw("[", StringsDoc(ss, 0, l.listSep, Raw("]", d)));
      RenderStrings(ss, 0, l.listSep, Raw("]", d));
      RenderRaw("]", d);
    case Bares(bs) => RenderRaw("[" + (BaresText(bs, 0, l.listSep) + "]"), d);
  }

  lemma RenderField(f: Field, l: Layout, d: Doc)
    ensures Render(FieldDoc(f, l, d)) == FieldText(f, l) + Render(d)
  {
    hide Render, JsonString, ValueText, ValueDoc, Raw, Lit;
    var a := ValueDoc(f.value, l, d);
    RenderValue(f.value, l, d);
    RenderRaw(l.colon, a);
    RenderLit(f.name, Raw(l.colon, a));
    RenderRaw(l.indent, Lit(f.name, Raw(l.colon, a)));
  }

  /** The text of the fields is the text of their document. */
  lemma {:induction false} RenderFields(fs: seq<Field>, k: nat, l: Layout, more: bool, d: Doc)
    requires k <= |fs|
    ensures Render(FieldsDoc(fs, k, l, more, d)) == FieldsText(fs, k, l, more) + Render(d)
    decreases |fs| - k
  {
    hide Render, FieldText, FieldDoc, Raw;
    if k == |fs| {
      assert "" + Render(d) == Render(d);
    } else {
      var sp := Separator(k + 1 < |fs| || more, l);
      RenderFields(fs, k + 1, l, more, d);
      RenderRaw(sp, FieldsDoc(fs, k + 1, l, more, d));
      RenderField(fs[k], l, Raw(sp, FieldsDoc(fs, k + 1, l, more, d)));
    }
  }

  // ----- well-formedness

  /** The document can follow any value: it starts with neither a colon nor the key. */
  predicate Closes(d: Doc, key: string) {
    !ColonGap(d.gap) && (d.gap == "" || key == "" || d.gap[0] != key[0])
  }

  lemma RawCloses(g: string, d: Doc, key: string)
    requires IsKey(key)
    requires g != "" && g[0] in ",]}"
    ensures Closes(Raw(g, d), key)
  {
    assert SkipWs(Raw(g, d).gap) == Raw(g, d).gap;
  }

  lemma RawSpaceCloses(g: string, d: Doc, key: string)
    requires IsKey(key)
    requires SkipWs(g) == "" && Closes(d, key)
    ensures Closes(Raw(g, d), key)
  {
    SkipWsGap(g, d.gap);
    assert Raw(g, d).gap == g + d.gap;
    if g == "" {
      assert g + d.gap == d.gap;
    }
  }

  lemma RawWellFormed(g: string, d: Doc, key: string)
    requires PlainGap(g) && WellFormed(d, key)
    ensures WellFormed(Raw(g, d), key)
  {
  }

  lemma {:induction false} StringsWellFormed(ss: seq<string>, i: nat, sep: string, d: Doc, key: string)
    requires i <= |ss| && IsKey(key)
    requires sep != "" && sep[0] == ',' && PlainGap(sep)
    requires WellFormed(d, key) && Closes(d, key)
    ensures WellFormed(StringsDoc(ss, i, sep, d), key)
    ensures 0 < i ==> Closes(StringsDoc(ss, i, sep, d), key)
    ensures Values(StringsDoc(ss, i, sep, d), key) == Values(d, key)
    ensures Lookup(StringsDoc(ss, i, sep, d), key) == Lookup(d, key)
    decreases |ss| - i
  {
    if i < |ss| {
      StringsWellFormed(ss, i + 1, sep, d, key);
      var tail := StringsDoc(ss, i + 1, sep, d);
      assert WellFormed(Lit(ss[i], tail), key);
      RawWellFormed(if i != 0 then sep else "", Lit(ss[i], tail), key);
      if i != 0 {
        RawCloses(sep, Lit(ss[i], tail), key);
      }
    }
  }

  lemma {:induction false} BaresPlain(bs: seq<string>, i: nat, sep: string)
    requires i <= |bs| && PlainGap(sep)
    requires forall j | 0 <= j < |bs| :: PlainGap(bs[j])
    ensures PlainGap(BaresText(bs, i, sep))
    decreases |bs| - i
  {
    if i < |bs| {
      BaresPlain(bs, i + 1, sep);
    }
  }

  lemma ArrayWellFormed(ss: seq<string>, sep: string, d: Doc, key: string)
    requires IsKey(key) && sep != "" && sep[0] == ',' && PlainGap(sep)
    requires WellFormed(d, key)
    ensures WellFormed(Raw("[", StringsDoc(ss, 0, sep, Raw("]", d))), key)
    ensures Values(Raw("[", StringsDoc(ss, 0, sep, Raw("]", d))), key) == Values(d, key)
    ensures Lookup(Raw("[", StringsDoc(ss, 0, sep, Raw("]", d))), key) == Lookup(d, key)
  {
    hide WellFormed, StringsDoc, Closes;
    RawCloses("]", d, key);
    RawWellFormed("]", d, key);
    StringsWellFormed(ss, 0, sep, Raw("]", d), key);
    RawWellFormed("[", StringsDoc(ss, 0, sep, Raw("]", d)), key);
  }

  lemma RawIgnored(g: string, d: Doc, key: string)
    ensures Values(Raw(g, d), key) == Values(d, key)
    ensures Lookup(Raw(g, d), key) == Lookup(d, key)
  {
  }

  lemma BareWellFormed(b: string, d: Doc, key: string)
    requires PlainGap(b) && WellFormed(d, key)
    ensures WellFormed(Raw(b, d), key)
    ensures Values(Raw(b, d), key) == Values(d, key)
    ensures Lookup(Raw(b, d), key) == Lookup(d, key)
  {
  }

  lemma LitWellFormed(s: string, d: Doc, key: string)
    requires WellFormed(d, key) && Closes(d, key) && key != ""
    ensures WellFormed(Lit(s, d), key)
    ensures Values(Lit(s, d), key) == Values(d, key)
    ensures Lookup(Lit(s, d), key) == Lookup(d, key)
  {
  }

  lemma ValueWellFormed(f: Field, l: Layout, d: Doc, key: string)
    requires IsField(f) && IsLayout(l) && IsKey(key)
    requires WellFormed(d, key) && Closes(d, key)
    ensures WellFormed(ValueDoc(f.value, l, d), key)
    ensures Values(ValueDoc(f.value, l, d), key) == Values(d, key)
    ensures Lookup(ValueDoc(f.value, l, d), key) == Lookup(d, key)
  {
    hide WellFormed, Values, Lookup, Raw, Lit, StringsDoc, BaresText, Closes;
    match f.value
    case String(s) => LitWellFormed(s, d, key);
    case Bare(b) => BareWellFormed(b, d, key);
    case Strings(ss) => ArrayWellFormed(ss, l.listSep, d, key);
    case Bares(bs) =>
      BaresPlain(bs, 0, l.listSep);
      BareWellFormed("[" + (BaresText(bs, 0, l.listSep) + "]"), d, key);
  }

  /** What a field contributes to the values under a name. */
  function FieldValues(f: Field, key: string): set<string> {
    if f.name == key && f.value.String? then NonEmpty(Some(Norm(f.value.s))) else {}
  }

  /** Fields with this name are strings. */
  predicate StringUnder(fs: seq<Field>, key: string) {
    forall i | 0 <= i < |fs| && fs[i].name == key :: fs[i].value.String?
  }

  lemma ColonThen(colon: string, v: Doc)
    requires colon == ": " || colon == ":"
    ensures ColonGap(Raw(colon, v).gap) && Raw(colon, v).gap[0] == ':'
    ensures AfterColonDoc(Raw(colon, v)) == Raw(colon[1..], v)
  {
    var g := Raw(colon, v).gap;
    assert g == colon + v.gap;
    assert SkipWs(g) == g;
    assert g[1..] == colon[1..] + v.gap;
  }

  lemma StringAtValue(colon: string, s: string, d: Doc)
    requires colon == ": " || colon == ":"
    ensures StringAt(Raw(colon[1..], Lit(s, d))) == Some(Norm(s))
  {
    assert colon[1..] + "" == colon[1..];
  }

  lemma FieldWellFormed(f: Field, l: Layout, d: Doc, key: string)
    requires IsField(f) && IsLayout(l) && IsKey(key)
    requires WellFormed(d, key) && Closes(d, key)
    ensures WellFormed(FieldDoc(f, l, d), key)
    ensures f.name != key ==> Lookup(FieldDoc(f, l, d), key) == Lookup(d, key)
    ensures f.name == key ==> Lookup(FieldDoc(f, l, d), key) == Some(Raw(l.colon[1..], ValueDoc(f.value, l, d)))
    ensures f.name == key && f.value.String? ==> LookupString(FieldDoc(f, l, d), key) == Some(Norm(f.value.s))
    ensures (f.name == key ==> f.value.String?) ==>
              Values(FieldDoc(f, l, d), key) == FieldValues(f, key) + Values(d, key)
  {
    hide ValueDoc, StringAt;
    var v := ValueDoc(f.value, l, d);
    ValueWellFormed(f, l, d, key);
    RawWellFormed(l.colon, v, key);
    ColonThen(l.colon, v);
    var n := Lit(f.name, Raw(l.colon, v));
    assert WellFormed(n, key);
    RawWellFormed(l.indent, n, key);
    if f.name == key && f.value.String? {
      ValueIsLit(f.value, l, d);
      StringAtValue(l.colon, f.value.s, d);
    }
  }

  lemma ValueIsLit(v: Value, l: Layout, d: Doc)
    requires v.String?
    ensures ValueDoc(v, l, d) == Lit(v.s, d)
  {
  }

  predicate NotNamed(fs: seq<Field>, k: nat, key: string) { forall i | k <= i < |fs| :: fs[i].name != key }

  function AllValues(fs: seq<Field>, k: nat, key: string): set<string>
    requires k <= |fs|
    decreases |fs| - k
  {
    if k == |fs| then {} else FieldValues(fs[k], key) + AllValues(fs, k + 1, key)
  }

  lemma {:induction false} FieldsWellFormed(fs: seq<Field>, k: nat, l: Layout, more: bool, d: Doc, key: string)
    requires k <= |fs| && AreFields(fs) && IsLayout(l) && IsKey(key)
    requires WellFormed(d, key) && (more || Closes(d, key))
    ensures WellFormed(FieldsDoc(fs, k, l, more, d), key)
    ensures NotNamed(fs, k, key) ==> Lookup(FieldsDoc(fs, k, l, more, d), key) == Lookup(d, key)
    ensures StringUnder(fs, key) ==> Values(FieldsDoc(fs, k, l, more, d), key) == AllValues(fs, k, key) + Values(d, key)
    decreases |fs| - k
  {
    hide WellFormed, Values, FieldDoc, ValueDoc, Closes, LookupString, Lookup, Raw, NameLiteral, FieldValues, IsLayout;
    if k < |fs| {
      FieldsWellFormed(fs, k + 1, l, more, d, key);
      RawIgnored(Separator(k + 1 < |fs| || more, l), FieldsDoc(fs, k + 1, l, more, d), key);
      FieldWellFormed(fs[k], l, AfterField(fs, k, l, more, d), key) by {
        AfterFieldCloses(fs, k, l, more, d, key);
      }
    }
  }

  function AfterField(fs: seq<Field>, k: nat, l: Layout, more: bool, d: Doc): Doc
    requires k < |fs|
  {
    Raw(Separator(k + 1 < |fs| || more, l), FieldsDoc(fs, k + 1, l, more, d))
  }

  lemma AfterFieldCloses(fs: seq<Field>, k: nat, l: Layout, more: bool, d: Doc, key: string)
    requires k < |fs| && IsLayout(l) && IsKey(key)
    requires WellFormed(FieldsDoc(fs, k + 1, l, more, d), key)
    requires more || Closes(d, key)
    ensures WellFormed(AfterField(fs, k, l, more, d), key) && Closes(AfterField(fs, k, l, more, d), key)
  {
    if k + 1 < |fs| || more {
      RawWellFormed(l.sep, FieldsDoc(fs, k + 1, l, more, d), key);
      RawCloses(l.sep, FieldsDoc(fs, k + 1, l, more, d), key);
    } else {
      assert SkipWs(l.last) == "";
      RawWellFormed(l.last, d, key);
      RawSpaceCloses(l.last, d, key);
    }
  }

  /** A string field reads back, up to `Norm`, unless an earlier field has the same name; the
      values of all other fields are arbitrary. */
  lemma {:induction false} FieldReadsBack(fs: seq<Field>, k: nat, n: nat, l: Layout, more: bool, d: Doc)
    requires k <= n < |fs| && AreFields(fs) && IsLayout(l) && IsKey(fs[n].name)
    requires WellFormed(d, fs[n].name) && (more || Closes(d, fs[n].name))
    requires forall i | k <= i < n :: fs[i].name != fs[n].name
    ensures Lookup(FieldsDoc(fs, k, l, more, d), fs[n].name) ==
            Some(Raw(l.colon[1..], ValueDoc(fs[n].value, l, AfterField(fs, n, l, more, d))))
    decreases n - k
  {
    hide WellFormed, Values, FieldDoc, ValueDoc, Closes, LookupString, Raw, NameLiteral;
    var key := fs[n].name;
    FieldsWellFormed(fs, k + 1, l, more, d, key);
    FieldWellFormed(fs[k], l, AfterField(fs, k, l, more, d), key) by {
      AfterFieldCloses(fs, k, l, more, d, key);
    }
    if k < n {
      RawIgnored(Separator(k + 1 < |fs| || more, l), FieldsDoc(fs, k + 1, l, more, d), key);
      FieldReadsBack(fs, k + 1, n, l, more, d);
    }
  }

  lemma {:induction false} NotNamedValues(fs: seq<Field>, k: nat, key: string)
    requires k <= |fs| && NotNamed(fs, k, key)
    ensures AllValues(fs, k, key) == {}
    decreases |fs| - k
  {
    if k < |fs| {
      NotNamedValues(fs, k + 1, key);
    }
  }

  /** A group without the key adds nothing to a well-formed document. */
  lemma GroupAddsNothing(fs: seq<Field>, l: Layout, d: Doc, key: string)
    requires AreFields(fs) && IsLayout(l) && IsKey(key) && NotNamed(fs, 0, key)
    requires WellFormed(d, key)
    ensures WellFormed(FieldsDoc(fs, 0, l, true, d), key)
    ensures Values(FieldsDoc(fs, 0, l, true, d), key) == Values(d, key)
    ensures Lookup(FieldsDoc(fs, 0, l, true, d), key) == Lookup(d, key)
  {
    hide WellFormed, Values, FieldsDoc, Lookup;
    FieldsWellFormed(fs, 0, l, true, d, key);
    NotNamedValues(fs, 0, key);
  }

  // ----- objects made of several groups

  function GroupsText(groups: seq<seq<Field>>, i: nat, l: Layout): string
    requires i <= |groups|
    decreases |groups| - i
  {
    if i == |groups| then "" else FieldsText(groups[i], 0, l, i + 1 < |groups|) + GroupsText(groups, i + 1, l)
  }

  function GroupsDoc(groups: seq<seq<Field>>, i: nat, l: Layout, d: Doc): Doc
    requires i <= |groups|
    decreases |groups| - i
  {
    if i == |groups| then d else FieldsDoc(groups[i], 0, l, i + 1 < |groups|, GroupsDoc(groups, i + 1, l, d))
  }

  lemma {:induction false} RenderGroups(groups: seq<seq<Field>>, i: nat, l: Layout, d: Doc)
    requires i <= |groups|
    ensures Render(GroupsDoc(groups, i, l, d)) == GroupsText(groups, i, l) + Render(d)
    decreases |groups| - i
  {
    hide Render, FieldsText, FieldsDoc;
    if i == |groups| {
      assert "" + Render(d) == Render(d);
    } else {
      RenderGroups(groups, i + 1, l, d);
      RenderFields(groups[i], 0, l, i + 1 < |groups|, GroupsDoc(groups, i + 1, l, d));
      Assoc(FieldsText(groups[i], 0, l, i + 1 < |groups|), GroupsText(groups, i + 1, l), Render(d));
    }
  }

  predicate AreGroups(groups: seq<seq<Field>>) { forall i | 0 <= i < |groups| :: AreFields(groups[i]) }

  lemma {:induction false} GroupsWellFormed(groups: seq<seq<Field>>, i: nat, l: Layout, d: Doc, key: string)
    requires i <= |groups| && AreGroups(groups) && IsLayout(l) && IsKey(key)
    requires WellFormed(d, key) && Closes(d, key)
    ensures WellFormed(GroupsDoc(groups, i, l, d), key)
    ensures i == |groups| ==> Closes(GroupsDoc(groups, i, l, d), key)
    decreases |groups| - i
  {
    hide WellFormed, Closes, FieldsDoc, AreFields, IsKey, IsLayout;
    if i < |groups| {
      GroupsWellFormed(groups, i + 1, l, d, key);
      FieldsWellFormed(groups[i], 0, l, i + 1 < |groups|, GroupsDoc(groups, i + 1, l, d), key);
    }
  }

  /** What is written after field `n` of group `m`. */
  function AfterGroupField(groups: seq<seq<Field>>, m: nat, n: nat, l: Layout, d: Doc): Doc
    requires m < |groups| && n < |groups[m]|
  {
    AfterField(groups[m], n, l, m + 1 < |groups|, GroupsDoc(groups, m + 1, l, d))
  }

  /** A field of any group is found by its name unless an earlier field has the same. */
  lemma {:induction false} GroupReadsBack(groups: seq<seq<Field>>, i: nat, m: nat, n: nat, l: Layout, d: Doc)
    requires i <= m < |groups| && n < |groups[m]| && AreGroups(groups) && IsLayout(l) && IsKey(groups[m][n].name)
    requires WellFormed(d, groups[m][n].name) && Closes(d, groups[m][n].name)
    requires forall j | i <= j < m :: NotNamed(groups[j], 0, groups[m][n].name)
    requires forall j | 0 <= j < n :: groups[m][j].name != groups[m][n].name
    ensures Lookup(GroupsDoc(groups, i, l, d), groups[m][n].name) ==
            Some(Raw(l.colon[1..], ValueDoc(groups[m][n].value, l, AfterGroupField(groups, m, n, l, d))))
    decreases m - i
  {
    hide WellFormed, Closes, FieldsDoc, AreFields, IsKey, IsLayout, NotNamed, Lookup, ValueDoc, Raw, AfterField;
    var key := groups[m][n].name;
    GroupsWellFormed(groups, i + 1, l, d, key);
    var rest := GroupsDoc(groups, i + 1, l, d);
    if i < m {
      GroupReadsBack(groups, i + 1, m, n, l, d);
      GroupAddsNothing(groups[i], l, rest, key);
    } else {
      FieldReadsBack(groups[m], 0, n, l, m + 1 < |groups|, rest);
    }
  }

  /** The strings that the groups hold under a name. */
  function GroupsValues(groups: seq<seq<Field>>, i: nat, key: string): set<string>
    requires i <= |groups|
    decreases |groups| - i
  {
    if i == |groups| then {} else AllValues(groups[i], 0, key) + GroupsValues(groups, i + 1, key)
  }

  lemma {:induction false} GroupsHold(groups: seq<seq<Field>>, i: nat, l: Layout, d: Doc, key: string)
    requires i <= |groups| && AreGroups(groups) && IsLayout(l) && IsKey(key)
    requires WellFormed(d, key) && Closes(d, key)
    requires forall j | 0 <= j < |groups| :: StringUnder(groups[j], key)
    ensures Values(GroupsDoc(groups, i, l, d), key) == GroupsValues(groups, i, key) + Values(d, key)
    decreases |groups| - i
  {
    hide WellFormed, Closes, FieldsDoc, AreFields, IsKey, IsLayout, Values, AllValues, StringUnder;
    if i < |groups| {
      GroupsHold(groups, i + 1, l, d, key);
      GroupsWellFormed(groups, i + 1, l, d, key);
      FieldsWellFormed(groups[i], 0, l, i + 1 < |groups|, GroupsDoc(groups, i + 1, l, d), key);
    }
  }

  /** When only field `n` of group `m` has the name, its string is the only one. */
  lemma {:induction false} OneValue(groups: seq<seq<Field>>, i: nat, m: nat, n: nat, key: string)
    requires i <= |groups| && m < |groups| && n < |groups[m]|
    requires groups[m][n].name == key && groups[m][n].value.String?
    requires forall j | 0 <= j < |groups| && j != m :: NotNamed(groups[j], 0, key)
    requires forall j | 0 <= j < |groups[m]| && j != n :: groups[m][j].name != key
    ensures GroupsValues(groups, i, key) == if i <= m then NonEmpty(Some(Norm(groups[m][n].value.s))) else {}
    decreases |groups| - i
  {
    hide Norm, NotNamed;
    if i < |groups| {
      OneValue(groups, i + 1, m, n, key);
      if i == m {
        OneValueInGroup(groups[m], 0, n, key);
      } else {
        NotNamedValues(groups[i], 0, key);
      }
    }
  }

  lemma {:induction false} OneValueInGroup(fs: seq<Field>, k: nat, n: nat, key: string)
    requires k <= n < |fs| && fs[n].name == key && fs[n].value.String?
    requires forall j | 0 <= j < |fs| && j != n :: fs[j].name != key
    ensures AllValues(fs, k, key) == NonEmpty(Some(Norm(fs[n].value.s)))
    decreases n - k
  {
    hide Norm;
    if k < n {
      OneValueInGroup(fs, k + 1, n, key);
    } else {
      NotNamedValues(fs, k + 1, key);
    }
  }

  lemma ColonOf(l: Layout)
    requires IsLayout(l)
    ensures l.colon == ": " || l.colon == ":"
  {
  }

  // ----- lists laid out one item below the other

  /** The name of a list whose items are laid out one below the other. */
  function ListDoc(name: string, d: Doc): Doc { Raw("  ", Lit(name, Raw(": ", Raw("[\n", d)))) }

  lemma ListHolds(name: string, d: Doc, key: string)
    requires IsKey(key) && NameLiteral(name)
    requires WellFormed(d, key)
    ensures WellFormed(ListDoc(name, d), key)
    ensures name != key ==> Values(ListDoc(name, d), key) == Values(d, key)
    ensures name != key ==> Lookup(ListDoc(name, d), key) == Lookup(d, key)
    ensures name == key ==> Lookup(ListDoc(name, d), key) == Some(Raw(" ", Raw("[\n", d)))
  {
    var x := Raw("[\n", d);
    ColonThen(": ", x);
    RawIgnored("[\n", d, key);
    RawIgnored(": ", x, key);
    RawIgnored("  ", Lit(name, Raw(": ", x)), key);
    RawWellFormed("[\n", d, key);
    RawWellFormed(": ", x, key);
    RawWellFormed("  ", Lit(name, Raw(": ", x)), key);
  }

  lemma SpacesSkip()
    ensures SkipWs("  ") == "" && SkipWs("    ") == ""
  {
    assert "    "[1..][1..] == "  ";
  }

  // ----- writing

  method PutField(o: string, f: Field, l: Layout, more: bool) returns (out: string)
    ensures out == o + (FieldText(f, l) + Separator(more, l))
  {
    hide JsonString;
    var v: string;
    match f.value {
      case String(s) => v := JsonString(s);
      case Bare(b) => v := b;
      case Strings(ss) => v := RenderStringArray(ss, l.listSep);
      case Bares(bs) => v := RenderBareArray(bs, l.listSep);
    }
    out := o + ((l.indent + (JsonString(f.name) + (l.colon + v))) + Separator(more, l));
  }

  /** Writes a group of fields one after the other. */
  method PutFields(o: string, fs: seq<Field>, l: Layout, more: bool) returns (out: string)
    ensures out == o + FieldsText(fs, 0, l, more)
  {
    hide FieldText;
    out := o;
    ghost var all := FieldsText(fs, 0, l, more);
    for k := 0 to |fs|
      invariant out + FieldsText(fs, k, l, more) == o + all
    {
      var last := Separator(k + 1 < |fs| || more, l);
      Regroup(out, FieldText(fs[k], l), last, FieldsText(fs, k + 1, l, more));
      out := PutField(out, fs[k], l, k + 1 < |fs| || more);
    }
    assert out + "" == out;
  }

  /** Writes several groups of one object. */
  method PutGroups(o: string, groups: seq<seq<Field>>, l: Layout) returns (out: string)
    ensures out == o + GroupsText(groups, 0, l)
  {
    hide FieldsText;
    out := o;
    ghost var all := GroupsText(groups, 0, l);
    for i := 0 to |groups|
      invariant out + GroupsText(groups, i, l) == o + all
    {
      Assoc(out, FieldsText(groups[i], 0, l, i + 1 < |groups|), GroupsText(groups, i + 1, l));
      out := PutFields(out, groups[i], l, i + 1 < |groups|);
    }
    assert out + "" == out;
  }

  lemma Regroup(a: string, b: string, c: string, d: string)
    ensures (a + (b + c)) + d == a + (b + (c + d))
  {
  }

  lemma Assoc(a: string, b: string, c: string)
    ensures (a + b) + c == a + (b + c)
  {
  }

  method RenderStringArray(values: seq<string>, sep: string) returns (out: string)
    ensures out == "[" + (StringsText(values, 0, sep) + "]")
  {
    hide JsonString;
    out := "";
    ghost var all := StringsText(values, 0, sep);
    for i := 0 to |values|
      invariant out + StringsText(values, i, sep) == all
    {
      ghost var rest := StringsText(values, i + 1, sep);
      ghost var item := JsonString(values[i]) + rest;
      if i != 0 {
        Assoc(out, sep, item);
        out := out + sep;
      } else {
        assert "" + item == item;
      }
      Assoc(out, JsonString(values[i]), rest);
      out := out + JsonString(values[i]);
    }
    assert out + "" == out;
    out := "[" + (out + "]");
  }

  method RenderBareArray(bs: seq<string>, sep: string) returns (out: string)
    ensures out == "[" + (BaresText(bs, 0, sep) + "]")
  {
    out := "";
    ghost var all := BaresText(bs, 0, sep);
    for i := 0 to |bs|
      invariant out + BaresText(bs, i, sep) == all
    {
      ghost var rest := BaresText(bs, i + 1, sep);
      ghost var item := bs[i] + rest;
      if i != 0 {
        Assoc(out, sep, item);
        out := out + sep;
      } else {
        assert "" + item == item;
      }
      Assoc(out, bs[i], rest);
      out := out + bs[i];
    }
    assert out + "" == out;
    out := "[" + (out + "]");
  }

  function Decimals(ns: seq<nat>): seq<string> {
    seq(|ns|, i requires 0 <= i < |ns| => Decimal(ns[i]))
  }

  lemma DigitsPlain(s: string)
    requires AllDigits(s)
    ensures PlainGap(s)
  {
  }

  /** One group of fields written before the rest of a document. */
  method PutGroup(o: string, fs: seq<Field>, l: Layout, more: bool, ghost d: Doc) returns (out: string)
    ensures out + Render(d) == o + Render(FieldsDoc(fs, 0, l, more, d))
  {
    hide Render;
    out := PutFields(o, fs, l, more);
    RenderFields(fs, 0, l, more, d);
    Assoc(o, FieldsText(fs, 0, l, more), Render(d));
  }

  lemma PutRaw(o: string, g: string, d: Doc)
    ensures (o + g) + Render(d) == o + Render(Raw(g, d))
  {
    RenderRaw(g, d);
  }

  lemma PutLit(o: string, s: string, d: Doc)
    ensures (o + JsonString(s)) + Render(d) == o + Render(Lit(s, d))
  {
    RenderLit(s, d);
    Assoc(o, JsonString(s), Render(d));
  }

  method PutListName(o: string, name: string, ghost d: Doc) returns (out: string)
    ensures out + Render(d) == o + Render(ListDoc(name, d))
  {
    hide Render, Raw, JsonString;
    PutRaw(o, "  ", Lit(name, Raw(": ", Raw("[\n", d))));
    out := o + "  ";
    PutLit(out, name, Raw(": ", Raw("[\n", d)));
    out := out + JsonString(name);
    PutRaw(out, ": ", Raw("[\n", d));
    out := out + ": ";
    PutRaw(out, "[\n", d);
    out := out + "[\n";
  }

  // ----- whole objects

  /** The text closes an object written in this layout. */
  predicate ClosesObject(end: string, l: Layout) {
    && PlainGap(end) && end != "" && (end[0] == '}' || (end[0] == ' ' && l != COMPACT))
    && SkipWs(end) != "" && SkipWs(end)[0] == '}'
  }

  lemma EndOk(end: string, l: Layout, key: string)
    requires ClosesObject(end, l) && IsKey(key)
    ensures WellFormed(End(end), key) && Closes(End(end), key) && Render(End(end)) == end
  {
  }
}
