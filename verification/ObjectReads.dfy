/** Every field of a written object reads back by its name: strings and arrays through the tool's own
    reader, numbers and other bare values as the text that stands at their name. */
module ObjectReads {
  import opened Text
  import opened Json
  import opened JsonEscaping
  import opened JsonDoc
  import opened JsonObject
  import opened JsonArrays
  import opened FieldNames

  /** What may stand after a value. */
  predicate Ends(rest: string) { rest != "" && rest[0] in ",\n}" }

  /** The text at the value of the name starts with `v`, and nothing of the value comes after it. */
  ghost predicate StandsAt(text: string, key: string, v: string) {
    exists rest :: FindKeyValue(text, key) == Some(v + rest) && Ends(rest)
  }

  function BareList(bs: seq<string>, sep: string): string { "[" + (BaresText(bs, 0, sep) + "]") }

  /** The object has this value under this name. */
  ghost predicate Reads(text: string, key: string, v: Value) {
    match v
    case String(s) => FindString(text, key) == Some(Norm(s))
    case Bare(b) => StandsAt(text, key, b)
    case Strings(ss) => FindStringArray(text, key) == NormAll(ss)
    case Bares(bs) => StandsAt(text, key, BareList(bs, ", ")) || StandsAt(text, key, BareList(bs, ","))
  }

  /** Bare values are written, and start with no space. */
  predicate BaresOk(fs: seq<Field>) {
    forall i | 0 <= i < |fs| && fs[i].value.Bare? :: fs[i].value.b != "" && !IsSpace(fs[i].value.b[0])
  }

  predicate AreKeys(fs: seq<Field>) { forall i | 0 <= i < |fs| :: IsKey(fs[i].name) }

  /** The groups of an object whose every field can be looked up. */
  predicate ReadableGroups(groups: seq<seq<Field>>, bounds: seq<nat>) {
    && AreGroups(groups) && GroupsRanked(groups, bounds)
    && forall i | 0 <= i < |groups| :: AreKeys(groups[i]) && BaresOk(groups[i])
  }

  function ObjectText(open: string, groups: seq<seq<Field>>, l: Layout, end: string): string {
    open + (GroupsText(groups, 0, l) + end)
  }

  // ----- the text at a name

  lemma AfterEnds(groups: seq<seq<Field>>, m: nat, n: nat, l: Layout, end: string)
    requires m < |groups| && n < |groups[m]| && IsLayout(l) && ClosesObject(end, l)
    ensures Ends(Render(AfterGroupField(groups, m, n, l, End(end))))
  {
    var more := n + 1 < |groups[m]| || m + 1 < |groups|;
    var rest := FieldsDoc(groups[m], n + 1, l, m + 1 < |groups|, GroupsDoc(groups, m + 1, l, End(end)));
    RenderRaw(Separator(more, l), rest);
    if !more {
      assert rest == End(end);
      assert l.last == "" || l.last == "\n";
    }
  }

  lemma SpaceThen(colon: string, x: string)
    requires (colon == ": " || colon == ":") && x != "" && !IsSpace(x[0])
    ensures SkipWs(colon[1..] + x) == x
  {
    assert colon == ": " ==> (colon[1..] + x)[1..] == x;
    assert colon == ":" ==> colon[1..] + x == x;
  }

  lemma ValueStarts(f: Field, l: Layout)
    requires f.value.Bare? ==> f.value.b != "" && !IsSpace(f.value.b[0])
    ensures ValueText(f.value, l) != "" && !IsSpace(ValueText(f.value, l)[0])
  {
    hide Escape, BaresText, StringsText;
  }

  lemma ObjectFinds(open: string, groups: seq<seq<Field>>, bounds: seq<nat>, l: Layout, end: string, m: nat, n: nat)
    requires ReadableGroups(groups, bounds) && m < |groups| && n < |groups[m]| && IsLayout(l)
    requires PlainGap(open) && ClosesObject(end, l)
    ensures var rest := Render(AfterGroupField(groups, m, n, l, End(end)));
            && FindKeyValue(ObjectText(open, groups, l, end), groups[m][n].name) ==
               Some(ValueText(groups[m][n].value, l) + rest)
            && Ends(rest)
  {
    hide GroupsText, GroupsDoc, WellFormed, Closes, AreGroups, IsKey, NotNamed, Render, Raw, Lookup, ValueDoc;
    hide AfterGroupField, FindKeyValue, ValueText, GroupsRanked, SkipWs, IsLayout, ClosesObject;
    var key, f := groups[m][n].name, groups[m][n];
    OnlyOne(groups, bounds, m, n);
    EndOk(end, l, key);
    GroupsWellFormed(groups, 0, l, End(end), key);
    GroupReadsBack(groups, 0, m, n, l, End(end));
    var d := GroupsDoc(groups, 0, l, End(end));
    BareWellFormed(open, d, key);
    FindOutside(Raw(open, d), key);
    RenderRaw(open, d);
    RenderGroups(groups, 0, l, End(end));
    AfterEnds(groups, m, n, l, end);
    ColonOf(l);
    var after := AfterGroupField(groups, m, n, l, End(end));
    RenderRaw(l.colon[1..], ValueDoc(f.value, l, after));
    RenderValue(f.value, l, after);
    ValueStarts(f, l);
    SpaceThen(l.colon, ValueText(f.value, l) + Render(after));
  }

  lemma StringReads(text: string, key: string, s: string, rest: string)
    requires FindKeyValue(text, key) == Some(JsonString(s) + rest)
    ensures FindString(text, key) == Some(Norm(s))
  {
    hide FindKeyValue, JsonString, Norm;
    ParseQuoted(s, rest);
  }

  lemma StringsRead(text: string, key: string, ss: seq<string>, sep: string, rest: string)
    requires IsListSep(sep) && FindKeyValue(text, key) == Some(("[" + (StringsText(ss, 0, sep) + "]")) + rest)
    ensures FindStringArray(text, key) == NormAll(ss)
  {
    hide FindKeyValue, ArrayItems, NormAll, StringsText;
    var v := ("[" + (StringsText(ss, 0, sep) + "]")) + rest;
    assert v[0] == '[' && v[1..] == StringsText(ss, 0, sep) + ("]" + rest);
    InlineItems(ss, 0, sep, rest);
    assert ss[0..] == ss;
  }

  lemma ListSepOf(l: Layout)
    requires IsLayout(l)
    ensures IsListSep(l.listSep)
  {
  }

  /** Every field of the object reads back by its own name, whatever the others contain. */
  lemma ObjectReadsBack(open: string, groups: seq<seq<Field>>, bounds: seq<nat>, l: Layout, end: string, m: nat, n: nat)
    requires ReadableGroups(groups, bounds) && m < |groups| && n < |groups[m]| && IsLayout(l)
    requires PlainGap(open) && ClosesObject(end, l)
    ensures Reads(ObjectText(open, groups, l, end), groups[m][n].name, groups[m][n].value)
  {
    hide ReadableGroups, FindKeyValue, FindString, FindStringArray, ObjectText, GroupsDoc, Render;
    hide AfterGroupField, NormAll;
    hide JsonString, Norm, StringsText, BaresText, IsLayout, Ends, ClosesObject;
    ObjectFinds(open, groups, bounds, l, end, m, n);
    ListSepOf(l);
    var text, f := ObjectText(open, groups, l, end), groups[m][n];
    var rest := Render(AfterGroupField(groups, m, n, l, End(end)));
    match f.value
    case String(s) => StringReads(text, f.name, s, rest);
    case Bare(b) => assert FindKeyValue(text, f.name) == Some(b + rest);
    case Strings(ss) => StringsRead(text, f.name, ss, l.listSep, rest);
    case Bares(bs) => assert FindKeyValue(text, f.name) == Some(BareList(bs, l.listSep) + rest);
  }

  /** All fields of a group read back. */
  ghost predicate AllRead(text: string, fs: seq<Field>) {
    forall i | 0 <= i < |fs| :: Reads(text, fs[i].name, fs[i].value)
  }

  lemma GroupsRead(open: string, groups: seq<seq<Field>>, bounds: seq<nat>, l: Layout, end: string)
    requires ReadableGroups(groups, bounds) && IsLayout(l)
    requires PlainGap(open) && ClosesObject(end, l)
    ensures forall m | 0 <= m < |groups| :: AllRead(ObjectText(open, groups, l, end), groups[m])
  {
    hide ReadableGroups, IsLayout, PlainGap, Reads, ObjectText, ClosesObject;
    forall m, n | 0 <= m < |groups| && 0 <= n < |groups[m]|
      ensures Reads(ObjectText(open, groups, l, end), groups[m][n].name, groups[m][n].value)
    {
      ObjectReadsBack(open, groups, bounds, l, end, m, n);
    }
  }

  // ----- numbers

  /** The digits at the start of a text. */
  function LeadingDigits(s: string): string {
    if s == "" || !IsDigit(s[0]) then "" else [s[0]] + LeadingDigits(s[1..])
  }

  lemma {:induction false} DigitsEnd(ds: string, rest: string)
    requires AllDigits(ds) && (rest == "" || !IsDigit(rest[0]))
    ensures LeadingDigits(ds + rest) == ds
  {
    if ds == "" {
      assert ds + rest == rest;
    } else {
      DigitsEnd(ds[1..], rest);
      assert (ds + rest)[1..] == ds[1..] + rest;
      assert ds == [ds[0]] + ds[1..];
    }
  }

  /** A number that stands at a name is the only one whose digits can be read there. */
  lemma NumberRead(text: string, key: string, n: nat)
    requires StandsAt(text, key, Decimal(n))
    ensures FindKeyValue(text, key).Some?
    ensures var ds := LeadingDigits(FindKeyValue(text, key).value);
            AllDigits(ds) && DecimalValue(ds) == n
  {
    hide FindKeyValue, Decimal, DecimalValue;
    var rest :| FindKeyValue(text, key) == Some(Decimal(n) + rest) && Ends(rest);
    DigitsEnd(Decimal(n), rest);
    DecimalRoundTrip(n);
  }
}
