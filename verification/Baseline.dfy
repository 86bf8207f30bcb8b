/** Baseline files of config.cpp: the text that is saved and what loading it gives. */
module Baseline {
  import opened Text
  import opened Json
  import opened JsonEscaping
  import opened JsonDoc
  import opened JsonObject
  import opened JsonArrays

  function HeaderFields(app: string): seq<Field> {
    [Field("schema_version", Bare("1")), Field("app", String(app))]
  }

  function BaselineDoc(app: string, fps: seq<string>): Doc {
    Raw("{\n", FieldsDoc(HeaderFields(app), 0, TOP, true, ListDoc("allowed", LinesDoc(fps, 0, LINES_END))))
  }

  function BaselineText(app: string, fps: seq<string>): string { Render(BaselineDoc(app, fps)) }

  /** The text handed to `WriteTextFile`. */
  method SaveBaseline(app: string, fps: seq<string>) returns (out: string)
    ensures out == BaselineText(app, fps)
  {
    hide Render, FieldsDoc, JsonString, Raw;
    ghost var lines := LinesDoc(fps, 0, LINES_END);
    ghost var list := ListDoc("allowed", lines);
    PutRaw("", "{\n", FieldsDoc(HeaderFields(app), 0, TOP, true, list));
    out := "" + "{\n";
    out := PutGroup(out, HeaderFields(app), TOP, true, list);
    out := PutListName(out, "allowed", lines);
    for i := 0 to |fps|
      invariant out + Render(LinesDoc(fps, i, LINES_END)) == "" + BaselineText(app, fps)
    {
      var sep := if i + 1 < |fps| then ",\n" else "\n";
      ghost var rest := LinesDoc(fps, i + 1, LINES_END);
      PutRaw(out, "    ", Lit(fps[i], Raw(sep, rest)));
      out := out + "    ";
      PutLit(out, fps[i], Raw(sep, rest));
      out := out + JsonString(fps[i]);
      PutRaw(out, sep, rest);
      out := out + sep;
    }
    LinesEndText();
    assert "  " + ("]" + "\n}\n") == "  ]\n}\n";
    out := out + "  ]\n}\n";
  }

  /** Reads a baseline file: an empty path or an unreadable file fails and changes nothing; the
      fingerprints are appended to those the caller already has. */
  method LoadBaseline(path: string, file: Option<string>, app0: string, fps0: seq<string>)
    returns (ok: bool, app: string, fps: seq<string>)
    ensures ok <==> path != "" && file.Some?
    ensures !ok ==> app == app0 && fps == fps0
    ensures ok ==> app == FindString(file.value, "app").GetOr(app0)
    ensures ok ==> fps == fps0 + FindStringArray(file.value, "allowed")
    ensures ok ==> Loaded(file, app0, fps0) == Some(Saved(app, fps))
  {
    hide FindString, FindStringArray;
    app, fps := app0, fps0;
    if path == "" || file.None? {
      return false, app, fps;
    }
    var found := JsonFindString(file.value, "app");
    if found.Some? {
      app := found.value;
    }
    var items := JsonFindStringArray(file.value, "allowed");
    for i := 0 to |items|
      invariant fps == fps0 + items[..i]
    {
      fps := fps + [items[i]];
    }
    assert items[..|items|] == items;
    return true, app, fps;
  }

  lemma Names()
    ensures IsKey("app") && IsKey("allowed") && IsKey("schema_version")
  {
    assert 'a' <= "app"[0] <= 'z' && 'a' <= "allowed"[0] <= 'z';
  }

  lemma HeaderOk(app: string)
    ensures AreFields(HeaderFields(app))
    ensures NotNamed(HeaderFields(app), 0, "allowed")
    ensures HeaderFields(app)[0].name != "app"
  {
    hide NameLiteral;
    Names();
    assert |"allowed"| == 7 && |"app"| == 3 && |"schema_version"| == 14;
  }

  lemma AppHolds(app: string, fps: seq<string>)
    ensures WellFormed(BaselineDoc(app, fps), "app")
    ensures LookupString(BaselineDoc(app, fps), "app") == Some(Norm(app))
  {
    hide WellFormed, Raw, ListDoc, Lookup, Closes, NameLiteral, AreFields, FieldsDoc, IsKey;
    Names();
    HeaderOk(app);
    LinesEndOk("app");
    LinesWellFormed(fps, 0, LINES_END, "app");
    var list := ListDoc("allowed", LinesDoc(fps, 0, LINES_END));
    assert "allowed" != "app" && NameLiteral("allowed") by { AllowedIsName(); }
    ListHolds("allowed", LinesDoc(fps, 0, LINES_END), "app");
    var fs := HeaderFields(app);
    FieldsWellFormed(fs, 0, TOP, true, list, "app");
    FieldReadsBack(fs, 0, 1, TOP, true, list);
    BareWellFormed("{\n", FieldsDoc(fs, 0, TOP, true, list), "app");
    var after := AfterField(fs, 1, TOP, true, list);
    ValueIsLit(fs[1].value, TOP, after);
    StringAtValue(": ", app, after);
  }

  lemma AllowedIsName()
    ensures NameLiteral("allowed")
    ensures |"allowed"| == 7 && |"app"| == 3
  {
  }

  lemma AllowedHolds(app: string, fps: seq<string>)
    ensures WellFormed(BaselineDoc(app, fps), "allowed")
    ensures Lookup(BaselineDoc(app, fps), "allowed") == Some(Raw(" ", Raw("[\n", LinesDoc(fps, 0, LINES_END))))
  {
    hide WellFormed, Raw, ListDoc, Lookup, Closes, NameLiteral, AreFields, FieldsDoc, IsKey, NotNamed;
    Names();
    HeaderOk(app);
    AllowedIsName();
    LinesEndOk("allowed");
    LinesWellFormed(fps, 0, LINES_END, "allowed");
    ListHolds("allowed", LinesDoc(fps, 0, LINES_END), "allowed");
    var list := ListDoc("allowed", LinesDoc(fps, 0, LINES_END));
    GroupAddsNothing(HeaderFields(app), TOP, list, "allowed");
    BareWellFormed("{\n", FieldsDoc(HeaderFields(app), 0, TOP, true, list), "allowed");
  }

  /** The text of a baseline gives back the app and the fingerprints in order, both as
      they read back, for every app, also one that contains a list of its own. */
  lemma TextReadsBack(app: string, fps: seq<string>)
    ensures FindString(BaselineText(app, fps), "app") == Some(Norm(app))
    ensures FindStringArray(BaselineText(app, fps), "allowed") == NormAll(fps)
  {
    hide FindString, FindStringArray, WellFormed, BaselineDoc, LookupString, Render, ArrayItems, Norm;
    AppHolds(app, fps);
    FindStringInDoc(BaselineDoc(app, fps), "app");
    AllowedHolds(app, fps);
    var lines := Render(LinesDoc(fps, 0, LINES_END));
    ListValueText(LinesDoc(fps, 0, LINES_END));
    NewlineFirst(lines);
    LinesNotEmpty(fps, 0);
    LinesItems(fps, 0);
    assert fps[0..] == fps;
    FindStringArrayInDoc(BaselineDoc(app, fps), "allowed", "\n" + lines);
  }

  lemma ListValueText(d: Doc)
    ensures SkipWs(Render(Raw(" ", Raw("[\n", d)))) == "[" + ("\n" + Render(d))
  {
    RenderRaw(" ", Raw("[\n", d));
    RenderRaw("[\n", d);
    var t := "[" + ("\n" + Render(d));
    assert "[\n" + Render(d) == t;
    assert (" " + t)[1..] == t;
    assert SkipWs(t) == t;
  }

  lemma NewlineFirst(x: string)
    ensures ArrayItems("\n" + x) == if x == "" then None else ArrayItems(x)
  {
    CommaLine(x);
  }

  /** The list as it stands in a baseline file. */
  function ListText(fps: seq<string>, i: nat): string
    requires i <= |fps|
    decreases |fps| - i
  {
    if i == |fps| then ""
    else "    " + (JsonString(fps[i]) + ((if i + 1 < |fps| then ",\n" else "\n") + ListText(fps, i + 1)))
  }

  lemma {:induction false} ListRenders(fps: seq<string>, i: nat)
    requires i <= |fps|
    ensures Render(LinesDoc(fps, i, LINES_END)) == ListText(fps, i) + "  ]\n}\n"
    decreases |fps| - i
  {
    hide Render, Raw, JsonString;
    if i == |fps| {
      LinesEndText();
      assert "  " + ("]" + "\n}\n") == "" + "  ]\n}\n";
    } else {
      ListRenders(fps, i + 1);
      var rest := LinesDoc(fps, i + 1, LINES_END);
      var sep := if i + 1 < |fps| then ",\n" else "\n";
      RenderRaw(sep, rest);
      RenderLit(fps[i], Raw(sep, rest));
      RenderRaw("    ", Lit(fps[i], Raw(sep, rest)));
    }
  }

  lemma NamesWritten()
    ensures JsonString("schema_version") == Quote("schema_version") && JsonString("app") == Quote("app")
    ensures JsonString("allowed") == Quote("allowed")
  {
    hide Quote, JsonString, Plain, LeadColon;
    Names();
    PlainWritten("schema_version");
    PlainWritten("app");
    PlainWritten("allowed");
  }

  lemma HeadText(app: string)
    ensures FieldsText(HeaderFields(app), 0, TOP, true) ==
            "  " + (Quote("schema_version") + (": " + "1")) + (",\n" +
            ("  " + (Quote("app") + (": " + JsonString(app))) + (",\n" + "")))
  {
    hide JsonString, Quote;
    NamesWritten();
    var fs := HeaderFields(app);
    assert FieldsText(fs, 2, TOP, true) == "";
    assert FieldsText(fs, 1, TOP, true) == FieldText(fs[1], TOP) + (",\n" + "");
  }

  /** The whole text of a baseline file. */
  lemma BaselineTextIs(app: string, fps: seq<string>)
    ensures BaselineText(app, fps) ==
            "{\n" + (("  " + (Quote("schema_version") + (": " + "1")) + (",\n" +
                      ("  " + (Quote("app") + (": " + JsonString(app))) + (",\n" + "")))) +
                     ("  " + (Quote("allowed") + (": " + ("[\n" + (ListText(fps, 0) + "  ]\n}\n"))))))
  {
    hide Render, Raw, JsonString, FieldsText, FieldsDoc, LinesDoc, ListText, Quote;
    var lines := LinesDoc(fps, 0, LINES_END);
    ListRenders(fps, 0);
    HeadText(app);
    NamesWritten();
    RenderFields(HeaderFields(app), 0, TOP, true, ListDoc("allowed", lines));
    RenderRaw("{\n", FieldsDoc(HeaderFields(app), 0, TOP, true, ListDoc("allowed", lines)));
    RenderRaw("[\n", lines);
    RenderRaw(": ", Raw("[\n", lines));
    RenderLit("allowed", Raw(": ", Raw("[\n", lines)));
    RenderRaw("  ", Lit("allowed", Raw(": ", Raw("[\n", lines))));
  }

  // ----- through a file

  datatype Saved = Saved(app: string, fps: seq<string>)

  /** What a caller holds after loading a file that could be read; none for one that could not. */
  function Loaded(file: Option<string>, app0: string, fps0: seq<string>): Option<Saved> {
    if file.None? then None
    else Some(Saved(FindString(file.value, "app").GetOr(app0), fps0 + FindStringArray(file.value, "allowed")))
  }

  /** Loading a saved file succeeds exactly within the read limit. */
  lemma BaselineReadsBack(app: string, fps: seq<string>, app0: string, fps0: seq<string>)
    ensures Loaded(ReadTextFile(BaselineText(app, fps)), app0, fps0) ==
            if |BaselineText(app, fps)| <= READ_LIMIT then Some(Saved(Norm(app), fps0 + NormAll(fps))) else None
  {
    hide FindString, FindStringArray, BaselineText, Norm;
    TextReadsBack(app, fps);
  }

  /** Saves a baseline to a file and loads the file over what the caller has. */
  method SaveThenLoad(path: string, app: string, fps: seq<string>, app0: string, fps0: seq<string>)
    returns (ok: bool, app': string, fps': seq<string>)
    requires path != ""
    ensures ok <==> |BaselineText(app, fps)| <= READ_LIMIT
    ensures ok ==> app' == Norm(app) && fps' == fps0 + NormAll(fps)
    ensures !ok ==> app' == app0 && fps' == fps0
  {
    hide FindString, FindStringArray, BaselineText, Norm;
    var text := SaveBaseline(app, fps);
    TextReadsBack(app, fps);
    ok, app', fps' := LoadBaseline(path, ReadTextFile(text), app0, fps0);
  }

  // ----- how long the text is

  lemma {:induction false} EscapeGrows(s: string)
    ensures |Escape(s)| >= |s|
  {
    if s != "" {
      EscapeGrows(s[1..]);
    }
  }

  /** What is read back is not written longer. */
  lemma {:induction false} NormShrinks(s: string)
    ensures |Escape(Norm(s))| <= |Escape(s)|
  {
    if s != "" {
      NormShrinks(s[1..]);
      assert Norm(s)[0] == NormChar(s[0]) && Norm(s)[1..] == Norm(s[1..]);
    }
  }

  lemma LineLength(s: string, sep: string, d: Doc)
    ensures |Render(Raw("    ", Lit(s, Raw(sep, d))))| == 6 + |Escape(s)| + |sep| + |Render(d)|
  {
    hide Render, Raw, Lit, Escape;
    RenderRaw(sep, d);
    RenderLit(s, Raw(sep, d));
    RenderRaw("    ", Lit(s, Raw(sep, d)));
  }

  lemma {:induction false} LinesLength(fps: seq<string>, i: nat)
    requires i <= |fps|
    ensures |Render(LinesDoc(NormAll(fps), i, LINES_END))| <= |Render(LinesDoc(fps, i, LINES_END))|
    ensures |Render(LinesDoc(fps, i, LINES_END))| >= |fps| - i
    decreases |fps| - i
  {
    hide Render, Raw, Lit, Escape, Norm;
    if i < |fps| {
      LinesLength(fps, i + 1);
      var sep := if i + 1 < |fps| then ",\n" else "\n";
      LineLength(fps[i], sep, LinesDoc(fps, i + 1, LINES_END));
      LineLength(Norm(fps[i]), sep, LinesDoc(NormAll(fps), i + 1, LINES_END));
      NormShrinks(fps[i]);
    }
  }

  lemma ListLength(d: Doc)
    ensures |Render(ListDoc("allowed", d))| == |JsonString("allowed")| + 6 + |Render(d)|
  {
    hide Render, Raw, JsonString;
    RenderRaw("[\n", d);
    RenderRaw(": ", Raw("[\n", d));
    RenderLit("allowed", Raw(": ", Raw("[\n", d)));
    RenderRaw("  ", Lit("allowed", Raw(": ", Raw("[\n", d))));
  }

  /** The header without its app. */
  function HeaderRest(): nat { |FieldText(Field("schema_version", Bare("1")), TOP)| + |JsonString("app")| + 10 }

  lemma HeaderLength(app: string)
    ensures |FieldsText(HeaderFields(app), 0, TOP, true)| == HeaderRest() + |Escape(app)|
  {
    hide Escape;
    var fs := HeaderFields(app);
    assert FieldsText(fs, 2, TOP, true) == "";
    assert |FieldText(fs[1], TOP)| == 2 + |JsonString("app")| + 2 + |JsonString(app)|;
    assert |FieldsText(fs, 1, TOP, true)| == |FieldText(fs[1], TOP)| + 2;
  }

  lemma TextLength(app: string, fps: seq<string>)
    ensures |BaselineText(app, fps)| ==
            HeaderRest() + |JsonString("allowed")| + 8 + |Escape(app)| + |Render(LinesDoc(fps, 0, LINES_END))|
  {
    hide Render, Raw, JsonString, Escape, FieldsText, FieldsDoc, HeaderRest, ListDoc;
    var lines := LinesDoc(fps, 0, LINES_END);
    ListLength(lines);
    HeaderLength(app);
    RenderFields(HeaderFields(app), 0, TOP, true, ListDoc("allowed", lines));
    RenderRaw("{\n", FieldsDoc(HeaderFields(app), 0, TOP, true, ListDoc("allowed", lines)));
  }

  /** The limit is reached: a longer app or more fingerprints than it allows bytes cannot be loaded. */
  lemma LargeBaselineIsLost(app: string, fps: seq<string>, app0: string, fps0: seq<string>)
    requires |app| > READ_LIMIT || |fps| > READ_LIMIT
    ensures Loaded(ReadTextFile(BaselineText(app, fps)), app0, fps0) == None
  {
    hide FindString, FindStringArray, BaselineText, Render, LinesDoc;
    TextLength(app, fps);
    EscapeGrows(app);
    LinesLength(fps, 0);
  }

  /** Whatever a saved file loads as, saving that fits the read limit and loads as the same again. */
  lemma SaveLoadSaveIsFixed(app: string, fps: seq<string>, app0: string)
    ensures var first := Loaded(ReadTextFile(BaselineText(app, fps)), app0, []);
            && (first.Some? <==> |BaselineText(app, fps)| <= READ_LIMIT)
            && (first.Some? ==>
                  Loaded(ReadTextFile(BaselineText(first.value.app, first.value.fps)), app0, []) == first)
  {
    hide FindString, FindStringArray, BaselineText, Norm, Loaded, Render, LinesDoc, Escape;
    var again, all := Norm(app), NormAll(fps);
    BaselineReadsBack(app, fps, app0, []);
    BaselineReadsBack(again, all, app0, []);
    NormExact(app);
    forall i | 0 <= i < |fps|
      ensures NormAll(all)[i] == all[i]
    {
      NormExact(fps[i]);
    }
    assert NormAll(all) == all && [] + all == all;
    TextLength(app, fps);
    TextLength(again, all);
    NormShrinks(app);
    LinesLength(fps, 0);
  }

  /** The round trip loses nothing exactly within the read limit and when no string has a control
      byte without a short escape. */
  lemma ExactRoundTrip(app: string, fps: seq<string>, app0: string, fps0: seq<string>)
    ensures Loaded(ReadTextFile(BaselineText(app, fps)), app0, fps0) == Some(Saved(app, fps0 + fps)) <==>
            |BaselineText(app, fps)| <= READ_LIMIT && Printable(app) && forall i | 0 <= i < |fps| :: Printable(fps[i])
  {
    hide FindString, FindStringArray, BaselineText, Norm, Printable, Loaded;
    BaselineReadsBack(app, fps, app0, fps0);
    NormExact(app);
    forall i | 0 <= i < |fps|
      ensures Norm(fps[i]) == fps[i] <==> Printable(fps[i])
    {
      NormExact(fps[i]);
    }
    if fps0 + NormAll(fps) == fps0 + fps {
      assert NormAll(fps) == (fps0 + NormAll(fps))[|fps0|..] == fps;
    }
    if forall i | 0 <= i < |fps| :: Printable(fps[i]) {
      assert NormAll(fps) == fps;
    }
  }
}
