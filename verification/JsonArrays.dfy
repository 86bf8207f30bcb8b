/** Reading written arrays of strings back with `JsonFindStringArray`. */
module JsonArrays {
  import opened Text
  import opened Json
  import opened JsonEscaping
  import opened JsonDoc
  import opened JsonObject

  function NormAll(ss: seq<string>): (r: seq<string>)
    ensures |r| == |ss|
    ensures forall i | 0 <= i < |ss| :: r[i] == Norm(ss[i])
  {
    seq(|ss|, i requires 0 <= i < |ss| => Norm(ss[i]))
  }

  /** One item: spaces, the literal, then `u`. */
  lemma ArrayItem(w: string, s: string, u: string)
    requires SkipWs(w) == ""
    requires SkipWs(u) != "" && (SkipWs(u)[0] == ',' || SkipWs(u)[0] == ']')
    ensures ArrayItems(w + (JsonString(s) + u)) ==
            if SkipWs(u)[0] == ',' then FollowAll([Norm(s)], ArrayItems(SkipWs(u)[1..])) else Some([Norm(s)])
  {
    hide ParseBody, Norm, Escape;
    var q := JsonString(s) + u;
    assert q[0] == '"';
    SkipWsGap(w, q);
    assert SkipWs(q) == q;
    assert w + q != "";
    ParseQuoted(s, u);
  }

  lemma ArrayClose(w: string, u: string)
    requires SkipWs(w) == ""
    ensures ArrayItems(w + ("]" + u)) == Some([])
  {
    SkipWsGap(w, "]" + u);
    assert SkipWs("]" + u) == "]" + u;
  }

  // ----- arrays on one line

  predicate IsListSep(sep: string) { sep == ", " || sep == "," }

  lemma {:induction false} InlineItems(ss: seq<string>, i: nat, sep: string, u: string)
    requires i <= |ss| && IsListSep(sep)
    ensures i == 0 ==> ArrayItems(StringsText(ss, i, sep) + ("]" + u)) == Some(NormAll(ss[i..]))
    ensures 0 < i < |ss| ==>
              && StringsText(ss, i, sep) != ""
              && StringsText(ss, i, sep)[0] == ','
              && ArrayItems(StringsText(ss, i, sep)[1..] + ("]" + u)) == Some(NormAll(ss[i..]))
    decreases |ss| - i
  {
    hide ArrayItems, JsonString, Norm;
    if i == |ss| {
      ArrayClose("", u);
      assert NormAll(ss[i..]) == [];
    } else {
      InlineItems(ss, i + 1, sep, u);
      var sp := if i != 0 then sep[1..] else "";
      var tail := StringsText(ss, i + 1, sep) + ("]" + u);
      SpaceSkips(sep);
      TailStarts(ss, i + 1, sep, u);
      ArrayItem(sp, ss[i], tail);
      InlineText(ss, i, sep, u);
      assert NormAll(ss[i..]) == [Norm(ss[i])] + NormAll(ss[i + 1..]);
      if i + 1 == |ss| {
        assert NormAll(ss[i..]) == [Norm(ss[i])];
      } else {
        assert ArrayItems(SkipWs(tail)[1..]) == Some(NormAll(ss[i + 1..]));
      }
    }
  }

  lemma SpaceSkips(sep: string)
    requires IsListSep(sep)
    ensures SkipWs(sep[1..]) == "" && SkipWs("") == ""
  {
  }

  lemma TailStarts(ss: seq<string>, i: nat, sep: string, u: string)
    requires 0 < i <= |ss| && IsListSep(sep)
    ensures var t := StringsText(ss, i, sep) + ("]" + u);
            && SkipWs(t) == t && t != ""
            && t[0] == (if i < |ss| then ',' else ']')
            && (i < |ss| ==> t[1..] == StringsText(ss, i, sep)[1..] + ("]" + u))
  {
  }

  lemma InlineText(ss: seq<string>, i: nat, sep: string, u: string)
    requires i < |ss| && IsListSep(sep)
    ensures i == 0 ==>
              StringsText(ss, 0, sep) + ("]" + u) ==
              "" + (JsonString(ss[0]) + (StringsText(ss, 1, sep) + ("]" + u)))
    ensures i != 0 ==>
              && StringsText(ss, i, sep) != "" && StringsText(ss, i, sep)[0] == ','
              && StringsText(ss, i, sep)[1..] + ("]" + u) ==
                 sep[1..] + (JsonString(ss[i]) + (StringsText(ss, i + 1, sep) + ("]" + u)))
  {
    hide JsonString;
    var js, rest := JsonString(ss[i]), StringsText(ss, i + 1, sep);
    if i == 0 {
      assert StringsText(ss, 0, sep) == "" + (js + rest);
    } else {
      assert StringsText(ss, i, sep) == sep + (js + rest);
      assert (sep + (js + rest))[1..] == sep[1..] + (js + rest);
    }
  }

  // ----- lists laid out one item below the other

  function LinesDoc(ss: seq<string>, i: nat, d: Doc): Doc
    requires i <= |ss|
    decreases |ss| - i
  {
    if i == |ss| then d
    else Raw("    ", Lit(ss[i], Raw(if i + 1 < |ss| then ",\n" else "\n", LinesDoc(ss, i + 1, d))))
  }

  const LINES_END := Raw("  ", Raw("]\n}\n", End("")))

  lemma {:induction false} LinesItems(ss: seq<string>, i: nat)
    requires i <= |ss|
    ensures ArrayItems(Render(LinesDoc(ss, i, LINES_END))) == Some(NormAll(ss[i..]))
    decreases |ss| - i
  {
    hide ArrayItems, Norm, Raw, Render, JsonString;
    if i == |ss| {
      LinesEndText();
      SpacesSkip();
      ArrayClose("  ", "\n}\n");
      assert NormAll(ss[i..]) == [];
    } else {
      LinesItems(ss, i + 1);
      var rest := LinesDoc(ss, i + 1, LINES_END);
      var sep := if i + 1 < |ss| then ",\n" else "\n";
      RenderRaw(sep, rest);
      RenderLit(ss[i], Raw(sep, rest));
      RenderRaw("    ", Lit(ss[i], Raw(sep, rest)));
      SpacesSkip();
      assert NormAll(ss[i..]) == [Norm(ss[i])] + NormAll(ss[i + 1..]);
      if i + 1 < |ss| {
        CommaLine(Render(rest));
        LinesNotEmpty(ss, i + 1);
        ArrayItem("    ", ss[i], ",\n" + Render(rest));
      } else {
        LinesEndText();
        EndLine();
        ArrayItem("    ", ss[i], "\n" + Render(rest));
        assert NormAll(ss[i..]) == [Norm(ss[i])];
      }
    }
  }

  lemma LinesNotEmpty(ss: seq<string>, i: nat)
    requires i <= |ss|
    ensures Render(LinesDoc(ss, i, LINES_END)) != ""
  {
    if i == |ss| {
      LinesEndText();
    } else {
      RenderRaw("    ", Lit(ss[i], Raw(if i + 1 < |ss| then ",\n" else "\n", LinesDoc(ss, i + 1, LINES_END))));
    }
  }

  lemma LinesEndText()
    ensures Render(LINES_END) == "  " + ("]" + "\n}\n")
  {
    RenderRaw("  ", Raw("]\n}\n", End("")));
    RenderRaw("]\n}\n", End(""));
    assert "]\n}\n" + "" == "]" + "\n}\n";
  }

  lemma EndLine()
    ensures SkipWs("\n" + ("  " + ("]" + "\n}\n"))) == "]" + "\n}\n"
  {
    SkipWsGap("\n", "  " + ("]" + "\n}\n"));
    SpacesSkip();
    SkipWsGap("  ", "]" + "\n}\n");
    assert SkipWs("]" + "\n}\n") == "]" + "\n}\n";
  }

  /** After the comma the newline is skipped, as any space before an item. */
  lemma CommaLine(x: string)
    ensures SkipWs(",\n" + x) == ",\n" + x
    ensures (",\n" + x)[1..] == "\n" + x
    ensures ArrayItems("\n" + x) == if x == "" then None else ArrayItems(x)
  {
    assert SkipWs(",\n" + x) == ",\n" + x;
    assert ("\n" + x)[1..] == x;
  }

  /** A name whose value starts with an opening bracket gives the items after the bracket. */
  lemma FindStringArrayInDoc(d: Doc, key: string, x: string)
    requires WellFormed(d, key)
    requires Lookup(d, key).Some? && SkipWs(Render(Lookup(d, key).value)) == "[" + x
    ensures FindStringArray(Render(d), key) == match ArrayItems(x) case None => [] case Some(items) => items
  {
    hide ArrayItems, FindKeyValue;
    FindOutside(d, key);
    assert ("[" + x)[1..] == x;
  }

  lemma {:induction false} LinesWellFormed(ss: seq<string>, i: nat, d: Doc, key: string)
    requires i <= |ss| && IsKey(key)
    requires WellFormed(d, key) && Closes(d, key)
    ensures WellFormed(LinesDoc(ss, i, d), key)
    ensures Lookup(LinesDoc(ss, i, d), key) == Lookup(d, key)
    decreases |ss| - i
  {
    hide WellFormed, Raw, Lit, Closes, Lookup;
    if i < |ss| {
      LinesWellFormed(ss, i + 1, d, key);
      var rest := LinesDoc(ss, i + 1, d);
      var sep := if i + 1 < |ss| then ",\n" else "\n";
      BareWellFormed(sep, rest, key);
      if i + 1 < |ss| {
        RawCloses(sep, rest, key);
      } else {
        NewlineSkips();
        RawSpaceCloses(sep, rest, key);
      }
      LitWellFormed(ss[i], Raw(sep, rest), key);
      BareWellFormed("    ", Lit(ss[i], Raw(sep, rest)), key);
    }
  }

  lemma NewlineSkips()
    ensures SkipWs("\n") == ""
  {
  }

  lemma LinesEndOk(key: string)
    requires IsKey(key)
    ensures WellFormed(LINES_END, key) && Closes(LINES_END, key)
  {
    var b := Raw("]\n}\n", End(""));
    RawCloses("]\n}\n", End(""), key);
    RawWellFormed("]\n}\n", End(""), key);
    SpacesSkip();
    RawSpaceCloses("  ", b, key);
    RawWellFormed("  ", b, key);
  }
}
