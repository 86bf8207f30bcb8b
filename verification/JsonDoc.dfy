/** Written files seen as literals separated by gaps, and what the scanner finds in them.
    The scanner restarts inside strings and reads separators as names, so its position can be
    misaligned; the two induction lemmas below follow it through every such position. */
module JsonDoc {
  import opened Text
  import opened Json
  import opened JsonEscaping

  datatype Doc = End(gap: string) | Str(gap: string, s: string, rest: Doc)

  function Quoted(s: string, rest: string): string { "\"" + Body(s, rest) }

  function Render(d: Doc): string {
    match d
    case End(g) => g
    case Str(g, s, r) => g + Quoted(s, Render(r))
  }

  // ----- builders: text or a literal put in front of a document

  function Raw(g: string, d: Doc): Doc {
    match d
    case End(h) => End(g + h)
    case Str(h, s, r) => Str(g + h, s, r)
  }

  function Lit(s: string, d: Doc): Doc { Str("", s, d) }

  lemma RenderRaw(g: string, d: Doc)
    ensures Render(Raw(g, d)) == g + Render(d)
  {
  }

  lemma RenderLit(s: string, d: Doc)
    ensures Render(Lit(s, d)) == JsonString(s) + Render(d)
  {
    assert "" + Quoted(s, Render(d)) == JsonString(s) + Render(d);
  }

  // ----- which documents are well formed for a key

  predicate PlainGap(g: string) { forall i | 0 <= i < |g| :: g[i] != '"' && g[i] != '\\' }

  /** After spaces, the gap goes on with a colon: the literal before it is a name. */
  predicate ColonGap(g: string) { SkipWs(g) != "" && SkipWs(g)[0] == ':' }

  function AfterColonDoc(d: Doc): Doc
    requires ColonGap(d.gap)
  {
    d.(gap := SkipWs(d.gap)[1..])
  }

  /** Read from its opening quote on, the literal looks like a colon. */
  predicate LeadColon(s: string) {
    s != "" && (s[0] == ':' || (s[0] == ' ' && LeadColon(s[1..])))
  }

  function DropLead(s: string): (r: string)
    requires LeadColon(s)
    ensures |r| < |s|
  {
    if s[0] == ':' then s[1..] else DropLead(s[1..])
  }

  predicate NameLiteral(s: string) { Plain(s) && !LeadColon(s) }

  /** What may follow the literal `s`: a gap that does not start like the key, so that it is never
      taken for it, and after a name literal a colon. */
  predicate Follows(s: string, r: Doc, key: string) {
    && (r.gap == "" || key == "" || r.gap[0] != key[0])
    && (ColonGap(r.gap) ==> NameLiteral(s))
  }

  predicate WellFormed(d: Doc, key: string) {
    && key != ""
    && PlainGap(d.gap)
    && (d.Str? ==> WellFormed(d.rest, key) && Follows(d.s, d.rest, key))
  }

  function Literals(d: Doc): nat {
    match d case End(_) => 0 case Str(_, _, r) => 1 + Literals(r)
  }

  // ----- the document-level meaning of a lookup

  /** The document at the value of the first name equal to the key. */
  function Lookup(d: Doc, key: string): Option<Doc> {
    match d
    case End(_) => None
    case Str(_, s, r) => if ColonGap(r.gap) && s == key then Some(AfterColonDoc(r)) else Lookup(r, key)
  }

  function LookupText(d: Doc, key: string): Option<string> {
    match Lookup(d, key) case None => None case Some(v) => Some(SkipWs(Render(v)))
  }

  /** The value at `d` when it is a string. */
  function StringAt(d: Doc): Option<string> {
    if d.Str? && SkipWs(d.gap) == "" then Some(Norm(d.s)) else None
  }

  function LookupString(d: Doc, key: string): Option<string> {
    match Lookup(d, key) case None => None case Some(v) => StringAt(v)
  }

  // ----- gaps

  lemma {:induction false} SkipWsGap(g: string, x: string)
    ensures SkipWs(g + x) == if SkipWs(g) != "" then SkipWs(g) + x else SkipWs(x)
  {
    if g != "" && IsSpace(g[0]) {
      SkipWsGap(g[1..], x);
      assert (g + x)[1..] == g[1..] + x;
    } else if g == "" {
      assert g + x == x;
    }
  }

  lemma {:induction false} SkipWsPlain(g: string)
    requires PlainGap(g)
    ensures PlainGap(SkipWs(g))
  {
    if g != "" && IsSpace(g[0]) {
      SkipWsPlain(g[1..]);
    }
  }

  /** What follows the first gap. */
  function Remainder(d: Doc): (x: string)
    ensures x == "" || x[0] == '"'
    ensures d.gap + x == Render(d)
  {
    if d.Str? then Quoted(d.s, Render(d.rest)) else ""
  }

  lemma AfterColonRender(d: Doc)
    ensures AfterColon(Render(d)) == if ColonGap(d.gap) then Some(Render(AfterColonDoc(d))) else None
  {
    var x := Remainder(d);
    SkipWsGap(d.gap, x);
    assert SkipWs(x) == x;
    if ColonGap(d.gap) {
      var w := SkipWs(d.gap);
      assert (w + x)[1..] == w[1..] + x;
      assert Remainder(AfterColonDoc(d)) == x;
    }
  }

  lemma AfterColonWellFormed(d: Doc, key: string)
    requires WellFormed(d, key) && ColonGap(d.gap)
    ensures WellFormed(AfterColonDoc(d), key)
  {
    SkipWsPlain(d.gap);
  }

  /** From a closing quote the scanner reads the whole next gap as a name. */
  lemma {:induction false} ParseGap(g: string, x: string)
    requires PlainGap(g)
    ensures ParseBody(g + "\"" + x) == Good(g, x)
  {
    if g == "" {
      assert (g + "\"" + x)[1..] == x;
    } else {
      ParseGap(g[1..], x);
      var t := g[1..] + "\"" + x;
      assert g + "\"" + x == [g[0]] + t;
      ParsePlain(g[0], t);
      assert g == [g[0]] + g[1..];
    }
  }

  lemma {:induction false} ParseLastGap(g: string)
    requires PlainGap(g)
    ensures ParseBody(g) == Bad
  {
    if g != "" {
      ParseLastGap(g[1..]);
    }
  }

  lemma {:induction false} AfterColonBody(s: string, rest: string)
    ensures AfterColon(Body(s, rest)) == if LeadColon(s) then Some(Body(DropLead(s), rest)) else None
  {
    if s == "" {
      assert Body(s, rest) == "\"" + rest;
    } else {
      BodyStep(s, rest);
      var t := Body(s[1..], rest);
      if s[0] == ' ' {
        AfterColonBody(s[1..], rest);
        assert ([' '] + t)[1..] == t;
      } else if s[0] == ':' {
        assert ([':'] + t)[1..] == t;
      }
    }
  }

  // ----- the scanner, outside and inside literals

  lemma FindSkip(c: char, t: string, key: string)
    requires c != '"'
    ensures FindKeyValue([c] + t, key) == FindKeyValue(t, key)
  {
    assert ([c] + t)[1..] == t;
  }

  lemma {:induction false} FindSkipGap(g: string, t: string, key: string)
    requires forall i | 0 <= i < |g| :: g[i] != '"'
    ensures FindKeyValue(g + t, key) == FindKeyValue(t, key)
  {
    if g == "" {
      assert g + t == t;
    } else {
      FindSkipGap(g[1..], t, key);
      FindSkip(g[0], g[1..] + t, key);
      assert g + t == [g[0]] + (g[1..] + t);
    }
  }

  /** At the opening quote of `s`, or at any quote inside a literal that ends in `s`. */
  lemma FindQuoted(s: string, r: Doc, key: string)
    ensures FindKeyValue(Quoted(s, Render(r)), key) ==
            if !ColonGap(r.gap) then FindKeyValue(Body(s, Render(r)), key)
            else if Norm(s) == key then Some(SkipWs(Render(AfterColonDoc(r))))
            else FindKeyValue(Render(AfterColonDoc(r)), key)
  {
    hide FindKeyValue, ParseBody, SkipWs;
    var t := Quoted(s, Render(r));
    assert t[1..] == Body(s, Render(r));
    FindAtQuote(t, key);
    QuotedParses(s, Render(r));
    AfterColonRender(r);
  }

  lemma QuotedParses(s: string, rest: string)
    ensures ParseString(Quoted(s, rest)) == Good(Norm(s), rest)
  {
    hide ParseBody, Norm;
    ParseEscape(s, rest);
    QuoteStarts(Body(s, rest));
  }

  lemma QuoteStarts(x: string)
    ensures ParseString("\"" + x) == ParseBody(x)
  {
    assert ("\"" + x)[1..] == x;
  }

  /** A literal that goes on with a quote: a backslash, then what looks like an opening quote. */
  lemma BodyStepQuote(s: string, rest: string)
    requires s != "" && s[0] == '"'
    ensures Body(s, rest) == ['\\'] + Quoted(s[1..], rest)
  {
    BodyStep(s, rest);
    assert EscapeChar('"') == ['\\', '"'];
  }

  lemma EscapeCharHasNoQuote(c: char)
    requires c != '"'
    ensures forall i | 0 <= i < |EscapeChar(c)| :: EscapeChar(c)[i] != '"'
  {
  }

  /** Outside a literal the scanner finds what the document says. */
  lemma {:induction false} FindOutside(d: Doc, key: string)
    requires WellFormed(d, key)
    ensures FindKeyValue(Render(d), key) == LookupText(d, key)
    decreases Literals(d), 1, 0
  {
    hide FindKeyValue, ParseBody, SkipWs;
    if d.End? {
      FindSkipGap(d.gap, "", key);
      assert d.gap + "" == d.gap;
      FindNothing(key);
    } else {
      FindSkipGap(d.gap, Quoted(d.s, Render(d.rest)), key);
      FindQuoted(d.s, d.rest, key);
      if ColonGap(d.rest.gap) {
        PlainUnchanged(d.s);
        if d.s != key {
          AfterColonWellFormed(d.rest, key);
          LookupIgnoresGap(d.rest, AfterColonDoc(d.rest).gap, key);
          FindOutside(AfterColonDoc(d.rest), key);
        }
      } else {
        FindInside(d.s, d.rest, key);
      }
    }
  }

  lemma FindNothing(key: string)
    ensures FindKeyValue("", key) == None
  {
  }

  /** Inside a literal, before its suffix `s`, the scanner never finds the key in this literal. */
  lemma {:induction false} FindInside(s: string, r: Doc, key: string)
    requires WellFormed(r, key) && !ColonGap(r.gap)
    requires r.gap == "" || r.gap[0] != key[0]
    ensures FindKeyValue(Body(s, Render(r)), key) == LookupText(r, key)
    decreases Literals(r) + 1, 0, |s|
  {
    hide FindKeyValue, ParseBody, SkipWs, Escape, Body, Render, EscapeChar, Norm, LeadColon;
    if s == "" {
      FindAtClose(r, key);
    } else {
      FindInside(s[1..], r, key);
      if s[0] == '"' {
        BodyStepQuote(s, Render(r));
        FindQuoted(s[1..], r, key);
        FindSkip('\\', Quoted(s[1..], Render(r)), key);
      } else {
        BodyStep(s, Render(r));
        EscapeCharHasNoQuote(s[0]);
        FindSkipGap(EscapeChar(s[0]), Body(s[1..], Render(r)), key);
      }
    }
  }

  /** Reading the gap as a name lands just after the opening quote of the next literal. */
  lemma GapAsName(r: Doc)
    requires r.Str? && PlainGap(r.gap)
    ensures ParseBody(Render(r)) == Good(r.gap, Body(r.s, Render(r.rest)))
    ensures AfterColon(Body(r.s, Render(r.rest))) ==
            if LeadColon(r.s) then Some(Body(DropLead(r.s), Render(r.rest))) else None
  {
    var inner := Body(r.s, Render(r.rest));
    assert Render(r) == r.gap + "\"" + inner;
    ParseGap(r.gap, inner);
    AfterColonBody(r.s, Render(r.rest));
  }

  /** At a closing quote the gap up to the next literal is read as a name. */
  lemma {:induction false} FindAtClose(r: Doc, key: string)
    requires WellFormed(r, key) && !ColonGap(r.gap)
    requires r.gap == "" || r.gap[0] != key[0]
    ensures FindKeyValue(Body("", Render(r)), key) == LookupText(r, key)
    decreases Literals(r), 2, 0
  {
    hide FindKeyValue, ParseBody, SkipWs;
    var t := Body("", Render(r));
    assert t == "\"" + Render(r);
    assert t[1..] == Render(r);
    FindAtQuote(t, key);
    QuoteStarts(Render(r));
    if r.End? {
      ParseLastGap(r.gap);
    } else {
      GapAsName(r);
      if LeadColon(r.s) {
        FindInside(DropLead(r.s), r.rest, key);
      } else {
        FindOutside(r, key);
      }
    }
  }

  lemma LookupIgnoresGap(d: Doc, g: string, key: string)
    ensures Lookup(d.(gap := g), key) == Lookup(d, key)
    ensures Literals(d.(gap := g)) == Literals(d)
  {
  }

  lemma {:induction false} LookupWellFormed(d: Doc, key: string)
    requires WellFormed(d, key)
    ensures Lookup(d, key).Some? ==> WellFormed(Lookup(d, key).value, key)
  {
    if d.Str? {
      LookupWellFormed(d.rest, key);
      if ColonGap(d.rest.gap) {
        AfterColonWellFormed(d.rest, key);
      }
    }
  }

  /** For every well-formed document, whatever its literals contain, looking a string up in the
      text gives the string the document holds for the first name equal to the key. */
  lemma FindStringInDoc(d: Doc, key: string)
    requires WellFormed(d, key)
    ensures FindString(Render(d), key) == LookupString(d, key)
  {
    hide FindKeyValue;
    FindOutside(d, key);
    LookupWellFormed(d, key);
    if Lookup(d, key).Some? {
      StringAtText(Lookup(d, key).value);
    }
  }

  lemma StringAtText(v: Doc)
    requires PlainGap(v.gap)
    ensures ParseString(SkipWs(Render(v))).Good? <==> StringAt(v).Some?
    ensures StringAt(v).Some? ==> ParseString(SkipWs(Render(v))).value == StringAt(v).value
  {
    var x := if v.Str? then Quoted(v.s, Render(v.rest)) else "";
    assert Render(v) == v.gap + x;
    SkipWsGap(v.gap, x);
    SkipWsPlain(v.gap);
    assert SkipWs(x) == x;
    if v.Str? && SkipWs(v.gap) == "" {
      QuotedParses(v.s, Render(v.rest));
    }
  }
}
