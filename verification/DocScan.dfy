/** The snapshot reader looks for every occurrence of a quoted key and runs a lookup from each one.
    Occurrences can also be values, or ends of values after an escaped quote; they add nothing. */
module DocScan {
  import opened Text
  import opened Json
  import opened JsonEscaping
  import opened JsonDoc

  function Pattern(key: string): string { "\"" + key + "\"" }

  function NonEmpty(r: Option<string>): set<string> {
    if r.Some? && r.value != "" then {r.value} else {}
  }

  /** All non-empty lookups started at the non-overlapping occurrences of the pattern. */
  function Collect(s: string, key: string): set<string> {
    if |s| < |Pattern(key)| then {}
    else if Pattern(key) <= s then NonEmpty(FindString(s, key)) + Collect(s[|Pattern(key)|..], key)
    else Collect(s[1..], key)
  }

  /** The non-empty string values a document holds under a name. */
  function Values(d: Doc, key: string): set<string> {
    match d
    case End(_) => {}
    case Str(_, s, r) =>
      (if ColonGap(r.gap) && s == key then NonEmpty(StringAt(AfterColonDoc(r))) else {}) + Values(r, key)
  }

  lemma {:induction false} LookupIsValue(d: Doc, key: string)
    ensures NonEmpty(LookupString(d, key)) <= Values(d, key)
  {
    if d.Str? {
      LookupIsValue(d.rest, key);
    }
  }

  // ----- where the pattern can match

  lemma {:induction false} MatchInBody(s: string, rest: string, key: string)
    requires Plain(key)
    ensures key + "\"" <= Body(s, rest) <==> s == key
  {
    if s == "" {
      assert Body(s, rest) == "\"" + rest;
      if key != "" {
        assert (key + "\"")[0] == key[0];
      }
    } else {
      BodyStep(s, rest);
      var t := Body(s[1..], rest);
      if key == "" {
        assert Body(s, rest)[0] != '"';
      } else if EscapeChar(s[0]) == [key[0]] {
        MatchInBody(s[1..], rest, key[1..]);
        PrefixTail(key[0], key[1..] + "\"", t);
        assert key + "\"" == [key[0]] + (key[1..] + "\"");
        assert s == [s[0]] + s[1..] && key == [key[0]] + key[1..];
      } else {
        assert (key + "\"")[0] == key[0];
        assert Body(s, rest)[0] == EscapeChar(s[0])[0];
      }
    }
  }

  lemma PrefixTail(c: char, p: string, t: string)
    ensures [c] + p <= [c] + t <==> p <= t
  {
    if p <= t {
      assert ([c] + t)[..|p| + 1] == [c] + t[..|p|];
    }
    if [c] + p <= [c] + t {
      assert t[..|p|] == ([c] + t)[1..|p| + 1];
      assert p == ([c] + p)[1..];
    }
  }

  lemma MatchAtQuote(s: string, rest: string, key: string)
    requires Plain(key)
    ensures Pattern(key) <= Quoted(s, rest) <==> s == key
  {
    MatchInBody(s, rest, key);
    PrefixTail('"', key + "\"", Body(s, rest));
    assert Pattern(key) == ['"'] + (key + "\"");
    assert Quoted(s, rest) == ['"'] + Body(s, rest);
  }

  lemma CollectSkip(c: char, t: string, key: string)
    requires !(Pattern(key) <= [c] + t)
    ensures Collect([c] + t, key) == Collect(t, key)
  {
    assert ([c] + t)[1..] == t;
  }

  lemma {:induction false} CollectSkipGap(g: string, t: string, key: string)
    requires forall i | 0 <= i < |g| :: g[i] != '"'
    ensures Collect(g + t, key) == Collect(t, key)
  {
    if g == "" {
      assert g + t == t;
    } else {
      CollectSkipGap(g[1..], t, key);
      assert g + t == [g[0]] + (g[1..] + t);
      assert Pattern(key)[0] == '"';
      CollectSkip(g[0], g[1..] + t, key);
    }
  }

  // ----- every occurrence, outside and inside literals

  /** What an occurrence adds: it is the value of the next name equal to the key. */
  lemma OccurrenceAdds(r: Doc, key: string)
    requires WellFormed(r, key) && Follows(key, r, key) && NameLiteral(key)
    ensures NonEmpty(FindString(Quoted(key, Render(r)), key)) <= Values(Str("", key, r), key)
    ensures ColonGap(r.gap) ==>
              NonEmpty(FindString(Quoted(key, Render(r)), key)) == NonEmpty(StringAt(AfterColonDoc(r)))
  {
    var d := Str("", key, r);
    assert Render(d) == Quoted(key, Render(r)) by {
      assert "" + Quoted(key, Render(r)) == Quoted(key, Render(r));
    }
    FindStringInDoc(d, key);
    LookupIsValue(d, key);
  }

  lemma CollectQuoted(s: string, r: Doc, key: string)
    requires NameLiteral(key)
    ensures s != key ==> Collect(Quoted(s, Render(r)), key) == Collect(Body(s, Render(r)), key)
    ensures s == key ==> Collect(Quoted(s, Render(r)), key) ==
                         NonEmpty(FindString(Quoted(s, Render(r)), key)) + Collect(Render(r), key)
  {
    hide FindString;
    MatchAtQuote(s, Render(r), key);
    if s != key {
      CollectSkip('"', Body(s, Render(r)), key);
    } else {
      PlainUnchanged(s);
      assert Quoted(s, Render(r)) == Pattern(key) + Render(r);
      assert Quoted(s, Render(r))[|Pattern(key)|..] == Render(r);
    }
  }

  lemma CollectNothing(key: string)
    ensures Collect("", key) == {}
  {
  }

  /** Reading a written document collects exactly its non-empty values: nothing is missed, and
      nothing is picked up from another literal, whatever the literals contain. */
  lemma {:induction false} CollectDoc(d: Doc, key: string)
    requires WellFormed(d, key) && NameLiteral(key)
    ensures Collect(Render(d), key) == Values(d, key)
    decreases Literals(d), 1, 0
  {
    hide FindString, Collect;
    if d.End? {
      CollectSkipGap(d.gap, "", key);
      assert d.gap + "" == d.gap;
      CollectNothing(key);
    } else {
      CollectSkipGap(d.gap, Quoted(d.s, Render(d.rest)), key);
      CollectAtQuote(d.s, d.rest, key);
    }
  }

  /** At the opening quote of `s`, or at an inner quote of a literal that ends in `s`. */
  lemma {:induction false} CollectAtQuote(s: string, r: Doc, key: string)
    requires WellFormed(r, key) && Follows(s, r, key) && NameLiteral(key)
    ensures Collect(Quoted(s, Render(r)), key) == Values(Str("", s, r), key)
    decreases Literals(r) + 1, 0, 2 * |s| + 1
  {
    hide FindString, Collect;
    CollectQuoted(s, r, key);
    if s == key {
      OccurrenceAdds(r, key);
      CollectDoc(r, key);
    } else {
      CollectInside(s, r, key);
    }
  }

  lemma {:induction false} CollectInside(s: string, r: Doc, key: string)
    requires WellFormed(r, key) && NameLiteral(key)
    requires r.gap == "" || r.gap[0] != key[0]
    requires ColonGap(r.gap) ==> Plain(s)
    ensures Collect(Body(s, Render(r)), key) == Values(r, key)
    decreases Literals(r) + 1, 0, 2 * |s|
  {
    hide FindString, Collect, Escape, Body, Render, EscapeChar, Norm, LeadColon, Pattern, SkipWs;
    if s == "" {
      CloseMatchesNothing(r, key);
      CollectSkip('"', Render(r), key);
      CollectDoc(r, key);
    } else if s[0] == '"' {
      BodyStepQuote(s, Render(r));
      NoMatchAt('\\', Quoted(s[1..], Render(r)), key);
      CollectSkip('\\', Quoted(s[1..], Render(r)), key);
      CollectAtQuote(s[1..], r, key);
      assert Values(Str("", s[1..], r), key) == Values(r, key);
    } else {
      CollectInside(s[1..], r, key);
      BodyStep(s, Render(r));
      EscapeCharHasNoQuote(s[0]);
      CollectSkipGap(EscapeChar(s[0]), Body(s[1..], Render(r)), key);
    }
  }

  lemma NoMatchAt(c: char, t: string, key: string)
    requires c != '"'
    ensures !(Pattern(key) <= [c] + t)
  {
    assert Pattern(key)[0] == '"';
  }

  lemma CloseMatchesNothing(r: Doc, key: string)
    requires key != "" && Plain(key)
    requires r.gap == "" || r.gap[0] != key[0]
    ensures !(Pattern(key) <= ['"'] + Render(r))
    ensures Body("", Render(r)) == ['"'] + Render(r)
  {
    PrefixTail('"', key + "\"", Render(r));
    assert Pattern(key) == ['"'] + (key + "\"");
    assert (key + "\"")[0] == key[0];
    assert r.gap + Remainder(r) == Render(r);
  }
}
