/** The JSON writer and scanner of json.cpp.
    The specification functions consume the remaining input; the methods move a position, as the
    source does, and are proved to leave exactly the remaining input the functions leave. */
module Json {
  import opened Text

  // ----- files

  const READ_LIMIT := 64 * 1024 * 1024

  /** `ReadTextFile` on a file that can be opened: larger ones are refused. */
  function ReadTextFile(contents: string): Option<string> {
    if |contents| > READ_LIMIT then None else Some(contents)
  }

  // ----- writer

  predicate IsShortEscaped(c: char) {
    c == '"' || c == '\\' || c == '\U{08}' || c == '\U{0c}' || c == '\n' || c == '\r' || c == '\t'
  }

  /** The letter after the backslash for a character that has a two-character escape. */
  function ShortEscape(c: char): char
    requires IsShortEscaped(c)
  {
    match c
    case '"' => '"'
    case '\\' => '\\'
    case '\n' => 'n'
    case '\r' => 'r'
    case '\t' => 't'
    case _ => if c == '\U{08}' then 'b' else 'f'
  }

  function EscapeChar(c: char): string {
    if IsShortEscaped(c) then ['\\', ShortEscape(c)]
    else if c < ' ' then "\\u00" + [HexDigit(c as int / 16), HexDigit(c as int % 16)]
    else [c]
  }

  function Escape(s: string): string {
    if s == "" then "" else EscapeChar(s[0]) + Escape(s[1..])
  }

  function JsonString(s: string): string { "\"" + Escape(s) + "\"" }

  lemma EscapeStep(text: string, i: nat)
    requires i < |text|
    ensures Escape(text[i..]) == EscapeChar(text[i]) + Escape(text[i + 1..])
  {
    assert text[i..][1..] == text[i + 1..];
  }

  method JsonEscape(text: string) returns (out: string)
    ensures out == Escape(text)
  {
    hide Escape;
    out := "";
    assert text[0..] == text;
    for i := 0 to |text|
      invariant Escape(text) == out + Escape(text[i..])
    {
      var ch := text[i];
      EscapeStep(text, i);
      var piece;
      if IsShortEscaped(ch) {
        piece := ['\\', ShortEscape(ch)];
      } else if ch < ' ' {
        piece := "\\u00" + [HexDigit(ch as int / 16), HexDigit(ch as int % 16)];
      } else {
        piece := [ch];
      }
      assert out + (piece + Escape(text[i + 1..])) == (out + piece) + Escape(text[i + 1..]);
      out := out + piece;
    }
    EscapeNothing();
    assert text[|text|..] == "" && out + "" == out;
  }

  lemma EscapeNothing()
    ensures Escape("") == ""
  {
  }

  // ----- what a reader gets back

  /** A control byte with no short escape is written as `\u00XX` and read back as one `?`. */
  function NormChar(c: char): char {
    if c < ' ' && !IsShortEscaped(c) then '?' else c
  }

  function Norm(s: string): (r: string)
    ensures |r| == |s|
  {
    if s == "" then "" else [NormChar(s[0])] + Norm(s[1..])
  }

  predicate Printable(s: string) { forall i | 0 <= i < |s| :: NormChar(s[i]) == s[i] }

  lemma {:induction false} NormExact(s: string)
    ensures Norm(s) == s <==> Printable(s)
    ensures Printable(Norm(s))
    ensures Norm(Norm(s)) == Norm(s)
  {
    if s != "" {
      NormExact(s[1..]);
      assert s == [s[0]] + s[1..];
      assert Norm(s)[1..] == Norm(s[1..]);
    }
  }

  // ----- reader

  predicate IsSpace(c: char) { c == ' ' || '\t' <= c <= '\r' }

  function SkipWs(s: string): (r: string)
    ensures |r| <= |s|
    ensures r != "" ==> !IsSpace(r[0])
  {
    if s != "" && IsSpace(s[0]) then SkipWs(s[1..]) else s
  }

  datatype Parsed = Bad | Good(value: string, rest: string)
  {
    function Prepend(s: string): Parsed {
      match this
      case Bad => Bad
      case Good(v, r) => Good(s + v, r)
    }
  }

  predicate IsEscapeLetter(c: char) { c in "\"\\/bfnrt" }

  function Unescaped(c: char): char
  {
    match c
    case 'b' => '\U{08}'
    case 'f' => '\U{0c}'
    case 'n' => '\n'
    case 'r' => '\r'
    case 't' => '\t'
    case _ => c
  }

  /** Reads from just after an opening quote up to and including the closing quote. */
  function ParseBody(s: string): (r: Parsed)
    ensures r.Good? ==> |r.rest| < |s| && r.rest == s[|s| - |r.rest|..]
  {
    if s == "" then Bad
    else if s[0] == '"' then Good("", s[1..])
    else if s[0] != '\\' then ParseBody(s[1..]).Prepend([s[0]])
    else if |s| < 2 then Bad
    else if s[1] == 'u' then
      if |s| < 6 then Bad else ParseBody(s[6..]).Prepend("?")
    else if IsEscapeLetter(s[1]) then ParseBody(s[2..]).Prepend([Unescaped(s[1])])
    else Bad
  }

  function ParseString(s: string): (r: Parsed)
    ensures r.Good? ==> |r.rest| < |s|
  {
    var t := SkipWs(s);
    if t == "" || t[0] != '"' then Bad else ParseBody(t[1..])
  }

  method SkipSpaces(text: string, start: nat) returns (pos: nat)
    requires start <= |text|
    ensures start <= pos <= |text|
    ensures text[pos..] == SkipWs(text[start..])
  {
    pos := start;
    while pos < |text| && IsSpace(text[pos])
      invariant start <= pos <= |text|
      invariant SkipWs(text[pos..]) == SkipWs(text[start..])
    {
      assert text[pos..][1..] == text[pos + 1..];
      pos := pos + 1;
    }
  }

  method ParseJsonString(text: string, start: nat) returns (ok: bool, pos: nat, out: string)
    requires start <= |text|
    ensures start <= pos <= |text|
    ensures ok <==> ParseString(text[start..]).Good?
    ensures ok ==> start < pos && ParseString(text[start..]) == Good(out, text[pos..])
  {
    out := "";
    pos := SkipSpaces(text, start);
    if pos >= |text| || text[pos] != '"' {
      return false, pos, out;
    }
    ghost var body := text[pos..][1..];
    pos := pos + 1;
    assert body == text[pos..];
    while pos < |text|
      invariant start < pos <= |text|
      invariant ParseBody(body) == ParseBody(text[pos..]).Prepend(out)
    {
      ghost var s := text[pos..];
      ghost var was := out;
      var ch := text[pos];
      pos := pos + 1;
      assert s[1..] == text[pos..];
      if ch == '"' {
        assert out + "" == out;
        return true, pos, out;
      }
      if ch != '\\' {
        out := out + [ch];
        PrependTwice(ParseBody(text[pos..]), was, [ch]);
        continue;
      }
      if pos >= |text| {
        return false, pos, out;
      }
      var esc := text[pos];
      assert s[1] == esc;
      pos := pos + 1;
      assert s[2..] == text[pos..];
      if esc == 'u' {
        if pos + 4 > |text| {
          return false, pos, out;
        }
        out := out + "?";
        pos := pos + 4;
        assert s[6..] == text[pos..];
        PrependTwice(ParseBody(text[pos..]), was, "?");
      } else if IsEscapeLetter(esc) {
        out := out + [Unescaped(esc)];
        PrependTwice(ParseBody(text[pos..]), was, [Unescaped(esc)]);
      } else {
        return false, pos, out;
      }
    }
    return false, pos, out;
  }

  lemma PrependTwice(p: Parsed, a: string, b: string)
    ensures p.Prepend(b).Prepend(a) == p.Prepend(a + b)
  {
    if p.Good? {
      assert a + (b + p.value) == (a + b) + p.value;
    }
  }

  /** What follows a colon, when a colon comes next. */
  function AfterColon(s: string): (r: Option<string>)
    ensures r.Some? ==> |r.value| < |s|
  {
    var t := SkipWs(s);
    if t == "" || t[0] != ':' then None else Some(t[1..])
  }

  /** The input left at the value of the first match of `key`; the scanner restarts one character
      after a quote whose string is not followed by a colon. */
  function FindKeyValue(s: string, key: string): (r: Option<string>)
    ensures r.Some? ==> |r.value| < |s|
    decreases |s|
  {
    if s == "" then None
    else if s[0] != '"' then FindKeyValue(s[1..], key)
    else
      match ParseBody(s[1..])
      case Bad => None
      case Good(name, rest) =>
        var after := AfterColon(rest);
        if after.None? then FindKeyValue(s[1..], key)
        else if name == key then Some(SkipWs(after.value))
        else FindKeyValue(after.value, key)
  }

  /** One scanner step at a quote, in terms of what `ParseString` reads from that quote. */
  lemma FindAtQuote(s: string, key: string)
    requires s != "" && s[0] == '"'
    ensures ParseString(s).Bad? ==> FindKeyValue(s, key) == None
    ensures ParseString(s).Good? && AfterColon(ParseString(s).rest).None? ==>
              FindKeyValue(s, key) == FindKeyValue(s[1..], key)
    ensures ParseString(s).Good? && AfterColon(ParseString(s).rest).Some? ==>
              FindKeyValue(s, key) ==
              if ParseString(s).value == key then Some(SkipWs(AfterColon(ParseString(s).rest).value))
              else FindKeyValue(AfterColon(ParseString(s).rest).value, key)
  {
    assert SkipWs(s) == s;
  }

  /** The same step on positions: a string from `keyPos` to `next`, then spaces up to `pos`. */
  lemma FindStepAt(text: string, keyPos: nat, next: nat, pos: nat, name: string, key: string)
    requires keyPos < next <= pos <= |text| && text[keyPos] == '"'
    requires ParseString(text[keyPos..]) == Good(name, text[next..])
    requires text[pos..] == SkipWs(text[next..])
    ensures FindKeyValue(text[keyPos..], key) ==
            if pos >= |text| || text[pos] != ':' then FindKeyValue(text[keyPos + 1..], key)
            else if name == key then Some(SkipWs(text[pos + 1..]))
            else FindKeyValue(text[pos + 1..], key)
  {
    FindAtQuote(text[keyPos..], key);
    assert text[keyPos..][1..] == text[keyPos + 1..];
    if pos < |text| {
      assert text[pos..][1..] == text[pos + 1..];
    }
  }

  lemma FindSkipAt(text: string, pos: nat, key: string)
    requires pos < |text| && text[pos] != '"'
    ensures FindKeyValue(text[pos..], key) == FindKeyValue(text[pos + 1..], key)
  {
    assert text[pos..][1..] == text[pos + 1..];
  }

  method FindKeyValueAt(text: string, key: string) returns (found: bool, valuePos: nat)
    ensures found <==> FindKeyValue(text, key).Some?
    ensures found ==> valuePos <= |text| && FindKeyValue(text, key) == Some(text[valuePos..])
  {
    hide FindKeyValue, ParseBody, SkipWs;
    var pos := 0;
    valuePos := 0;
    assert text[0..] == text;
    ghost var goal := FindKeyValue(text, key);
    while pos < |text|
      invariant pos <= |text|
      invariant goal == FindKeyValue(text[pos..], key)
      decreases |text| - pos
    {
      if text[pos] != '"' {
        FindSkipAt(text, pos, key);
        pos := pos + 1;
        continue;
      }
      var keyPos := pos;
      FindAtQuote(text[pos..], key);
      var ok, next, name := ParseJsonString(text, pos);
      if !ok {
        return false, 0;
      }
      pos := SkipSpaces(text, next);
      FindStepAt(text, keyPos, next, pos, name, key);
      if pos >= |text| || text[pos] != ':' {
        pos := keyPos + 1;
        continue;
      }
      pos := pos + 1;
      if name == key {
        pos := SkipSpaces(text, pos);
        return true, pos;
      }
    }
    return false, 0;
  }

  function FindString(s: string, key: string): Option<string> {
    match FindKeyValue(s, key)
    case None => None
    case Some(v) => match ParseString(v) case Bad => None case Good(value, _) => Some(value)
  }

  method JsonFindString(text: string, key: string) returns (r: Option<string>)
    ensures r == FindString(text, key)
  {
    var found, pos := FindKeyValueAt(text, key);
    if !found {
      return None;
    }
    var ok, next, out := ParseJsonString(text, pos);
    if !ok {
      return None;
    }
    return Some(out);
  }

  function FollowAll(first: seq<string>, rest: Option<seq<string>>): Option<seq<string>> {
    match rest case None => None case Some(items) => Some(first + items)
  }

  lemma FollowAllOne(first: seq<string>, item: string, rest: Option<seq<string>>)
    ensures FollowAll(first, FollowAll([item], rest)) == FollowAll(first + [item], rest)
  {
    if rest.Some? {
      assert first + ([item] + rest.value) == (first + [item]) + rest.value;
    }
  }

  /** The items after an opening bracket; None where the source clears its result. */
  function ArrayItems(s: string): Option<seq<string>>
    decreases |s|
  {
    if s == "" then Some([])
    else
      var t := SkipWs(s);
      if t != "" && t[0] == ']' then Some([])
      else
        match ParseString(t)
        case Bad => None
        case Good(item, rest) =>
          var u := SkipWs(rest);
          if u != "" && u[0] == ',' then FollowAll([item], ArrayItems(u[1..]))
          else if u != "" && u[0] == ']' then Some([item])
          else None
  }

  function FindStringArray(s: string, key: string): seq<string> {
    match FindKeyValue(s, key)
    case None => []
    case Some(v) =>
      if v == "" || v[0] != '[' then []
      else match ArrayItems(v[1..]) case None => [] case Some(items) => items
  }

  /** One round of the array loop: what follows one item read from `start` to `next`. */
  lemma ArrayStepAt(text: string, pos: nat, start: nat, next: nat, sep: nat, item: string)
    requires pos < |text| && pos <= start < next <= sep <= |text|
    requires text[start..] == SkipWs(text[pos..]) && text[start] != ']'
    requires ParseString(text[start..]) == Good(item, text[next..])
    requires text[sep..] == SkipWs(text[next..])
    ensures ArrayItems(text[pos..]) ==
            if sep < |text| && text[sep] == ',' then FollowAll([item], ArrayItems(text[sep + 1..]))
            else if sep < |text| && text[sep] == ']' then Some([item])
            else None
  {
    if sep < |text| {
      assert text[sep..][1..] == text[sep + 1..];
    }
  }

  lemma ArrayEndAt(text: string, pos: nat, start: nat)
    requires pos < |text| && pos <= start <= |text|
    requires text[start..] == SkipWs(text[pos..])
    ensures start < |text| && text[start] == ']' ==> ArrayItems(text[pos..]) == Some([])
    ensures !(start < |text| && text[start] == ']') && ParseString(text[start..]).Bad? ==>
            ArrayItems(text[pos..]) == None
  {
  }

  lemma ArrayAtEnd()
    ensures ArrayItems("") == Some([])
  {
  }

  method JsonFindStringArray(text: string, key: string) returns (out: seq<string>)
    ensures out == FindStringArray(text, key)
  {
    hide FindKeyValue, ParseBody, SkipWs, ArrayItems;
    out := [];
    var found, pos := FindKeyValueAt(text, key);
    if !found || pos >= |text| || text[pos] != '[' {
      return;
    }
    assert text[pos..][1..] == text[pos + 1..];
    pos := pos + 1;
    ghost var all := ArrayItems(text[pos..]);
    assert FollowAll([], all) == all by { if all.Some? { assert [] + all.value == all.value; } }
    while pos < |text|
      invariant pos <= |text|
      invariant all == FollowAll(out, ArrayItems(text[pos..]))
      decreases |text| - pos
    {
      var start := SkipSpaces(text, pos);
      if start < |text| && text[start] == ']' {
        ArrayEndAt(text, pos, start);
        return;
      }
      var ok, next, item := ParseJsonString(text, start);
      if !ok {
        ArrayEndAt(text, pos, start);
        return [];
      }
      var sep := SkipSpaces(text, next);
      ArrayStepAt(text, pos, start, next, sep, item);
      if sep < |text| && text[sep] == ',' {
        FollowAllOne(out, item, ArrayItems(text[sep + 1..]));
        out := out + [item];
        pos := sep + 1;
        continue;
      }
      if sep < |text| && text[sep] == ']' {
        out := out + [item];
        return;
      }
      return [];
    }
    ArrayAtEnd();
    assert text[pos..] == "" && out + [] == out;
  }
}
