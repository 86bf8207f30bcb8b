/** What the writer's escaping promises: it is valid JSON (RFC 8259, section 7), it loses nothing,
    and the scanner reads it back up to `Norm` from inside any larger text. */
module JsonEscaping {
  import opened Text
  import opened Json

  // ----- tables

  /** The seven characters with an escape of two characters. */
  lemma ShortEscapes()
    ensures EscapeChar('"') == "\\\"" && EscapeChar('\\') == "\\\\" && EscapeChar('\U{08}') == "\\b"
    ensures EscapeChar('\U{0c}') == "\\f" && EscapeChar('\n') == "\\n" && EscapeChar('\r') == "\\r"
    ensures EscapeChar('\t') == "\\t"
  {
  }

  /** The other control bytes are written with two hexadecimal digits, everything else as it is. */
  lemma OtherEscapes(c: char)
    requires c !in ['"', '\\', '\U{08}', '\U{0c}', '\n', '\r', '\t']
    ensures c >= ' ' ==> EscapeChar(c) == [c]
    ensures c < ' ' ==>
              EscapeChar(c) == "\\u00" + ["0123456789abcdef"[c as int / 16], "0123456789abcdef"[c as int % 16]]
  {
  }

  /** Lost are the control bytes other than 8, 9, 10, 12 and 13. */
  lemma NormTable(c: char)
    ensures NormChar(c) == if (c as int) < 32 && c as int !in {8, 9, 10, 12, 13} then '?' else c
  {
  }

  lemma SpaceTable(c: char)
    ensures IsSpace(c) <==> c as int in {9, 10, 11, 12, 13, 32}
  {
  }

  // ----- an independent string decoder, after section 7 of RFC 8259

  function HexValue(c: char): Option<nat> {
    if '0' <= c <= '9' then Some(c as int - '0' as int)
    else if 'a' <= c <= 'f' then Some(c as int - 'a' as int + 10)
    else if 'A' <= c <= 'F' then Some(c as int - 'A' as int + 10)
    else None
  }

  function HexCode(s: string): Option<nat>
  {
    if s == "" then Some(0)
    else
      match (HexCode(s[..|s| - 1]), HexValue(s[|s| - 1]))
      case (Some(high), Some(low)) => Some(16 * high + low)
      case _ => None
  }

  function Cons(c: char, r: Option<string>): Option<string> {
    match r case None => None case Some(s) => Some([c] + s)
  }

  /** Decodes the rest of a JSON string up to a closing quote that ends the text. Escapes of code
      points above 7F would need UTF-8 and are rejected. */
  function DecodeBody(s: string): Option<string> {
    if s == "" || s[0] < ' ' then None
    else if s[0] == '"' then (if |s| == 1 then Some("") else None)
    else if s[0] != '\\' then Cons(s[0], DecodeBody(s[1..]))
    else if |s| >= 6 && s[1] == 'u' then
      match HexCode(s[2..6])
      case Some(code) => if code < 0x80 then Cons(code as char, DecodeBody(s[6..])) else None
      case None => None
    else if |s| >= 2 && IsEscapeLetter(s[1]) then Cons(Unescaped(s[1]), DecodeBody(s[2..]))
    else None
  }

  function Decode(s: string): Option<string> {
    if s != "" && s[0] == '"' then DecodeBody(s[1..]) else None
  }

  lemma DecodeEscapedChar(c: char, t: string)
    ensures DecodeBody(EscapeChar(c) + t) == Cons(c, DecodeBody(t))
  {
    var s := EscapeChar(c) + t;
    if IsShortEscaped(c) {
      assert s[2..] == t;
    } else if c < ' ' {
      var h, l := c as int / 16, c as int % 16;
      assert s[2..6] == ['0', '0', HexDigit(h), HexDigit(l)];
      HexOfByte(h, l);
      assert s[6..] == t;
    } else {
      assert s[1..] == t;
    }
  }

  lemma HexOfByte(h: nat, l: nat)
    requires h < 16 && l < 16
    ensures HexCode(['0', '0', HexDigit(h), HexDigit(l)]) == Some(16 * h + l)
  {
    assert ['0'][..0] == "";
    assert HexCode(['0']) == Some(0);
    assert ['0', '0'][..1] == ['0'];
    assert HexCode(['0', '0']) == Some(0);
    var three := ['0', '0', HexDigit(h)];
    assert three[..2] == ['0', '0'];
    assert HexCode(three) == Some(h);
    var four := ['0', '0', HexDigit(h), HexDigit(l)];
    assert four[..3] == three;
  }

  lemma {:induction false} DecodeEscape(s: string)
    ensures DecodeBody(Escape(s) + "\"") == Some(s)
  {
    if s == "" {
      assert Escape(s) + "\"" == "\"";
    } else {
      DecodeEscape(s[1..]);
      assert Escape(s) + "\"" == EscapeChar(s[0]) + (Escape(s[1..]) + "\"");
      DecodeEscapedChar(s[0], Escape(s[1..]) + "\"");
      assert s == [s[0]] + s[1..];
    }
  }

  /** Every byte string written by `JsonString` decodes to itself. */
  lemma JsonStringDecodes(s: string)
    ensures Decode(JsonString(s)) == Some(s)
  {
    DecodeEscape(s);
    assert JsonString(s)[1..] == Escape(s) + "\"";
  }

  /** The same string, but for characters read as a question mark. */
  predicate SameButMarks(v: string, w: string) {
    |v| == |w| && forall i | 0 <= i < |v| :: w[i] == v[i] || w[i] == '?'
  }

  /** What the decoder accepts the reader accepts too, to the same end; it only gives a question mark
      for each `\u` escape. */
  lemma {:induction false} ReaderFollowsDecoder(s: string)
    requires DecodeBody(s).Some?
    ensures ParseBody(s).Good? && ParseBody(s).rest == "" && SameButMarks(DecodeBody(s).value, ParseBody(s).value)
  {
    if s[0] == '"' {
    } else if s[0] != '\\' {
      ReaderFollowsDecoder(s[1..]);
    } else if |s| >= 6 && s[1] == 'u' {
      ReaderFollowsDecoder(s[6..]);
    } else {
      ReaderFollowsDecoder(s[2..]);
    }
  }

  /** The reader fails on an unknown escape, on an unfinished one, and without a closing quote. */
  lemma ReaderRejects(c: char, t: string)
    ensures c !in "\"\\/bfnrtu" ==> ParseBody(['\\', c] + t) == Bad
    ensures |t| < 4 ==> ParseBody(['\\', 'u'] + t) == Bad
    ensures ParseBody("\\") == Bad && ParseBody("") == Bad
  {
  }

  lemma JsonStringInjective(s: string, t: string)
    requires JsonString(s) == JsonString(t)
    ensures s == t
  {
    JsonStringDecodes(s);
    JsonStringDecodes(t);
  }

  /** No raw control byte (so no newline) and no quote without a backslash before it. */
  lemma {:induction false} EscapeIsClean(s: string)
    ensures forall i | 0 <= i < |Escape(s)| :: Escape(s)[i] >= ' '
    ensures forall i | 0 <= i < |Escape(s)| && Escape(s)[i] == '"' :: i > 0 && Escape(s)[i - 1] == '\\'
  {
    if s != "" {
      EscapeIsClean(s[1..]);
      EscapeCharIsClean(s[0]);
      var a, b := EscapeChar(s[0]), Escape(s[1..]);
      forall i | 0 <= i < |Escape(s)|
        ensures Escape(s)[i] >= ' '
        ensures Escape(s)[i] == '"' ==> i > 0 && Escape(s)[i - 1] == '\\'
      {
        if i >= |a| {
          assert Escape(s)[i] == b[i - |a|];
        }
      }
    }
  }

  lemma EscapeCharIsClean(c: char)
    ensures forall i | 0 <= i < |EscapeChar(c)| :: EscapeChar(c)[i] >= ' '
    ensures forall i | 0 <= i < |EscapeChar(c)| && EscapeChar(c)[i] == '"' :: i > 0 && EscapeChar(c)[i - 1] == '\\'
  {
  }

  /** Text that needs no escape is written as it is. */
  predicate Plain(s: string) { forall i | 0 <= i < |s| :: s[i] >= ' ' && !IsShortEscaped(s[i]) }

  lemma {:induction false} PlainUnchanged(s: string)
    requires Plain(s)
    ensures Escape(s) == s && Norm(s) == s
  {
    if s != "" {
      PlainUnchanged(s[1..]);
      assert s == [s[0]] + s[1..];
    }
  }

  /** Text between two quotes. */
  function Quote(s: string): string { "\"" + s + "\"" }

  lemma PlainWritten(s: string)
    requires Plain(s)
    ensures JsonString(s) == Quote(s)
  {
    PlainUnchanged(s);
  }

  // ----- reading back inside a larger text

  /** The rest of a literal, its closing quote, and what comes after. */
  function Body(s: string, rest: string): string { Escape(s) + ("\"" + rest) }

  lemma BodyStep(s: string, rest: string)
    requires s != ""
    ensures Body(s, rest) == EscapeChar(s[0]) + Body(s[1..], rest)
  {
  }

  lemma ParseShort(c: char, t: string)
    requires IsEscapeLetter(c)
    ensures ParseBody(['\\', c] + t) == ParseBody(t).Prepend([Unescaped(c)])
  {
    assert (['\\', c] + t)[2..] == t;
  }

  lemma ParseUnicode(h: char, l: char, t: string)
    ensures ParseBody("\\u00" + [h, l] + t) == ParseBody(t).Prepend("?")
  {
    assert ("\\u00" + [h, l] + t)[6..] == t;
  }

  lemma ParsePlain(c: char, t: string)
    requires c != '"' && c != '\\'
    ensures ParseBody([c] + t) == ParseBody(t).Prepend([c])
  {
    assert ([c] + t)[1..] == t;
  }

  lemma ParseEscapedChar(c: char, t: string)
    ensures ParseBody(EscapeChar(c) + t) == ParseBody(t).Prepend([NormChar(c)])
  {
    hide ParseBody;
    if IsShortEscaped(c) {
      ParseShort(ShortEscape(c), t);
    } else if c < ' ' {
      ParseUnicode(HexDigit(c as int / 16), HexDigit(c as int % 16), t);
    } else {
      ParsePlain(c, t);
    }
  }

  /** A parse from anywhere aligned inside a literal ends at the literal's own closing quote. */
  lemma {:induction false} ParseEscape(s: string, rest: string)
    ensures ParseBody(Body(s, rest)) == Good(Norm(s), rest)
  {
    if s == "" {
      assert Body(s, rest) == "\"" + rest;
      assert ("\"" + rest)[1..] == rest;
    } else {
      ParseEscape(s[1..], rest);
      BodyStep(s, rest);
      ParseEscapedChar(s[0], Body(s[1..], rest));
    }
  }

  lemma ParseQuoted(s: string, rest: string)
    ensures ParseString(JsonString(s) + rest) == Good(Norm(s), rest)
  {
    var t := JsonString(s) + rest;
    assert t[0] == '"';
    assert SkipWs(t) == t;
    assert t[1..] == Body(s, rest);
    ParseEscape(s, rest);
  }
}
