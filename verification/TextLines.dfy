/** Splitting a text into lines, as `std::getline` does. */
module TextLines {

  predicate NoNewline(s: string) { forall i | 0 <= i < |s| :: s[i] != '\n' }

  /** The first line, without its newline, and what follows it. */
  function FirstLine(s: string): (line: string)
    ensures |line| <= |s| && line == s[..|line|] && NoNewline(line)
    ensures |line| < |s| ==> s[|line|] == '\n'
  {
    if s == "" || s[0] == '\n' then "" else [s[0]] + FirstLine(s[1..])
  }

  /** Every line; a last line needs no newline. */
  function Lines(s: string): seq<string> {
    if s == "" then []
    else
      var line := FirstLine(s);
      [line] + if |line| == |s| then [] else Lines(s[|line| + 1..])
  }

  function NonEmptyLines(lines: seq<string>): seq<string> {
    if lines == [] then []
    else (if lines[0] != "" then [lines[0]] else []) + NonEmptyLines(lines[1..])
  }

  /** The lines written one after the other. */
  function Unlines(lines: seq<string>): string {
    if lines == [] then "" else lines[0] + ("\n" + Unlines(lines[1..]))
  }

  lemma {:induction false} FirstLineIs(line: string, rest: string)
    requires NoNewline(line)
    ensures FirstLine(line + ("\n" + rest)) == line
    ensures FirstLine(line) == line
  {
    if line != "" {
      FirstLineIs(line[1..], rest);
      assert (line + ("\n" + rest))[1..] == line[1..] + ("\n" + rest);
      assert line == [line[0]] + line[1..];
    }
  }

  lemma LinesStep(line: string, rest: string)
    requires NoNewline(line)
    ensures Lines(line + ("\n" + rest)) == [line] + Lines(rest)
  {
    FirstLineIs(line, rest);
    var s := line + ("\n" + rest);
    assert s[|line| + 1..] == rest;
  }

  predicate AllNoNewline(lines: seq<string>) { forall i | 0 <= i < |lines| :: NoNewline(lines[i]) }

  lemma {:induction false} LinesOfUnlines(lines: seq<string>, rest: string)
    requires AllNoNewline(lines)
    ensures Lines(Unlines(lines) + rest) == lines + Lines(rest)
  {
    hide Lines;
    if lines == [] {
      assert "" + rest == rest;
      assert [] + Lines(rest) == Lines(rest);
    } else {
      LinesOfUnlines(lines[1..], rest);
      var tail := Unlines(lines[1..]);
      assert Unlines(lines) + rest == lines[0] + ("\n" + (tail + rest));
      LinesStep(lines[0], tail + rest);
      assert lines == [lines[0]] + lines[1..];
      assert [lines[0]] + (lines[1..] + Lines(rest)) == lines + Lines(rest);
    }
  }

  lemma {:induction false} UnlinesAppend(lines: seq<string>, line: string)
    ensures Unlines(lines + [line]) == Unlines(lines) + (line + "\n")
  {
    if lines == [] {
      assert lines + [line] == [line];
      assert Unlines([]) == "" && "\n" + "" == "\n";
      assert "" + (line + "\n") == line + "\n";
    } else {
      UnlinesAppend(lines[1..], line);
      assert (lines + [line])[1..] == lines[1..] + [line];
      assert (lines + [line])[0] == lines[0];
      var u, v := Unlines(lines[1..]), line + "\n";
      assert lines[0] + ("\n" + (u + v)) == (lines[0] + ("\n" + u)) + v;
    }
  }

  lemma {:induction false} NonEmptyKeepsAll(lines: seq<string>)
    requires forall i | 0 <= i < |lines| :: lines[i] != ""
    ensures NonEmptyLines(lines) == lines
  {
    if lines != [] {
      NonEmptyKeepsAll(lines[1..]);
      assert lines == [lines[0]] + lines[1..];
    }
  }

  /** Reads one line from `start`; the end of the text gives nothing. */
  method GetLine(text: string, start: nat) returns (ok: bool, line: string, pos: nat)
    requires start <= |text|
    ensures ok <==> start < |text|
    ensures ok ==> start < pos <= |text| && Lines(text[start..]) == [line] + Lines(text[pos..])
  {
    hide Lines;
    pos := start;
    line := "";
    if start == |text| {
      return false, line, pos;
    }
    while pos < |text| && text[pos] != '\n'
      invariant start <= pos <= |text|
      invariant line == text[start..pos] && NoNewline(line)
    {
      assert text[start..pos + 1] == text[start..pos] + [text[pos]];
      line := line + [text[pos]];
      pos := pos + 1;
    }
    LineEndsAt(text, start, pos);
    if pos < |text| {
      pos := pos + 1;
    }
    return true, line, pos;
  }

  lemma LineEndsAt(text: string, start: nat, end: nat)
    requires start < |text| && start <= end <= |text|
    requires NoNewline(text[start..end]) && (end < |text| ==> text[end] == '\n')
    ensures Lines(text[start..]) == [text[start..end]] + Lines(text[if end < |text| then end + 1 else end..])
  {
    hide Lines;
    var line := text[start..end];
    if end < |text| {
      assert text[start..] == line + ("\n" + text[end + 1..]);
      LinesStep(line, text[end + 1..]);
    } else {
      assert text[start..] == line && text[end..] == "";
      LastLine(line);
    }
  }

  lemma LastLine(line: string)
    requires NoNewline(line) && line != ""
    ensures Lines(line) == [line] + Lines("")
  {
    FirstLineIs(line, "");
  }
}
