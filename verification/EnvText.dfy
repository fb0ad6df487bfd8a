/** The text operations that env_manager.py relies on: str.strip, str.split at the
    first '=', and reading a text file by lines with universal newlines. */
module EnvText {

  /** The characters that str.strip takes off. */
  predicate IsSpace(c: char) {
    || '\t' <= c <= '\r' || '\U{1c}' <= c <= ' ' || c == '\U{85}' || c == '\U{a0}' || c == '\U{1680}'
    || '\U{2000}' <= c <= '\U{200a}' || c == '\U{2028}' || c == '\U{2029}' || c == '\U{202f}'
    || c == '\U{205f}' || c == '\U{3000}'
  }

  /** They are the controls 9 to 13 and 28 to 31, and the spaces and separators of Unicode. */
  lemma SpacesAre(c: char)
    ensures IsSpace(c) <==>
      || c as int in {9, 10, 11, 12, 13, 28, 29, 30, 31, 32, 133, 160, 5760, 8232, 8233, 8239, 8287, 12288}
      || c as int in {8192, 8193, 8194, 8195, 8196, 8197, 8198, 8199, 8200, 8201, 8202}
  {
  }

  function LStrip(s: string): string {
    if s != "" && IsSpace(s[0]) then LStrip(s[1..]) else s
  }

  function RStrip(s: string): string {
    if s != "" && IsSpace(s[|s| - 1]) then RStrip(s[..|s| - 1]) else s
  }

  function Strip(s: string): string {
    RStrip(LStrip(s))
  }

  /** Nothing to strip. */
  predicate Bare(s: string) {
    s == "" || (!IsSpace(s[0]) && !IsSpace(s[|s| - 1]))
  }

  predicate Flat(s: string) {
    '\n' !in s && '\r' !in s
  }

  // ----- strip -----

  lemma {:induction false} LStripIsSuffix(s: string)
    ensures |LStrip(s)| <= |s| && LStrip(s) == s[|s| - |LStrip(s)|..]
    ensures LStrip(s) != "" ==> !IsSpace(LStrip(s)[0])
  {
    if s != "" && IsSpace(s[0]) { LStripIsSuffix(s[1..]); }
  }

  lemma {:induction false} RStripIsPrefix(s: string)
    ensures |RStrip(s)| <= |s| && RStrip(s) == s[..|RStrip(s)|]
    ensures RStrip(s) != "" ==> !IsSpace(RStrip(s)[|RStrip(s)| - 1])
  {
    if s != "" && IsSpace(s[|s| - 1]) { RStripIsPrefix(s[..|s| - 1]); }
  }

  lemma StripIsBare(s: string)
    ensures Bare(Strip(s)) && |Strip(s)| <= |s|
    ensures forall c :: c in Strip(s) ==> c in s
  {
    LStripIsSuffix(s);
    RStripIsPrefix(LStrip(s));
  }

  lemma {:induction false} RStripAfter(a: string, b: string)
    requires a != "" && !IsSpace(a[|a| - 1])
    ensures RStrip(a + b) == a + RStrip(b)
  {
    if b == "" {
      assert a + b == a;
    } else if IsSpace(b[|b| - 1]) {
      assert (a + b)[..|a + b| - 1] == a + b[..|b| - 1];
      RStripAfter(a, b[..|b| - 1]);
    }
  }

  lemma {:induction false} LStripBefore(a: string, c: char)
    ensures LStrip(a + [c]) == if LStrip(a) == "" && IsSpace(c) then "" else LStrip(a) + [c]
  {
    if a == "" {
      assert a + [c] == [c];
      assert [c][1..] == "";
    } else if IsSpace(a[0]) {
      assert (a + [c])[1..] == a[1..] + [c];
      LStripBefore(a[1..], c);
    }
  }

  lemma {:induction false} StripAfterRStrip(s: string)
    ensures Strip(RStrip(s)) == Strip(s)
  {
    if s != "" && IsSpace(s[|s| - 1]) {
      var a, c := s[..|s| - 1], s[|s| - 1];
      assert s == a + [c];
      StripAfterRStrip(a);
      LStripBefore(a, c);
      if LStrip(a) != "" { assert (LStrip(a) + [c])[..|LStrip(a)|] == LStrip(a); }
    }
  }

  // ----- the first '=' -----

  function FirstEquals(s: string): (n: nat)
    ensures n <= |s| && (n < |s| ==> s[n] == '=')
    ensures '=' !in s[..n]
  {
    if s == "" || s[0] == '=' then 0
    else
      var n := FirstEquals(s[1..]);
      assert s[..n + 1] == [s[0]] + s[1..][..n];
      n + 1
  }

  lemma {:induction false} FirstEqualsAfter(k: string, w: string)
    requires '=' !in k
    ensures FirstEquals(k + "=" + w) == |k|
  {
    if k != "" {
      assert (k + "=" + w)[1..] == k[1..] + "=" + w;
      FirstEqualsAfter(k[1..], w);
    }
  }

  // ----- lines -----

  /** Universal newlines: "\r\n" and "\r" are read as "\n". */
  function Translate(text: string): (t: string)
    ensures '\r' !in t
  {
    if text == "" then ""
    else if text[0] != '\r' then [text[0]] + Translate(text[1..])
    else if |text| > 1 && text[1] == '\n' then "\n" + Translate(text[2..])
    else "\n" + Translate(text[1..])
  }

  lemma {:induction false} TranslatedIsSame(text: string)
    requires '\r' !in text
    ensures Translate(text) == text
  {
    if text != "" {
      TranslatedIsSame(text[1..]);
    }
  }

  /** The length of the first line with its newline. */
  function LineEnd(text: string): (n: nat)
    requires text != ""
    ensures 0 < n <= |text|
    ensures '\n' !in text[..n - 1] && (n < |text| ==> text[n - 1] == '\n')
  {
    if text[0] == '\n' || |text| == 1 then 1
    else
      var n := LineEnd(text[1..]);
      assert text[..n] == [text[0]] + text[1..][..n - 1];
      n + 1
  }

  /** What iterating over an open file yields. */
  function Lines(text: string): seq<string> {
    if text == "" then [] else [text[..LineEnd(text)]] + Lines(text[LineEnd(text)..])
  }

  function Joined(lines: seq<string>): string {
    if lines == [] then "" else lines[0] + Joined(lines[1..])
  }

  /** A line as it is read; only the last one may lack its newline. */
  predicate IsLine(line: string) {
    line != "" && '\n' !in line[..|line| - 1] && '\r' !in line
  }

  predicate IsWhole(line: string) {
    IsLine(line) && line[|line| - 1] == '\n'
  }

  function Whole(line: string): string {
    if line != "" && line[|line| - 1] == '\n' then line else line + "\n"
  }

  lemma WholeIsWhole(line: string)
    requires IsLine(line)
    ensures IsWhole(Whole(line))
  {
    if line[|line| - 1] != '\n' { assert (line + "\n")[..|line|] == line[..|line| - 1] + [line[|line| - 1]]; }
  }

  lemma {:induction false} LinesAreLines(text: string)
    requires '\r' !in text
    ensures forall i :: 0 <= i < |Lines(text)| ==> IsLine(Lines(text)[i])
  {
    if text != "" {
      var n := LineEnd(text);
      assert text[..n][..n - 1] == text[..n - 1];
      LinesAreLines(text[n..]);
    }
  }

  lemma {:induction false} LineEndAfter(line: string, rest: string)
    requires line != "" && line[|line| - 1] == '\n' && '\n' !in line[..|line| - 1]
    ensures LineEnd(line + rest) == |line|
  {
    if |line| > 1 {
      assert line[0] == line[..|line| - 1][0];
      assert line[1..][..|line| - 2] == line[..|line| - 1][1..];
      assert (line + rest)[1..] == line[1..] + rest;
      LineEndAfter(line[1..], rest);
    }
  }

  lemma {:induction false} LinesOfJoined(lines: seq<string>)
    requires forall i :: 0 <= i < |lines| ==> IsWhole(lines[i])
    ensures Lines(Joined(lines)) == lines && '\r' !in Joined(lines)
  {
    if lines != [] {
      LineEndAfter(lines[0], Joined(lines[1..]));
      LinesOfJoined(lines[1..]);
      assert Joined(lines)[|lines[0]|..] == Joined(lines[1..]);
    }
  }
}
