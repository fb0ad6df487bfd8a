/** The .env editor of env_manager.py:12-62. A file is its text, or None if it does
    not exist. */
module EnvFile {
  import opened Wrappers
  import opened EnvText
  import opened EnvLines

  /** What a line assigns: blank lines, comments and lines without '=' assign nothing. */
  function Parse(line: string): Option<Assignment> {
    var s := Strip(line);
    if s == "" || s[0] == '#' || FirstEquals(s) == |s| then None
    else Some(Assignment(Strip(s[..FirstEquals(s)]), Strip(s[FirstEquals(s) + 1..])))
  }

  /** The keys that a line can assign. */
  predicate IsKey(key: string) {
    Bare(key) && '=' !in key && (key == "" || key[0] != '#') && Flat(key)
  }

  function LinesOf(file: Option<string>): seq<string> {
    if file.Some? then Lines(Translate(file.value)) else []
  }

  function Read(file: Option<string>): Env {
    ReadLines(Parse, LinesOf(file), |LinesOf(file)|)
  }

  function Setting(key: string, value: string): string {
    key + "=" + value + "\n"
  }

  function Set(file: Option<string>, key: string, value: string): Option<string> {
    Some(Joined(SetLines(Parse, LinesOf(file), key, Setting(key, value))))
  }

  /** The lines of the file that do not assign the key, in order. */
  function OtherLines(file: Option<string>, key: string): seq<string> {
    Others(Parse, LinesOf(file), key, |LinesOf(file)|)
  }

  function Delete(file: Option<string>, key: string): Option<string> {
    if file.Some? then Some(Joined(OtherLines(file, key))) else None
  }

  // ----- the editor -----

  class EnvEditor {
    var file: Option<string>

    method ReadEnv() returns (env: Env)
      ensures env == Read(file)
    {
      env := map[];
      if file == None {
        return;
      }
      var lines := LinesOf(file);
      for i := 0 to |lines|
        invariant env == ReadLines(Parse, lines, i)
      {
        var a := Parse(lines[i]);
        if a.Some? {
          env := env[a.value.key := a.value.value];
        }
      }
    }

    method SetEnv(key: string, value: string)
      modifies this
      ensures file == Set(old(file), key, value)
    {
      var written: seq<string> := [];
      var found := false;
      if file.Some? {
        var lines := LinesOf(file);
        for i := 0 to |lines|
          invariant written == EditedLines(Parse, lines, key, Setting(key, value), i)
          invariant found == Assigned(Parse, lines, key, i)
        {
          var line := lines[i];
          if Assigns(Parse, line, key) {
            written := written + [Setting(key, value)];
            found := true;
          } else {
            written := written + [Whole(line)];
          }
        }
      }
      if !found {
        written := written + [Setting(key, value)];
      }
      assert written == SetLines(Parse, LinesOf(file), key, Setting(key, value));
      file := Some(Joined(written));
    }

    method DeleteEnv(key: string)
      modifies this
      ensures file == Delete(old(file), key)
    {
      if file == None {
        return;
      }
      var written: seq<string> := [];
      var lines := LinesOf(file);
      for i := 0 to |lines|
        invariant written == Others(Parse, lines, key, i)
      {
        if !Assigns(Parse, lines[i], key) {
          written := written + [Whole(lines[i])];
        }
      }
      file := Some(Joined(written));
    }
  }

  // ----- single lines -----

  lemma StrippedIsFlat(line: string)
    requires IsLine(line)
    ensures Flat(Strip(line))
  {
    var s := Strip(line);
    StripIsBare(line);
    LStripIsSuffix(line);
    RStripIsPrefix(LStrip(line));
    var from := |line| - |LStrip(line)|;
    assert forall i :: 0 <= i < |s| ==> s[i] == line[from + i];
    forall i | 0 <= i < |s| ensures s[i] != '\n' {
      if from + i < |line| - 1 { assert line[..|line| - 1][from + i] == s[i]; }
    }
  }

  lemma ParsedIsKey(line: string)
    requires IsLine(line) && Parse(line).Some?
    ensures IsKey(Parse(line).value.key)
  {
    var s := Strip(line);
    var n := FirstEquals(s);
    StripIsBare(line);
    StripIsBare(s[..n]);
    StrippedIsFlat(line);
    if n > 0 {
      assert LStrip(s[..n]) == s[..n];
      RStripIsPrefix(s[..n]);
    }
  }

  lemma SettingStrips(key: string, value: string)
    requires IsKey(key)
    ensures Strip(Setting(key, value)) == key + "=" + RStrip(value)
  {
    var a, line := key + "=", Setting(key, value);
    assert line == a + (value + "\n");
    RStripAfter(a, value + "\n");
    assert (value + "\n")[..|value|] == value;
    assert LStrip(line) == line;
  }

  lemma SettingParses(key: string, value: string)
    requires IsKey(key)
    ensures Parse(Setting(key, value)) == Some(Assignment(key, Strip(value)))
  {
    SettingStrips(key, value);
    var s := key + "=" + RStrip(value);
    FirstEqualsAfter(key, RStrip(value));
    assert s[..|key|] == key && s[|key| + 1..] == RStrip(value);
    StripAfterRStrip(value);
  }

  lemma SettingIsWhole(key: string, value: string)
    requires Flat(key) && Flat(value)
    ensures IsWhole(Setting(key, value))
  {
    assert Setting(key, value)[..|Setting(key, value)| - 1] == key + "=" + value;
  }

  lemma ParseIsTolerant()
    ensures Tolerant(Parse)
  {
    forall line ensures Parse(Whole(line)) == Parse(line) {
      LStripBefore(line, '\n');
      if LStrip(line) != "" { assert (LStrip(line) + "\n")[..|LStrip(line)|] == LStrip(line); }
    }
  }

  // ----- reading what was written -----

  lemma LinesOfRead(file: Option<string>)
    ensures forall i :: 0 <= i < |LinesOf(file)| ==> IsLine(LinesOf(file)[i])
  {
    if file.Some? { LinesAreLines(Translate(file.value)); }
  }

  lemma LinesOfWritten(lines: seq<string>)
    requires forall i :: 0 <= i < |lines| ==> IsWhole(lines[i])
    ensures LinesOf(Some(Joined(lines))) == lines
  {
    LinesOfJoined(lines);
    TranslatedIsSame(Joined(lines));
  }

  lemma LinesOfSet(file: Option<string>, key: string, value: string)
    requires Flat(key) && Flat(value)
    ensures LinesOf(Set(file, key, value)) == SetLines(Parse, LinesOf(file), key, Setting(key, value))
  {
    var lines, after := LinesOf(file), SetLines(Parse, LinesOf(file), key, Setting(key, value));
    LinesOfRead(file);
    SettingIsWhole(key, value);
    forall i | 0 <= i < |after| ensures IsWhole(after[i]) {
      if i < |lines| { WholeIsWhole(lines[i]); }
    }
    LinesOfWritten(after);
  }

  lemma {:induction false} OthersAreWhole(lines: seq<string>, key: string, n: nat)
    requires n <= |lines| && forall i :: 0 <= i < |lines| ==> IsLine(lines[i])
    ensures forall i :: 0 <= i < |Others(Parse, lines, key, n)| ==> IsWhole(Others(Parse, lines, key, n)[i])
  {
    if n > 0 {
      OthersAreWhole(lines, key, n - 1);
      WholeIsWhole(lines[n - 1]);
    }
  }

  lemma LinesOfDelete(file: Option<string>, key: string)
    requires file.Some?
    ensures LinesOf(Delete(file, key)) == OtherLines(file, key)
  {
    LinesOfRead(file);
    OthersAreWhole(LinesOf(file), key, |LinesOf(file)|);
    LinesOfWritten(OtherLines(file, key));
  }

  lemma {:induction false} OnlyKeysAreRead(lines: seq<string>, n: nat)
    requires n <= |lines| && forall i :: 0 <= i < |lines| ==> IsLine(lines[i])
    ensures forall k :: k in ReadLines(Parse, lines, n) ==> IsKey(k)
  {
    if n > 0 {
      OnlyKeysAreRead(lines, n - 1);
      if Parse(lines[n - 1]).Some? { ParsedIsKey(lines[n - 1]); }
    }
  }

  // ----- the laws -----

  lemma ReadAfterSetOfKey(file: Option<string>, key: string, value: string)
    requires IsKey(key) && Flat(value)
    ensures Read(Set(file, key, value)) == Read(file)[key := Strip(value)]
  {
    LinesOfSet(file, key, value);
    ParseIsTolerant();
    SettingParses(key, value);
    ReadAfterSet(Parse, LinesOf(file), key, Setting(key, value), Strip(value));
  }

  /** Setting a variable and reading gives the old variables and the new one, exactly
      for the keys that can be read at all. */
  lemma SetThenRead(file: Option<string>, key: string, value: string)
    requires Flat(value)
    ensures Read(Set(file, key, value)) == Read(file)[key := Strip(value)] <==> IsKey(key)
  {
    if IsKey(key) {
      ReadAfterSetOfKey(file, key, value);
    } else {
      var after := LinesOf(Set(file, key, value));
      LinesOfRead(Set(file, key, value));
      OnlyKeysAreRead(after, |after|);
      assert key in Read(file)[key := Strip(value)];
    }
  }

  lemma TwoLines(p: string, q: string)
    requires IsWhole(p) && IsWhole(q)
    ensures LinesOf(Some(p + q)) == [p, q]
  {
    assert Joined([q]) == q;
    assert Joined([p, q]) == p + q;
    LinesOfWritten([p, q]);
  }

  lemma SetInNoFile(key: string, value: string)
    ensures Set(None, key, value) == Some(Setting(key, value))
  {
    assert SetLines(Parse, [], key, Setting(key, value)) == [Setting(key, value)];
    assert Joined([Setting(key, value)]) == Setting(key, value);
  }

  lemma TwoAssignments(a: string, x: string, b: string, y: string)
    requires IsKey(a) && IsKey(b)
    ensures ReadLines(Parse, [Setting(a, x), Setting(b, y)], 2) == map[a := Strip(x)][b := Strip(y)]
  {
    var p, q := Setting(a, x), Setting(b, y);
    SettingParses(a, x);
    SettingParses(b, y);
    assert [p] + [q] == [p, q] && [] + [p] == [p];
    ReadAppended(Parse, [p], q);
    ReadAppended(Parse, [], p);
  }

  /** A newline in a value makes another line, and with it another variable. */
  lemma NewlineSetsAnother(a: string, x: string, b: string, y: string)
    requires IsKey(a) && IsKey(b) && Flat(x) && Flat(y)
    ensures Read(Set(None, a, x + "\n" + b + "=" + y)) == map[a := Strip(x)][b := Strip(y)]
  {
    assert Setting(a, x + "\n" + b + "=" + y) == Setting(a, x) + Setting(b, y);
    SetInNoFile(a, x + "\n" + b + "=" + y);
    SettingIsWhole(a, x);
    SettingIsWhole(b, y);
    TwoLines(Setting(a, x), Setting(b, y));
    TwoAssignments(a, x, b, y);
  }

  /** Deleting takes away that variable and no other, for every key and every file. */
  lemma DeleteThenRead(file: Option<string>, key: string)
    ensures Read(Delete(file, key)) == Read(file) - {key}
  {
    if file.Some? {
      LinesOfDelete(file, key);
      ParseIsTolerant();
      ReadOfOthers(Parse, LinesOf(file), key, |LinesOf(file)|);
    }
  }

  lemma {:induction false} JoinedLength(lines: seq<string>, line: string)
    ensures |Joined(lines + [line])| == |Joined(lines)| + |line|
  {
    if lines == [] {
      assert lines + [line] == [line] && [line][1..] == [];
    } else {
      assert (lines + [line])[1..] == lines[1..] + [line];
      JoinedLength(lines[1..], line);
    }
  }

  lemma NotAssigned(lines: seq<string>, key: string, setting: string)
    requires !IsKey(key) && forall i :: 0 <= i < |lines| ==> IsLine(lines[i])
    ensures SetLines(Parse, lines, key, setting) == EditedLines(Parse, lines, key, setting, |lines|) + [setting]
    ensures forall i :: 0 <= i < |lines| ==> SetLines(Parse, lines, key, setting)[i] == Whole(lines[i])
  {
    forall i | 0 <= i < |lines| ensures !Assigns(Parse, lines[i], key) {
      if Parse(lines[i]).Some? { ParsedIsKey(lines[i]); }
    }
  }

  lemma OtherKeysPileUp(file: Option<string>, key: string, a: string, b: string)
    requires Flat(key) && Flat(a) && !IsKey(key)
    ensures Set(Set(file, key, a), key, b) != Set(file, key, b)
  {
    var lines, once := LinesOf(file), SetLines(Parse, LinesOf(file), key, Setting(key, a));
    LinesOfRead(file);
    LinesOfSet(file, key, a);
    LinesOfRead(Set(file, key, a));
    NotAssigned(lines, key, Setting(key, a));
    NotAssigned(lines, key, Setting(key, b));
    NotAssigned(once, key, Setting(key, b));
    var kept := EditedLines(Parse, lines, key, Setting(key, b), |lines|);
    assert SetLines(Parse, once, key, Setting(key, b)) == kept + [Setting(key, a)] + [Setting(key, b)];
    JoinedLength(kept, Setting(key, b));
    JoinedLength(kept, Setting(key, a));
    JoinedLength(kept + [Setting(key, a)], Setting(key, b));
  }

  /** A later set replaces an earlier one without a trace in the file, exactly for
      proper keys; other keys pile up. */
  lemma SetAfterSet(file: Option<string>, key: string, a: string, b: string)
    requires Flat(key) && Flat(a)
    ensures Set(Set(file, key, a), key, b) == Set(file, key, b) <==> IsKey(key)
  {
    if IsKey(key) {
      LinesOfSet(file, key, a);
      ParseIsTolerant();
      SettingParses(key, a);
      SetLinesAgain(Parse, LinesOf(file), key, Setting(key, a), Strip(a), Setting(key, b));
    } else {
      OtherKeysPileUp(file, key, a, b);
    }
  }

  /** Every line that does not assign the key keeps its text and its place. */
  lemma SetKeepsOthers(file: Option<string>, key: string, value: string)
    requires IsKey(key) && Flat(value)
    ensures OtherLines(Set(file, key, value), key) == OtherLines(file, key)
  {
    LinesOfSet(file, key, value);
    ParseIsTolerant();
    SettingParses(key, value);
    OthersAfterSet(Parse, LinesOf(file), key, Setting(key, value));
  }

  /** A set leaves no trace after a delete, except that it creates a missing file. */
  lemma DeleteAfterSet(file: Option<string>, key: string, value: string)
    requires IsKey(key) && Flat(value)
    ensures Delete(Set(file, key, value), key) == if file.Some? then Delete(file, key) else Some("")
  {
    SetKeepsOthers(file, key, value);
  }
}
