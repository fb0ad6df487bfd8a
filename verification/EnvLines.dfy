/** What env_manager.py:12-62 does with the lines of a file, whatever a line assigns. */
module EnvLines {
  import opened Wrappers
  import EnvText

  type Env = map<string, string>

  datatype Assignment = Assignment(key: string, value: string)

  type Parser = string -> Option<Assignment>

  predicate Assigns(parse: Parser, line: string, key: string) {
    parse(line).Some? && parse(line).value.key == key
  }

  predicate Assigned(parse: Parser, lines: seq<string>, key: string, n: nat)
    requires n <= |lines|
  {
    exists i :: 0 <= i < n && Assigns(parse, lines[i], key)
  }

  function Bound(env: Env, a: Option<Assignment>): Env {
    if a.Some? then env[a.value.key := a.value.value] else env
  }

  function ReadLines(parse: Parser, lines: seq<string>, n: nat): Env
    requires n <= |lines|
  {
    if n == 0 then map[]
    else Bound(ReadLines(parse, lines, n - 1), parse(lines[n - 1]))
  }

  function Edited(parse: Parser, line: string, key: string, setting: string): string {
    if Assigns(parse, line, key) then setting else EnvText.Whole(line)
  }

  function EditedLines(parse: Parser, lines: seq<string>, key: string, setting: string, n: nat): (edited: seq<string>)
    requires n <= |lines|
    ensures |edited| == n
    ensures forall i :: 0 <= i < n ==> edited[i] == Edited(parse, lines[i], key, setting)
  {
    if n == 0 then []
    else EditedLines(parse, lines, key, setting, n - 1) + [Edited(parse, lines[n - 1], key, setting)]
  }

  function SetLines(parse: Parser, lines: seq<string>, key: string, setting: string): seq<string> {
    EditedLines(parse, lines, key, setting, |lines|) + if Assigned(parse, lines, key, |lines|) then [] else [setting]
  }

  /** The lines that do not assign the key, in order. */
  function Others(parse: Parser, lines: seq<string>, key: string, n: nat): seq<string>
    requires n <= |lines|
  {
    if n == 0 then []
    else Others(parse, lines, key, n - 1)
         + if Assigns(parse, lines[n - 1], key) then [] else [EnvText.Whole(lines[n - 1])]
  }

  /** A missing final newline makes no difference. */
  ghost predicate Tolerant(parse: Parser) {
    forall line :: parse(EnvText.Whole(line)) == parse(line)
  }

  lemma {:induction false} ReadPrefix(parse: Parser, a: seq<string>, b: seq<string>, n: nat)
    requires n <= |a|
    ensures ReadLines(parse, a + b, n) == ReadLines(parse, a, n)
  {
    if n > 0 { ReadPrefix(parse, a, b, n - 1); }
  }

  lemma ReadAppended(parse: Parser, lines: seq<string>, line: string)
    ensures ReadLines(parse, lines + [line], |lines + [line]|)
         == Bound(ReadLines(parse, lines, |lines|), parse(line))
  {
    ReadPrefix(parse, lines, [line], |lines|);
  }

  lemma AssignedStep(parse: Parser, lines: seq<string>, key: string, n: nat)
    requires 0 < n <= |lines|
    ensures Assigned(parse, lines, key, n) <==> Assigned(parse, lines, key, n - 1) || Assigns(parse, lines[n - 1], key)
  {
  }

  lemma BoundLater(env: Env, a: Option<Assignment>, key: string, value: string)
    ensures a.Some? && a.value.key == key ==> Bound(env, a)[key := value] == env[key := value]
    ensures a.Some? && a.value.key == key ==> Bound(env, a) - {key} == env - {key}
    ensures !(a.Some? && a.value.key == key) ==> Bound(env, a)[key := value] == Bound(env[key := value], a)
    ensures !(a.Some? && a.value.key == key) ==> Bound(env, a) - {key} == Bound(env - {key}, a)
  {
  }

  /** The variables after a line, with the key set if an earlier line assigned it. */
  function Overridden(env: Env, found: bool, key: string, value: string): Env {
    if found then env[key := value] else env
  }

  lemma OverriddenStep(env: Env, found: bool, a: Option<Assignment>, key: string, value: string)
    ensures var hits := a.Some? && a.value.key == key;
      Bound(Overridden(env, found, key, value), if hits then Some(Assignment(key, value)) else a)
      == Overridden(Bound(env, a), found || hits, key, value)
  {
    BoundLater(env, a, key, value);
  }

  lemma {:induction false} ReadAfterEdit(parse: Parser, lines: seq<string>, key: string, setting: string, value: string, n: nat)
    requires n <= |lines| && Tolerant(parse) && parse(setting) == Some(Assignment(key, value))
    ensures ReadLines(parse, EditedLines(parse, lines, key, setting, n), n)
         == Overridden(ReadLines(parse, lines, n), Assigned(parse, lines, key, n), key, value)
  {
    if n > 0 {
      var line := lines[n - 1];
      ReadAfterEdit(parse, lines, key, setting, value, n - 1);
      ReadAppended(parse, EditedLines(parse, lines, key, setting, n - 1), Edited(parse, line, key, setting));
      OverriddenStep(ReadLines(parse, lines, n - 1), Assigned(parse, lines, key, n - 1), parse(line), key, value);
      AssignedStep(parse, lines, key, n);
      assert parse(EnvText.Whole(line)) == parse(line);
    }
  }

  lemma ReadAfterSet(parse: Parser, lines: seq<string>, key: string, setting: string, value: string)
    requires Tolerant(parse) && parse(setting) == Some(Assignment(key, value))
    ensures var after := SetLines(parse, lines, key, setting);
      ReadLines(parse, after, |after|) == ReadLines(parse, lines, |lines|)[key := value]
  {
    var edited := EditedLines(parse, lines, key, setting, |lines|);
    ReadAfterEdit(parse, lines, key, setting, value, |lines|);
    if Assigned(parse, lines, key, |lines|) {
      assert edited + [] == edited;
    } else {
      ReadAppended(parse, edited, setting);
    }
  }

  lemma {:induction false} ReadOfOthers(parse: Parser, lines: seq<string>, key: string, n: nat)
    requires n <= |lines| && Tolerant(parse)
    ensures var others := Others(parse, lines, key, n);
      ReadLines(parse, others, |others|) == ReadLines(parse, lines, n) - {key}
  {
    if n > 0 {
      var others, line := Others(parse, lines, key, n - 1), lines[n - 1];
      ReadOfOthers(parse, lines, key, n - 1);
      BoundLater(ReadLines(parse, lines, n - 1), parse(line), key, "");
      if Assigns(parse, line, key) {
        assert others + [] == others;
      } else {
        ReadAppended(parse, others, EnvText.Whole(line));
      }
    }
  }

  lemma SetLinesAgain(parse: Parser, lines: seq<string>, key: string, first: string, value: string, second: string)
    requires Tolerant(parse) && parse(first) == Some(Assignment(key, value))
    ensures SetLines(parse, SetLines(parse, lines, key, first), key, second) == SetLines(parse, lines, key, second)
  {
    var once := SetLines(parse, lines, key, first);
    forall i | 0 <= i < |lines|
      ensures Assigns(parse, once[i], key) == Assigns(parse, lines[i], key)
      ensures Edited(parse, once[i], key, second) == Edited(parse, lines[i], key, second)
    {
      assert parse(EnvText.Whole(lines[i])) == parse(lines[i]);
    }
    if Assigned(parse, lines, key, |lines|) {
      var i :| 0 <= i < |lines| && Assigns(parse, lines[i], key);
      assert Assigns(parse, once[i], key);
    } else {
      assert Assigns(parse, once[|lines|], key);
    }
  }

  lemma {:induction false} OthersPrefix(parse: Parser, a: seq<string>, b: seq<string>, key: string, n: nat)
    requires n <= |a|
    ensures Others(parse, a + b, key, n) == Others(parse, a, key, n)
  {
    if n > 0 { OthersPrefix(parse, a, b, key, n - 1); }
  }

  lemma {:induction false} OthersAfterEdit(parse: Parser, lines: seq<string>, key: string, setting: string, n: nat)
    requires n <= |lines| && Tolerant(parse) && Assigns(parse, setting, key)
    ensures Others(parse, EditedLines(parse, lines, key, setting, n), key, n) == Others(parse, lines, key, n)
  {
    if n > 0 {
      var edited := EditedLines(parse, lines, key, setting, n - 1);
      OthersAfterEdit(parse, lines, key, setting, n - 1);
      OthersPrefix(parse, edited, [Edited(parse, lines[n - 1], key, setting)], key, n - 1);
    }
  }

  lemma OthersAfterSet(parse: Parser, lines: seq<string>, key: string, setting: string)
    requires Tolerant(parse) && Assigns(parse, setting, key)
    ensures var after := SetLines(parse, lines, key, setting);
      Others(parse, after, key, |after|) == Others(parse, lines, key, |lines|)
  {
    var edited := EditedLines(parse, lines, key, setting, |lines|);
    OthersAfterEdit(parse, lines, key, setting, |lines|);
    if Assigned(parse, lines, key, |lines|) {
      assert edited + [] == edited;
    } else {
      OthersPrefix(parse, edited, [setting], key, |lines|);
    }
  }
}
