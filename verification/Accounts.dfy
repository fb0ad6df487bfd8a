/** The account registry of env_manager.py:127-239: numbered accounts whose fields
    are variables named SOCIAL_{platform}_{index}_{field}. Platforms are given in
    upper case. */
module Accounts {
  import opened Wrappers
  import opened EnvText
  import opened EnvLines
  import opened EnvFile

  /** What PLATFORM_FIELDS says about a platform. */
  datatype Config = Config(fields: seq<string>, requiredAll: seq<string>, requiredAny: seq<string>, expiry: Option<Expiry>)

  /** The field that holds the time of creation, and for how many days an account is good. */
  datatype Expiry = Expiry(timestampField: string, ttlDays: int)

  /** With the required fields that are missing, or the days that are left if they are known. */
  datatype Status =
    | Disconnected(missing: seq<string>)
    | Connected(daysLeft: Option<int>)
    | Expiring(days: int)
    | Expired(days: int)

  datatype Account = Account(index: nat, title: string, fields: map<string, string>, status: Status)

  /** The days since a time that is written as text, if it can be read. */
  type Clock = string -> Option<int>

  datatype Field = Field(name: string, value: string)

  predicate IsPlatform(platform: string) {
    forall i :: 0 <= i < |platform| ==> 'A' <= platform[i] <= 'Z'
  }

  /** A name that can end a key. */
  predicate IsName(name: string) {
    '=' !in name && Flat(name) && (name == "" || !IsSpace(name[|name| - 1]))
  }

  // ----- numbers in keys -----

  predicate Digits(s: string) {
    forall i :: 0 <= i < |s| ==> '0' <= s[i] <= '9'
  }

  function Decimal(n: nat): (s: string)
    ensures s != "" && Digits(s)
  {
    if n < 10 then [n as char + '0'] else Decimal(n / 10) + [(n % 10) as char + '0']
  }

  function Number(s: string): nat
    requires Digits(s)
  {
    if s == "" then 0 else 10 * Number(s[..|s| - 1]) + (s[|s| - 1] as nat - '0' as nat)
  }

  lemma {:induction false} NumberOfDecimal(n: nat)
    ensures Number(Decimal(n)) == n
  {
    var s := Decimal(n);
    if n < 10 {
      assert s[..0] == "";
    } else {
      assert s[..|s| - 1] == Decimal(n / 10);
      NumberOfDecimal(n / 10);
    }
  }

  /** Without a leading zero there is one way to write a number. */
  lemma {:induction false} DecimalOfNumber(s: string)
    requires s != "" && Digits(s) && s[0] != '0'
    ensures Decimal(Number(s)) == s && Number(s) > 0
  {
    var rest, digit := s[..|s| - 1], s[|s| - 1] as nat - '0' as nat;
    assert s == rest + [digit as char + '0'];
    if rest != "" {
      DecimalOfNumber(rest);
      assert Number(s) / 10 == Number(rest) && Number(s) % 10 == digit;
    }
  }

  lemma {:induction false} FirstDigit(n: nat)
    requires n > 0
    ensures Decimal(n)[0] != '0'
  {
    if n >= 10 { FirstDigit(n / 10); }
  }

  /** The length of the digits at the start. */
  function DigitRun(s: string): (n: nat)
    ensures n <= |s| && Digits(s[..n])
  {
    if s == "" || !('0' <= s[0] <= '9') then 0
    else
      var n := DigitRun(s[1..]);
      assert s[..n + 1] == [s[0]] + s[1..][..n];
      n + 1
  }

  lemma {:induction false} DigitRunOf(d: string, rest: string)
    requires Digits(d)
    ensures DigitRun(d + "_" + rest) == |d|
  {
    if d != "" {
      assert (d + "_" + rest)[1..] == d[1..] + "_" + rest;
      DigitRunOf(d[1..], rest);
    }
  }

  // ----- keys -----

  function Head(platform: string): string {
    "SOCIAL_" + platform + "_"
  }

  /** _prefix */
  function Prefix(platform: string, index: nat): string {
    Head(platform) + Decimal(index)
  }

  function Key(platform: string, index: nat, name: string): string {
    Prefix(platform, index) + "_" + name
  }

  /** The number before the next underscore. */
  function LeadingIndex(rest: string): Option<nat> {
    var n := DigitRun(rest);
    if 0 < n < |rest| && rest[n] == '_' then Some(Number(rest[..n])) else None
  }

  /** The index that the pattern of get_accounts finds in a key. */
  function IndexOf(platform: string, key: string): Option<nat> {
    if Head(platform) <= key then LeadingIndex(key[|Head(platform)|..]) else None
  }

  lemma IndexOfDigits(platform: string, d: string, name: string)
    requires d != "" && Digits(d)
    ensures IndexOf(platform, Head(platform) + d + "_" + name) == Some(Number(d))
  {
    var key := Head(platform) + d + "_" + name;
    assert key[|Head(platform)|..] == d + "_" + name;
    DigitRunOf(d, name);
    assert (d + "_" + name)[..|d|] == d;
  }

  lemma IndexOfKey(platform: string, index: nat, name: string)
    ensures IndexOf(platform, Key(platform, index, name)) == Some(index)
  {
    IndexOfDigits(platform, Decimal(index), name);
    NumberOfDecimal(index);
  }

  lemma KeysDiffer(platform: string, i: nat, x: string, j: nat, y: string)
    ensures Key(platform, i, x) == Key(platform, j, y) <==> i == j && x == y
  {
    IndexOfKey(platform, i, x);
    IndexOfKey(platform, j, y);
    var p := Prefix(platform, i) + "_";
    assert (p + x)[|p|..] == x && (p + y)[|p|..] == y;
  }

  lemma KeyIsKey(platform: string, index: nat, name: string)
    requires IsPlatform(platform) && IsName(name)
    ensures IsKey(Key(platform, index, name))
  {
    var d, key := Decimal(index), Key(platform, index, name);
    assert key == "SOCIAL_" + platform + "_" + d + "_" + name;
    assert key[0] == 'S';
    if name == "" { assert key[|key| - 1] == '_'; }
  }

  // ----- accounts -----

  function Lookup(env: Env, key: string, default: string): string {
    if key in env then env[key] else default
  }

  function Fields(env: Env, config: Config, platform: string, index: nat): map<string, string> {
    map f | f in config.fields && Lookup(env, Key(platform, index, f), "") != "" :: Lookup(env, Key(platform, index, f), "")
  }

  /** The required fields that are missing. */
  function Missing(required: seq<string>, fields: map<string, string>): (missing: seq<string>)
    ensures forall f :: f in missing <==> f in required && f !in fields
  {
    if required == [] then []
    else if required[0] in fields then Missing(required[1..], fields)
    else [required[0]] + Missing(required[1..], fields)
  }

  function StatusOf(config: Config, fields: map<string, string>, clock: Clock): Status {
    var missing := Missing(config.requiredAll, fields);
    if missing != [] then Disconnected(missing)
    else if config.requiredAny != [] && !(exists f :: f in config.requiredAny && f in fields) then Disconnected(config.requiredAny)
    else if config.expiry.Some? && config.expiry.value.timestampField in fields then
      match clock(fields[config.expiry.value.timestampField])
      case None => Connected(None)
      case Some(elapsed) =>
        var left := config.expiry.value.ttlDays - elapsed;
        if left <= 0 then Expired(left) else if left <= 7 then Expiring(left) else Connected(Some(left))
    else Connected(None)
  }

  function AccountOf(env: Env, config: Config, clock: Clock, platform: string, index: nat): Account {
    var fields := Fields(env, config, platform, index);
    Account(index, Lookup(env, Key(platform, index, "LABEL"), "Conta " + Decimal(index)), fields, StatusOf(config, fields, clock))
  }

  /** A required field is missing, or all are of which one is required. */
  predicate LacksFields(config: Config, fields: map<string, string>) {
    || (exists f :: f in config.requiredAll && f !in fields)
    || (config.requiredAny != [] && forall f :: f in config.requiredAny ==> f !in fields)
  }

  /** The days that are left, if the platform has a time of creation and it can be read. */
  function DaysLeft(config: Config, fields: map<string, string>, clock: Clock): Option<int> {
    if config.expiry.Some? && config.expiry.value.timestampField in fields
       && clock(fields[config.expiry.value.timestampField]).Some?
    then Some(config.expiry.value.ttlDays - clock(fields[config.expiry.value.timestampField]).value)
    else None
  }

  /** What each status means. */
  lemma StatusMeans(config: Config, fields: map<string, string>, clock: Clock)
    ensures var status, left := StatusOf(config, fields, clock), DaysLeft(config, fields, clock);
      && (status.Disconnected? <==> LacksFields(config, fields))
      && (status.Disconnected? ==> forall f :: f in status.missing ==> f !in fields)
      && (status.Disconnected? ==> forall f :: f in config.requiredAll && f !in fields ==> f in status.missing)
      && (!LacksFields(config, fields) ==>
            && (left.None? ==> status == Connected(None))
            && (left.Some? && left.value > 7 ==> status == Connected(left))
            && (left.Some? && 1 <= left.value <= 7 ==> status == Expiring(left.value))
            && (left.Some? && left.value <= 0 ==> status == Expired(left.value)))
  {
    var missing := Missing(config.requiredAll, fields);
    if missing != [] { assert missing[0] in missing; }
    if f :| f in config.requiredAll && f !in fields { assert f in missing; }
  }

  /** An account reads the keys of its platform and number: the label, and every known
      field that is there and not blank. */
  lemma AccountReads(env: Env, config: Config, clock: Clock, platform: string, index: nat, name: string)
    ensures var a := AccountOf(env, config, clock, platform, index);
      var key := "SOCIAL_" + platform + "_" + Decimal(index) + "_" + name;
      && (name in a.fields <==> name in config.fields && key in env && env[key] != "")
      && (name in a.fields ==> a.fields[name] == env[key])
      && (name == "LABEL" ==> a.title == if key in env then env[key] else "Conta " + Decimal(index))
      && a.index == index
  {
    assert Key(platform, index, name) == "SOCIAL_" + platform + "_" + Decimal(index) + "_" + name;
  }

  /** A key written out. */
  lemma KeyWrittenOut()
    ensures Key("YOUTUBE", 12, "API_KEY") == "SOCIAL_YOUTUBE_12_API_KEY"
    ensures IndexOf("YOUTUBE", "SOCIAL_YOUTUBE_12_API_KEY") == Some(12)
  {
    assert Decimal(1) == "1" && Decimal(12) == "12";
    assert Key("YOUTUBE", 12, "API_KEY") == "SOCIAL_" + "YOUTUBE" + "_" + "12" + "_" + "API_KEY";
    IndexOfKey("YOUTUBE", 12, "API_KEY");
  }

  ghost function Indices(env: Env, platform: string): set<nat> {
    set k | k in env && IndexOf(platform, k).Some? :: IndexOf(platform, k).value
  }

  /** The variables after save_account has gone through the first n fields. */
  function Saved(env: Env, platform: string, index: nat, title: string, fields: seq<Field>, n: nat): Env
    requires n <= |fields|
  {
    if n == 0 then env[Key(platform, index, "LABEL") := Strip(title)]
    else
      var saved := Saved(env, platform, index, title, fields, n - 1);
      if fields[n - 1].value == "" then saved
      else saved[Key(platform, index, fields[n - 1].name) := Strip(fields[n - 1].value)]
  }

  /** The file after save_account has gone through the first n fields. */
  function SavedFile(file: Option<string>, platform: string, index: nat, title: string, fields: seq<Field>, n: nat): Option<string>
    requires n <= |fields|
  {
    if n == 0 then Set(file, Key(platform, index, "LABEL"), title)
    else
      var saved := SavedFile(file, platform, index, title, fields, n - 1);
      if fields[n - 1].value == "" then saved
      else Set(saved, Key(platform, index, fields[n - 1].name), fields[n - 1].value)
  }

  predicate IsReadable(platform: string, title: string, fields: seq<Field>) {
    && IsPlatform(platform) && Flat(title)
    && forall i :: 0 <= i < |fields| ==> IsName(fields[i].name) && Flat(fields[i].value)
  }

  lemma {:induction false} SavedFileReads(
      file: Option<string>, platform: string, index: nat, title: string, fields: seq<Field>, n: nat)
    requires n <= |fields| && IsPlatform(platform) && Flat(title)
    requires forall i :: 0 <= i < n ==> IsName(fields[i].name) && Flat(fields[i].value)
    ensures Read(SavedFile(file, platform, index, title, fields, n)) == Saved(Read(file), platform, index, title, fields, n)
  {
    if n == 0 {
      SettingReads(file, platform, index, "LABEL", title);
    } else {
      SavedFileReads(file, platform, index, title, fields, n - 1);
      var field := fields[n - 1];
      if field.value != "" {
        SettingReads(SavedFile(file, platform, index, title, fields, n - 1), platform, index, field.name, field.value);
      }
    }
  }

  lemma SettingReads(file: Option<string>, platform: string, index: nat, name: string, value: string)
    requires IsPlatform(platform) && IsName(name) && Flat(value)
    ensures Read(Set(file, Key(platform, index, name), value)) == Read(file)[Key(platform, index, name) := Strip(value)]
  {
    KeyIsKey(platform, index, name);
    SetThenRead(file, Key(platform, index, name), value);
  }

  /** The variables that delete_account leaves. */
  function Deleted(env: Env, platform: string, index: nat): Env {
    map k | k in env && !(Prefix(platform, index) <= k) :: env[k]
  }

  /** Field names are those of a dictionary, and none of them is the label. */
  predicate AreFields(fields: seq<Field>) {
    && (forall i :: 0 <= i < |fields| ==> fields[i].name != "LABEL")
    && (forall i, j :: 0 <= i < j < |fields| ==> fields[i].name != fields[j].name)
  }

  /** What the dictionary given to save_account has for a name, if it is stored. */
  function Given(fields: seq<Field>, name: string, n: nat): Option<string>
    requires n <= |fields|
  {
    if n == 0 then None
    else if fields[n - 1].name == name && fields[n - 1].value != "" then Some(Strip(fields[n - 1].value))
    else Given(fields, name, n - 1)
  }

  // ----- saving -----

  lemma {:induction false} SavedElsewhere(
      env: Env, platform: string, index: nat, title: string, fields: seq<Field>, n: nat, key: string)
    requires n <= |fields| && IndexOf(platform, key) != Some(index)
    ensures var saved := Saved(env, platform, index, title, fields, n);
      (key in saved <==> key in env) && Lookup(saved, key, "") == Lookup(env, key, "")
  {
    if n == 0 {
      IndexOfKey(platform, index, "LABEL");
    } else {
      SavedElsewhere(env, platform, index, title, fields, n - 1, key);
      IndexOfKey(platform, index, fields[n - 1].name);
    }
  }

  lemma {:induction false} SavedHere(
      env: Env, platform: string, index: nat, title: string, fields: seq<Field>, n: nat, name: string)
    requires n <= |fields| && AreFields(fields) && name != "LABEL"
    ensures var saved, key := Saved(env, platform, index, title, fields, n), Key(platform, index, name);
      if Given(fields, name, n).Some? then key in saved && saved[key] == Given(fields, name, n).value
      else (key in saved <==> key in env) && Lookup(saved, key, "") == Lookup(env, key, "")
  {
    if n == 0 {
      KeysDiffer(platform, index, "LABEL", index, name);
    } else {
      SavedHere(env, platform, index, title, fields, n - 1, name);
      KeysDiffer(platform, index, fields[n - 1].name, index, name);
    }
  }

  lemma {:induction false} SavedLabel(
      env: Env, platform: string, index: nat, title: string, fields: seq<Field>, n: nat)
    requires n <= |fields| && AreFields(fields)
    ensures var saved, key := Saved(env, platform, index, title, fields, n), Key(platform, index, "LABEL");
      key in saved && saved[key] == Strip(title)
  {
    if n > 0 {
      SavedLabel(env, platform, index, title, fields, n - 1);
      KeysDiffer(platform, index, fields[n - 1].name, index, "LABEL");
    }
  }

  lemma IndexInIndices(env: Env, platform: string, key: string)
    requires key in env && IndexOf(platform, key).Some?
    ensures IndexOf(platform, key).value in Indices(env, platform)
  {
  }

  lemma SavedIndices(env: Env, platform: string, index: nat, title: string, fields: seq<Field>)
    requires AreFields(fields)
    ensures Indices(Saved(env, platform, index, title, fields, |fields|), platform) == Indices(env, platform) + {index}
  {
    var saved := Saved(env, platform, index, title, fields, |fields|);
    SavedLabel(env, platform, index, title, fields, |fields|);
    IndexOfKey(platform, index, "LABEL");
    IndexInIndices(saved, platform, Key(platform, index, "LABEL"));
    forall i | i != index ensures i in Indices(saved, platform) <==> i in Indices(env, platform) {
      if i in Indices(saved, platform) {
        var k :| k in saved && IndexOf(platform, k) == Some(i);
        SavedElsewhere(env, platform, index, title, fields, |fields|, k);
        IndexInIndices(env, platform, k);
      }
      if i in Indices(env, platform) {
        var k :| k in env && IndexOf(platform, k) == Some(i);
        SavedElsewhere(env, platform, index, title, fields, |fields|, k);
        IndexInIndices(saved, platform, k);
      }
    }
  }

  ghost predicate SameVariable(a: Env, b: Env, key: string) {
    (key in a <==> key in b) && Lookup(a, key, "") == Lookup(b, key, "")
  }

  lemma SameAccount(a: Env, b: Env, config: Config, clock: Clock, platform: string, j: nat)
    requires forall name :: SameVariable(a, b, Key(platform, j, name))
    ensures AccountOf(a, config, clock, platform, j) == AccountOf(b, config, clock, platform, j)
  {
    assert Fields(a, config, platform, j) == Fields(b, config, platform, j) by {
      forall f | f in config.fields ensures SameVariable(a, b, Key(platform, j, f)) {}
    }
    assert SameVariable(a, b, Key(platform, j, "LABEL"));
  }

  lemma SavedLeaves(
      env: Env, config: Config, clock: Clock, platform: string, index: nat, title: string, fields: seq<Field>, j: nat)
    requires j != index
    ensures AccountOf(Saved(env, platform, index, title, fields, |fields|), config, clock, platform, j)
         == AccountOf(env, config, clock, platform, j)
  {
    var saved := Saved(env, platform, index, title, fields, |fields|);
    forall name ensures SameVariable(saved, env, Key(platform, j, name)) {
      IndexOfKey(platform, j, name);
      SavedElsewhere(env, platform, index, title, fields, |fields|, Key(platform, j, name));
    }
    SameAccount(saved, env, config, clock, platform, j);
  }

  /** The given fields that the platform knows and that are not blank. */
  function GivenFields(config: Config, fields: seq<Field>): map<string, string> {
    map f | f in config.fields && Given(fields, f, |fields|).Some? && Given(fields, f, |fields|).value != ""
      :: Given(fields, f, |fields|).value
  }

  lemma SavedFields(env: Env, config: Config, platform: string, index: nat, title: string, fields: seq<Field>)
    requires AreFields(fields) && index !in Indices(env, platform) && "LABEL" !in config.fields
    ensures Fields(Saved(env, platform, index, title, fields, |fields|), config, platform, index)
         == GivenFields(config, fields)
  {
    var saved := Saved(env, platform, index, title, fields, |fields|);
    forall f | f in config.fields
      ensures var given := Given(fields, f, |fields|);
        Lookup(saved, Key(platform, index, f), "") == if given.Some? then given.value else ""
    {
      SavedHere(env, platform, index, title, fields, |fields|, f);
      IndexOfKey(platform, index, f);
      if Key(platform, index, f) in env { IndexInIndices(env, platform, Key(platform, index, f)); }
    }
  }

  /** Saving under an index that is not in use adds exactly one account, with the
      given label and the given fields that are not blank, and leaves every other
      account of the platform as it was. */
  lemma SaveAddsOne(
      env: Env, config: Config, clock: Clock, platform: string, index: nat, title: string, fields: seq<Field>, j: nat)
    requires AreFields(fields) && index !in Indices(env, platform) && "LABEL" !in config.fields
    ensures var saved := Saved(env, platform, index, title, fields, |fields|);
      && Indices(saved, platform) == Indices(env, platform) + {index}
      && (j != index ==> AccountOf(saved, config, clock, platform, j) == AccountOf(env, config, clock, platform, j))
      && AccountOf(saved, config, clock, platform, index)
         == Account(index, Strip(title), GivenFields(config, fields), StatusOf(config, GivenFields(config, fields), clock))
  {
    SavedIndices(env, platform, index, title, fields);
    SavedLabel(env, platform, index, title, fields, |fields|);
    SavedFields(env, config, platform, index, title, fields);
    if j != index { SavedLeaves(env, config, clock, platform, index, title, fields, j); }
  }

  // ----- deleting -----

  lemma PrefixStep(a: string, t: string)
    requires a != ""
    ensures a <= t <==> t != "" && a[0] == t[0] && a[1..] <= t[1..]
  {
    if a <= t { assert t == a + t[|a|..] && t[1..] == a[1..] + t[|a|..]; }
    if t != "" && a[0] == t[0] && a[1..] <= t[1..] { assert t == [a[0]] + (a[1..] + t[1..][|a| - 1..]); }
  }

  lemma {:induction false} DigitsPrefix(a: string, b: string, rest: string)
    requires Digits(a) && Digits(b)
    ensures a <= b + "_" + rest <==> a <= b
  {
    if a != "" {
      PrefixStep(a, b + "_" + rest);
      PrefixStep(a, b);
      if b != "" {
        assert (b + "_" + rest)[1..] == b[1..] + "_" + rest;
        DigitsPrefix(a[1..], b[1..], rest);
      }
    }
  }

  lemma HeadPrefix(h: string, a: string, t: string)
    ensures h + a <= h + t <==> a <= t
  {
    if h + a <= h + t { assert a == (h + t)[..|h + a|][|h|..]; }
    if a <= t { assert h + t == h + a + t[|a|..]; }
  }

  lemma PrefixOfKey(platform: string, i: nat, j: nat, name: string)
    ensures Prefix(platform, i) <= Key(platform, j, name) <==> Decimal(i) <= Decimal(j)
  {
    var h, a, t := Head(platform), Decimal(i), Decimal(j) + "_" + name;
    DigitsPrefix(a, Decimal(j), name);
    assert Key(platform, j, name) == h + t;
    HeadPrefix(h, a, t);
  }

  /** Deleting removes exactly the variables whose key starts with the prefix, the prefix
      itself included, and changes no other. */
  lemma DeletedIff(env: Env, platform: string, i: nat, key: string)
    ensures var prefix, deleted := "SOCIAL_" + platform + "_" + Decimal(i), Deleted(env, platform, i);
      && (key in deleted <==> key in env && !(|key| >= |prefix| && key[..|prefix|] == prefix))
      && (key in deleted ==> deleted[key] == env[key])
  {
    assert Prefix(platform, i) == "SOCIAL_" + platform + "_" + Decimal(i);
  }

  /** Deleting account i takes a variable of account j away exactly if the digits of j
      start with the digits of i: deleting 1 also deletes 10. */
  lemma DeleteTakes(env: Env, platform: string, i: nat, j: nat, name: string)
    requires Key(platform, j, name) in env
    ensures Key(platform, j, name) !in Deleted(env, platform, i) <==> Decimal(i) <= Decimal(j)
  {
    PrefixOfKey(platform, i, j, name);
  }

  /** Every other account is untouched. */
  lemma DeleteLeaves(env: Env, config: Config, clock: Clock, platform: string, i: nat, j: nat)
    requires !(Decimal(i) <= Decimal(j))
    ensures AccountOf(Deleted(env, platform, i), config, clock, platform, j) == AccountOf(env, config, clock, platform, j)
  {
    var deleted := Deleted(env, platform, i);
    forall name ensures SameVariable(deleted, env, Key(platform, j, name)) {
      PrefixOfKey(platform, i, j, name);
    }
    SameAccount(deleted, env, config, clock, platform, j);
  }

  /** A key in which the number of an account is written with these digits. */
  ghost predicate WrittenWith(key: string, platform: string, d: string) {
    d != "" && Digits(d) && Head(platform) + d + "_" <= key
  }

  lemma IndexIsWritten(platform: string, key: string, i: nat)
    ensures IndexOf(platform, key) == Some(i) <==> exists d :: WrittenWith(key, platform, d) && Number(d) == i
  {
    if IndexOf(platform, key) == Some(i) {
      var rest := key[|Head(platform)|..];
      var d := rest[..DigitRun(rest)];
      assert key == Head(platform) + (d + "_" + rest[|d| + 1..]);
      assert key == Head(platform) + d + "_" + rest[|d| + 1..];
      assert WrittenWith(key, platform, d);
    }
    if d :| WrittenWith(key, platform, d) && Number(d) == i {
      var p := Head(platform) + d + "_";
      assert key == p + key[|p|..];
      IndexOfDigits(platform, d, key[|p|..]);
    }
  }

  /** Deleting account i does not reach a key of it exactly if its number is written
      with a leading zero and is not 0. */
  lemma MissedByDelete(platform: string, key: string, d: string, i: nat)
    requires WrittenWith(key, platform, d) && Number(d) == i
    ensures !(Prefix(platform, i) <= key) <==> i > 0 && d[0] == '0'
  {
    var p := Head(platform) + d + "_";
    var name := key[|p|..];
    assert key == p + name && key == Head(platform) + (d + "_" + name);
    HeadPrefix(Head(platform), Decimal(i), d + "_" + name);
    DigitsPrefix(Decimal(i), d, name);
    if d[0] != '0' {
      DecimalOfNumber(d);
    } else if i > 0 {
      FirstDigit(i);
    }
  }

  /** An account is still listed after it was deleted exactly if a variable of it has
      the number written with a leading zero, and the number is not 0. */
  lemma StaysListed(env: Env, platform: string, i: nat)
    ensures i in Indices(Deleted(env, platform, i), platform)
       <==> i > 0 && exists key, d :: key in env && WrittenWith(key, platform, d) && Number(d) == i && d[0] == '0'
  {
    var deleted := Deleted(env, platform, i);
    if i in Indices(deleted, platform) {
      var key :| key in deleted && IndexOf(platform, key) == Some(i);
      IndexIsWritten(platform, key, i);
      var d :| WrittenWith(key, platform, d) && Number(d) == i;
      MissedByDelete(platform, key, d, i);
    }
    if key, d :| i > 0 && key in env && WrittenWith(key, platform, d) && Number(d) == i && d[0] == '0' {
      MissedByDelete(platform, key, d, i);
      IndexIsWritten(platform, key, i);
      IndexInIndices(deleted, platform, key);
    }
  }

  // ----- other platforms -----

  lemma HeadsDiffer(p: string, q: string, key: string)
    requires IsPlatform(p) && IsPlatform(q) && Head(p) <= key && Head(q) <= key
    ensures p == q
  {
    assert key[..|Head(p)|] == Head(p) && key[..|Head(q)|] == Head(q);
    assert Head(p)[7..|p| + 7] == p && Head(q)[7..|q| + 7] == q;
    assert forall i :: 0 <= i < |p| ==> p[i] == Head(p)[i + 7] == key[i + 7];
    assert forall i :: 0 <= i < |q| ==> q[i] == Head(q)[i + 7] == key[i + 7];
    assert key[|p| + 7] == Head(p)[|p| + 7] == '_' && key[|q| + 7] == Head(q)[|q| + 7] == '_';
    assert |p| == |q|;
  }

  lemma SameListing(a: Env, b: Env, config: Config, clock: Clock, platform: string, j: nat)
    requires forall key :: Head(platform) <= key ==> SameVariable(a, b, key)
    ensures Indices(a, platform) == Indices(b, platform)
    ensures AccountOf(a, config, clock, platform, j) == AccountOf(b, config, clock, platform, j)
  {
    forall name ensures SameVariable(a, b, Key(platform, j, name)) {
      assert Key(platform, j, name) == Head(platform) + (Decimal(j) + "_" + name);
    }
    SameAccount(a, b, config, clock, platform, j);
    forall i ensures i in Indices(a, platform) <==> i in Indices(b, platform) {
      if i in Indices(a, platform) {
        var k :| k in a && IndexOf(platform, k) == Some(i);
        assert SameVariable(a, b, k);
      }
      if i in Indices(b, platform) {
        var k :| k in b && IndexOf(platform, k) == Some(i);
        assert SameVariable(a, b, k);
      }
    }
  }

  /** Saving and deleting accounts of one platform changes no variable of another, and
      so neither which accounts that one has nor any of them. */
  lemma OtherPlatformsStay(
      env: Env, config: Config, clock: Clock, p: string, q: string, index: nat, title: string, fields: seq<Field>, j: nat)
    requires IsPlatform(p) && IsPlatform(q) && p != q
    ensures forall after :: after == Saved(env, p, index, title, fields, |fields|) || after == Deleted(env, p, index) ==>
      && (forall key :: Head(q) <= key ==> SameVariable(after, env, key))
      && Indices(after, q) == Indices(env, q)
      && AccountOf(after, config, clock, q, j) == AccountOf(env, config, clock, q, j)
  {
    var saved, deleted := Saved(env, p, index, title, fields, |fields|), Deleted(env, p, index);
    forall key | Head(q) <= key ensures SameVariable(saved, env, key) && SameVariable(deleted, env, key) {
      assert Prefix(p, index) <= key ==> Head(p) <= key;
      if Head(p) <= key { HeadsDiffer(p, q, key); }
      SavedElsewhere(env, p, index, title, fields, |fields|, key);
    }
    SameListing(saved, env, config, clock, q, j);
    SameListing(deleted, env, config, clock, q, j);
  }

  // ----- the operations on the file -----

  /** The numbers of a set in ascending order. */
  ghost predicate AscendingOf(ns: seq<nat>, of: set<nat>) {
    && (forall x, y :: 0 <= x < y < |ns| ==> ns[x] < ns[y])
    && (forall i :: i in ns <==> i in of)
  }

  method Least(s: set<nat>) returns (least: nat)
    requires s != {}
    ensures least in s && forall i :: i in s ==> least <= i
  {
    least :| least in s;
    var rest := s - {least};
    while rest != {}
      invariant least in s && rest <= s
      invariant forall i :: i in s && i !in rest ==> least <= i
    {
      var i :| i in rest;
      rest := rest - {i};
      if i < least {
        least := i;
      }
    }
  }

  method Sorted(s: set<nat>) returns (ns: seq<nat>)
    ensures AscendingOf(ns, s)
  {
    ns := [];
    var rest := s;
    while rest != {}
      invariant rest <= s && AscendingOf(ns, s - rest)
      invariant forall i, j :: i in ns && j in rest ==> i < j
    {
      var least := Least(rest);
      assert s - (rest - {least}) == (s - rest) + {least};
      assert forall x :: 0 <= x < |ns| ==> ns[x] in ns;
      rest := rest - {least};
      ns := ns + [least];
    }
  }

  class Registry {
    const env: EnvEditor

    constructor (env: EnvEditor)
      ensures this.env == env
    {
      this.env := env;
    }

    method IndicesOf(platform: string) returns (indices: set<nat>)
      ensures indices == Indices(Read(env.file), platform)
    {
      var vars := env.ReadEnv();
      indices := {};
      var keys := vars.Keys;
      while keys != {}
        invariant keys <= vars.Keys
        invariant indices <= Indices(vars, platform)
        invariant forall k :: k in vars && k !in keys && IndexOf(platform, k).Some? ==> IndexOf(platform, k).value in indices
      {
        var key :| key in keys;
        keys := keys - {key};
        var index := IndexOf(platform, key);
        if index.Some? {
          indices := indices + {index.value};
        }
      }
    }

    /** The accounts in the order of their numbers. */
    method GetAccounts(platform: string, config: Config, clock: Clock) returns (accounts: seq<Account>)
      ensures AscendingOf(IndicesIn(accounts), Indices(Read(env.file), platform))
      ensures forall i :: 0 <= i < |accounts| ==>
                accounts[i] == AccountOf(Read(env.file), config, clock, platform, accounts[i].index)
    {
      var vars := env.ReadEnv();
      var indices := IndicesOf(platform);
      var sorted := Sorted(indices);
      accounts := [];
      for n := 0 to |sorted|
        invariant IndicesIn(accounts) == sorted[..n]
        invariant forall i :: 0 <= i < |accounts| ==> accounts[i] == AccountOf(vars, config, clock, platform, accounts[i].index)
      {
        accounts := accounts + [AccountOf(vars, config, clock, platform, sorted[n])];
      }
    }

    /** The first number after all that are in use. */
    method NextIndex(platform: string, config: Config, clock: Clock) returns (index: nat)
      ensures forall i :: i in Indices(Read(env.file), platform) ==> i < index
      ensures index == 1 || index - 1 in Indices(Read(env.file), platform)
    {
      var accounts := GetAccounts(platform, config, clock);
      ghost var indices := IndicesIn(accounts);
      if |accounts| == 0 {
        return 1;
      }
      assert indices[|accounts| - 1] in indices;
      return accounts[|accounts| - 1].index + 1;
    }

    /** If the names can be read back and no value has a line break, the variables are
        those with the account stored. */
    method SaveAccount(platform: string, index: nat, title: string, fields: seq<Field>)
      modifies env
      ensures env.file == SavedFile(old(env.file), platform, index, title, fields, |fields|)
      ensures IsReadable(platform, title, fields) ==>
                Read(env.file) == Saved(old(Read(env.file)), platform, index, title, fields, |fields|)
    {
      ghost var file := env.file;
      env.SetEnv(Key(platform, index, "LABEL"), title);
      for n := 0 to |fields|
        invariant env.file == SavedFile(file, platform, index, title, fields, n)
      {
        if fields[n].value != "" {
          env.SetEnv(Key(platform, index, fields[n].name), fields[n].value);
        }
      }
      if IsReadable(platform, title, fields) {
        SavedFileReads(file, platform, index, title, fields, |fields|);
      }
    }

    method DeleteAccount(platform: string, index: nat)
      modifies env
      ensures Read(env.file) == Deleted(old(Read(env.file)), platform, index)
    {
      var prefix := Prefix(platform, index);
      var vars := env.ReadEnv();
      var keys := vars.Keys;
      while keys != {}
        invariant keys <= vars.Keys
        invariant Read(env.file) == map k | k in vars && !(k !in keys && prefix <= k) :: vars[k]
      {
        var key :| key in keys;
        keys := keys - {key};
        if prefix <= key {
          DeleteThenRead(env.file, key);
          env.DeleteEnv(key);
        }
      }
    }
  }

  function IndicesIn(accounts: seq<Account>): (ns: seq<nat>)
    ensures |ns| == |accounts| && forall i :: 0 <= i < |ns| ==> ns[i] == accounts[i].index
  {
    seq(|accounts|, i requires 0 <= i < |accounts| => accounts[i].index)
  }
}
