/** What dispatch of app state mutations leaves in the device, read off the mutations: for
    every setting the last mutation that was set for the chat decides. */
module DispatchLaws {
  import opened Wrappers
  import opened AppStateLog
  import opened ContactSync

  /** The mutation sets something of a kind for a chat; without a JID in its index that
      is the empty one. */
  predicate SetsFor(parse: ParseJid, mu: Mutation, kind: Kind, jid: Jid) {
    && mu.op == SET && mu.index.kind == kind
    && jid == (if |mu.index.args| > 0 then parse(mu.index.args[0]) else "")
  }

  /** Mutation i is the last of its kind for the chat. */
  predicate IsLastFor(parse: ParseJid, mus: seq<Mutation>, kind: Kind, jid: Jid, i: nat) {
    && i < |mus| && SetsFor(parse, mus[i], kind, jid)
    && (forall j :: i < j < |mus| ==> !SetsFor(parse, mus[j], kind, jid))
  }

  predicate NoneFor(parse: ParseJid, mus: seq<Mutation>, kind: Kind, jid: Jid) {
    forall j :: 0 <= j < |mus| ==> !SetsFor(parse, mus[j], kind, jid)
  }

  /** What a chat has of a kind; None if nothing is stored. */
  datatype Setting = NameIs(first: string, full: string) | MutedUntil(seconds: int) | Pinned(on: bool) | Archived(on: bool)

  function SettingOf(d: Device, kind: Kind, jid: Jid): Option<Setting> {
    match kind
    case ContactKind => if jid in d.names then Some(NameIs(d.names[jid].first, d.names[jid].full)) else None
    case MuteKind => if jid in d.mutedUntil then Some(Setting.MutedUntil(d.mutedUntil[jid])) else None
    case PinKind => if jid in d.pinned then Some(Pinned(d.pinned[jid])) else None
    case ArchiveKind => if jid in d.archived then Some(Archived(d.archived[jid])) else None
    case PushNameKind => None
    case OtherKind(_) => None
  }

  lemma OneStep(parse: ParseJid, d: Device, mu: Mutation, kind: Kind, jid: Jid)
    ensures !SetsFor(parse, mu, kind, jid) ==> SettingOf(Dispatch(parse, d, mu), kind, jid) == SettingOf(d, kind, jid)
    ensures !(mu.op == SET && mu.index.kind == PushNameKind) ==> Dispatch(parse, d, mu).pushName == d.pushName
  {
  }

  /** Nothing else is changed: not by other kinds, for other chats, or by removals. */
  lemma {:induction false} OthersStay(parse: ParseJid, d: Device, mus: seq<Mutation>, kind: Kind, jid: Jid)
    requires NoneFor(parse, mus, kind, jid)
    ensures SettingOf(DispatchAll(parse, d, mus), kind, jid) == SettingOf(d, kind, jid)
  {
    if mus != [] {
      OthersStay(parse, d, mus[..|mus| - 1], kind, jid);
      OneStep(parse, DispatchAll(parse, d, mus[..|mus| - 1]), mus[|mus| - 1], kind, jid);
    }
  }

  lemma {:induction false} SettledBefore(parse: ParseJid, d: Device, mus: seq<Mutation>, kind: Kind, jid: Jid, i: nat)
    requires IsLastFor(parse, mus, kind, jid, i)
    ensures SettingOf(DispatchAll(parse, d, mus), kind, jid)
         == SettingOf(Dispatch(parse, DispatchAll(parse, d, mus[..i]), mus[i]), kind, jid)
  {
    if i < |mus| - 1 {
      var init := mus[..|mus| - 1];
      SettledBefore(parse, d, init, kind, jid, i);
      assert init[..i] == mus[..i];
      OneStep(parse, DispatchAll(parse, d, init), mus[|mus| - 1], kind, jid);
    }
  }

  /** A chat is pinned as the last pin mutation for it says; an absent action unpins. */
  lemma LastPinDecides(parse: ParseJid, d: Device, mus: seq<Mutation>, jid: Jid, i: nat)
    requires IsLastFor(parse, mus, PinKind, jid, i)
    ensures var after := DispatchAll(parse, d, mus);
      jid in after.pinned && (after.pinned[jid] <==> mus[i].action.Pin? && mus[i].action.pinned)
  {
    SettledBefore(parse, d, mus, PinKind, jid, i);
  }

  lemma LastArchiveDecides(parse: ParseJid, d: Device, mus: seq<Mutation>, jid: Jid, i: nat)
    requires IsLastFor(parse, mus, ArchiveKind, jid, i)
    ensures var after := DispatchAll(parse, d, mus);
      jid in after.archived && (after.archived[jid] <==> mus[i].action.Archive? && mus[i].action.archived)
  {
    SettledBefore(parse, d, mus, ArchiveKind, jid, i);
  }

  /** Muted until the second that its milliseconds lie in, for ever (-1) if they are
      negative, and not at all (0) if the action does not mute. */
  lemma LastMuteDecides(parse: ParseJid, d: Device, mus: seq<Mutation>, jid: Jid, i: nat)
    requires IsLastFor(parse, mus, MuteKind, jid, i)
    ensures var after, a := DispatchAll(parse, d, mus), mus[i].action;
      && jid in after.mutedUntil
      && (a.Mute? && a.muted && a.endTimestamp < 0 ==> after.mutedUntil[jid] == -1)
      && (a.Mute? && a.muted && a.endTimestamp >= 0 ==>
            after.mutedUntil[jid] * 1000 <= a.endTimestamp < after.mutedUntil[jid] * 1000 + 1000)
      && (!(a.Mute? && a.muted) ==> after.mutedUntil[jid] == 0)
  {
    SettledBefore(parse, d, mus, MuteKind, jid, i);
  }

  /** First and full name as a reader sees them. */
  predicate ReadsAs(d: Device, jid: Jid, first: string, full: string) {
    if jid in d.names then d.names[jid].first == first && d.names[jid].full == full else first == "" && full == ""
  }

  /** A chat has the names of the last contact mutation for it; an absent action empties them. */
  lemma LastContactDecides(parse: ParseJid, d: Device, mus: seq<Mutation>, jid: Jid, i: nat)
    requires IsLastFor(parse, mus, ContactKind, jid, i)
    ensures var a := mus[i].action;
      ReadsAs(DispatchAll(parse, d, mus), jid, if a.Contact? then a.firstName else "", if a.Contact? then a.fullName else "")
  {
    SettledBefore(parse, d, mus, ContactKind, jid, i);
  }

  predicate IsLastPushName(mus: seq<Mutation>, i: nat) {
    && i < |mus| && mus[i].op == SET && mus[i].index.kind == PushNameKind
    && (forall j :: i < j < |mus| ==> !(mus[j].op == SET && mus[j].index.kind == PushNameKind))
  }

  lemma {:induction false} LastPushNameDecides(parse: ParseJid, d: Device, mus: seq<Mutation>, i: nat)
    requires IsLastPushName(mus, i)
    ensures DispatchAll(parse, d, mus).pushName == if mus[i].action.PushName? then mus[i].action.name else ""
  {
    if i < |mus| - 1 {
      LastPushNameDecides(parse, d, mus[..|mus| - 1], i);
      OneStep(parse, DispatchAll(parse, d, mus[..|mus| - 1]), mus[|mus| - 1], PushNameKind, "");
    }
  }

  lemma {:induction false} PushNameStays(parse: ParseJid, d: Device, mus: seq<Mutation>)
    requires forall j :: 0 <= j < |mus| ==> !(mus[j].op == SET && mus[j].index.kind == PushNameKind)
    ensures DispatchAll(parse, d, mus).pushName == d.pushName
  {
    if mus != [] {
      PushNameStays(parse, d, mus[..|mus| - 1]);
      OneStep(parse, DispatchAll(parse, d, mus[..|mus| - 1]), mus[|mus| - 1], PushNameKind, "");
    }
  }

  // ----- the bulk insert -----

  /** A mutation that the bulk insert takes, set or removed, for a chat. */
  predicate InBulk(parse: ParseJid, mu: Mutation, jid: Jid) {
    mu.index.kind == ContactKind && |mu.index.args| > 0 && parse(mu.index.args[0]) == jid
  }

  predicate Carries(mu: Mutation, n: Name) {
    n == Name(if mu.action.Contact? then mu.action.firstName else "", if mu.action.Contact? then mu.action.fullName else "")
  }

  lemma {:induction false} LastInBulk(parse: ParseJid, mus: seq<Mutation>, jid: Jid) returns (i: nat)
    ensures LastName(Entries(parse, mus), jid).None? ==> forall j :: 0 <= j < |mus| ==> !InBulk(parse, mus[j], jid)
    ensures LastName(Entries(parse, mus), jid).Some? ==>
      && i < |mus| && InBulk(parse, mus[i], jid) && Carries(mus[i], LastName(Entries(parse, mus), jid).value)
      && forall j :: i < j < |mus| ==> !InBulk(parse, mus[j], jid)
  {
    i := 0;
    if mus != [] {
      var init, mu := mus[..|mus| - 1], mus[|mus| - 1];
      i := LastInBulk(parse, init, jid);
      LastOfAppended(Entries(parse, init), EntryOf(parse, mu), jid);
      if InBulk(parse, mu, jid) { i := |mus| - 1; }
    }
  }

  lemma {:induction false} FirstInBulk(parse: ParseJid, mus: seq<Mutation>, jid: Jid) returns (i: nat)
    ensures FirstName(Entries(parse, mus), jid).None? ==> forall j :: 0 <= j < |mus| ==> !InBulk(parse, mus[j], jid)
    ensures FirstName(Entries(parse, mus), jid).Some? ==>
      && i < |mus| && InBulk(parse, mus[i], jid) && Carries(mus[i], FirstName(Entries(parse, mus), jid).value)
      && forall j :: 0 <= j < i ==> !InBulk(parse, mus[j], jid)
  {
    i := 0;
    if mus != [] {
      var init, mu := mus[..|mus| - 1], mus[|mus| - 1];
      i := FirstInBulk(parse, init, jid);
      FirstOfAppended(Entries(parse, init), EntryOf(parse, mu), jid);
      if FirstName(Entries(parse, init), jid).None? && InBulk(parse, mu, jid) { i := |mus| - 1; }
    }
  }

  /** The entry that the bulk insert keeps for a chat is that of the last contact mutation
      that names it, or of the first, by the rule; set or removed. */
  lemma KeptIsFirstOrLast(parse: ParseJid, rule: KeepRule, mus: seq<Mutation>, jid: Jid) returns (i: nat)
    ensures Kept(parse, rule, mus, jid).None? <==> forall j :: 0 <= j < |mus| ==> !InBulk(parse, mus[j], jid)
    ensures Kept(parse, rule, mus, jid).Some? ==>
      && i < |mus| && InBulk(parse, mus[i], jid) && Carries(mus[i], Kept(parse, rule, mus, jid).value)
      && (rule == KeepLast ==> forall j :: i < j < |mus| ==> !InBulk(parse, mus[j], jid))
      && (rule == KeepFirst ==> forall j :: 0 <= j < i ==> !InBulk(parse, mus[j], jid))
  {
    if rule == KeepFirst { i := FirstInBulk(parse, mus, jid); } else { i := LastInBulk(parse, mus, jid); }
  }
}
