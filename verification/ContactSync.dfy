/** collectEventsToDispatch, filterContacts and the store effects of
    dispatchAppState in appstate.go: bulk insertion of contacts against
    dispatching every mutation in sequence. */
module ContactSync {
  import opened Wrappers
  import opened AppStateLog

  type Jid = string
  type ParseJid = string -> Jid

  datatype Name = Name(first: string, full: string)
  datatype ContactEntry = ContactEntry(jid: Jid, name: Name)

  datatype Device = Device(
    names: map<Jid, Name>, mutedUntil: map<Jid, int>, pinned: map<Jid, bool>, archived: map<Jid, bool>,
    pushName: string)

  const EMPTY_JID: Jid := ""
  const NO_NAME := Name("", "")
  const MUTED_FOREVER := -1

  /** Which of several entries for one JID the bulk insert keeps; the helper that
      removes the duplicates is an external library. */
  datatype KeepRule = KeepFirst | KeepLast

  // ----- one mutation -----

  function JidOf(parse: ParseJid, mu: Mutation): Jid {
    if mu.index.args != [] then parse(mu.index.args[0]) else EMPTY_JID
  }

  /** Getters of an absent action return zero values. */
  function NameOf(mu: Mutation): Name {
    if mu.action.Contact? then Name(mu.action.firstName, mu.action.fullName) else NO_NAME
  }

  function MutedUntil(a: Action): int {
    if !a.Mute? || !a.muted then 0 else if a.endTimestamp < 0 then MUTED_FOREVER else a.endTimestamp / 1000
  }

  function NameFor(names: map<Jid, Name>, jid: Jid): Name {
    if jid in names then names[jid] else NO_NAME
  }

  /** PutContactName writes only when a name changes. */
  function PutName(names: map<Jid, Name>, jid: Jid, name: Name): map<Jid, Name> {
    if NameFor(names, jid) == name then names else names[jid := name]
  }

  function Dispatch(parse: ParseJid, d: Device, mu: Mutation): Device {
    if mu.op != SET then d
    else
      var jid := JidOf(parse, mu);
      match mu.index.kind
      case MuteKind => d.(mutedUntil := d.mutedUntil[jid := MutedUntil(mu.action)])
      case PinKind => d.(pinned := d.pinned[jid := mu.action.Pin? && mu.action.pinned])
      case ArchiveKind => d.(archived := d.archived[jid := mu.action.Archive? && mu.action.archived])
      case ContactKind => d.(names := PutName(d.names, jid, NameOf(mu)))
      case PushNameKind => d.(pushName := if mu.action.PushName? then mu.action.name else "")
      case OtherKind(_) => d
  }

  function DispatchAll(parse: ParseJid, d: Device, mus: seq<Mutation>): Device {
    if mus == [] then d
    else Dispatch(parse, DispatchAll(parse, d, mus[..|mus| - 1]), mus[|mus| - 1])
  }

  // ----- splitting off the contacts -----

  predicate IsContact(mu: Mutation) {
    mu.index.kind == ContactKind && mu.index.args != []
  }

  function EntryOf(parse: ParseJid, mu: Mutation): ContactEntry {
    ContactEntry(JidOf(parse, mu), NameOf(mu))
  }

  function Rest(mus: seq<Mutation>): seq<Mutation> {
    if mus == [] then []
    else
      var rest, last := Rest(mus[..|mus| - 1]), mus[|mus| - 1];
      if IsContact(last) then rest else rest + [last]
  }

  function Entries(parse: ParseJid, mus: seq<Mutation>): seq<ContactEntry> {
    if mus == [] then []
    else
      var rest, last := Entries(parse, mus[..|mus| - 1]), mus[|mus| - 1];
      if IsContact(last) then rest + [EntryOf(parse, last)] else rest
  }

  lemma FilterStep(parse: ParseJid, mus: seq<Mutation>, i: nat)
    requires i < |mus|
    ensures Rest(mus[..i + 1]) == if IsContact(mus[i]) then Rest(mus[..i]) else Rest(mus[..i]) + [mus[i]]
    ensures Entries(parse, mus[..i + 1])
         == if IsContact(mus[i]) then Entries(parse, mus[..i]) + [EntryOf(parse, mus[i])] else Entries(parse, mus[..i])
  {
    assert mus[..i + 1][..i] == mus[..i];
  }

  /** Bulk insert: rows are written even when they change nothing. */
  function Bulk(rule: KeepRule, names: map<Jid, Name>, es: seq<ContactEntry>): map<Jid, Name> {
    if es == [] then names
    else
      var init, last := es[..|es| - 1], es[|es| - 1];
      var before := Bulk(rule, names, init);
      if rule == KeepFirst && exists i :: 0 <= i < |init| && init[i].jid == last.jid then before
      else before[last.jid := last.name]
  }

  function FastPath(parse: ParseJid, rule: KeepRule, d: Device, mus: seq<Mutation>): Device {
    DispatchAll(parse, d.(names := Bulk(rule, d.names, Entries(parse, mus))), Rest(mus))
  }

  /** What event collection makes of the device. */
  function Collected(parse: ParseJid, rule: KeepRule, fast: bool, d: Device, mus: seq<Mutation>): Device {
    if fast then FastPath(parse, rule, d, mus) else DispatchAll(parse, d, mus)
  }

  /** It fails if there are contacts to insert in bulk and they cannot be stored. */
  predicate CanCollect(parse: ParseJid, fast: bool, mus: seq<Mutation>, stored: bool) {
    fast && Entries(parse, mus) != [] ==> stored
  }

  lemma {:induction false} DispatchConcat(parse: ParseJid, d: Device, a: seq<Mutation>, b: seq<Mutation>)
    ensures DispatchAll(parse, d, a + b) == DispatchAll(parse, DispatchAll(parse, d, a), b)
  {
    if b == [] {
      assert a + b == a;
    } else {
      assert (a + b)[..|a + b| - 1] == a + b[..|b| - 1];
      DispatchConcat(parse, d, a, b[..|b| - 1]);
    }
  }

  predicate SameSettings(a: Device, b: Device) {
    a == b.(names := a.names)
  }

  /** Equal for every reader: the same name of every JID, the same settings. */
  ghost predicate SameForReaders(a: Device, b: Device) {
    SameSettings(a, b) && forall jid :: NameFor(a.names, jid) == NameFor(b.names, jid)
  }

  function FirstName(es: seq<ContactEntry>, jid: Jid): Option<Name> {
    if es == [] then None
    else if es[0].jid == jid then Some(es[0].name) else FirstName(es[1..], jid)
  }

  function LastName(es: seq<ContactEntry>, jid: Jid): Option<Name> {
    if es == [] then None
    else if es[|es| - 1].jid == jid then Some(es[|es| - 1].name) else LastName(es[..|es| - 1], jid)
  }

  lemma {:induction false} FirstOfAppended(es: seq<ContactEntry>, e: ContactEntry, jid: Jid)
    ensures FirstName(es + [e], jid)
         == if FirstName(es, jid).Some? then FirstName(es, jid) else if e.jid == jid then Some(e.name) else None
  {
    if es == [] {
      assert [] + [e] == [e];
    } else {
      assert (es + [e])[1..] == es[1..] + [e];
      FirstOfAppended(es[1..], e, jid);
    }
  }

  lemma {:induction false} FirstExists(es: seq<ContactEntry>, jid: Jid)
    ensures FirstName(es, jid).Some? <==> exists i :: 0 <= i < |es| && es[i].jid == jid
  {
    if es != [] {
      FirstExists(es[1..], jid);
      if i :| 0 <= i < |es| && es[i].jid == jid && i > 0 {
        assert es[1..][i - 1].jid == jid;
      }
    }
  }

  /** The name the bulk insert leaves for a JID. */
  lemma {:induction false} BulkName(rule: KeepRule, names: map<Jid, Name>, es: seq<ContactEntry>, jid: Jid)
    ensures var kept := if rule == KeepFirst then FirstName(es, jid) else LastName(es, jid);
      NameFor(Bulk(rule, names, es), jid) == if kept.Some? then kept.value else NameFor(names, jid)
  {
    if es != [] {
      var init, last := es[..|es| - 1], es[|es| - 1];
      BulkName(rule, names, init, jid);
      assert es == init + [last];
      FirstOfAppended(init, last, jid);
      FirstExists(init, last.jid);
    }
  }

  predicate SetsName(parse: ParseJid, mu: Mutation, jid: Jid) {
    mu.op == SET && mu.index.kind == ContactKind && JidOf(parse, mu) == jid
  }

  /** The name that the last contact mutation setting one for the JID gives it; without
      a JID in its index that is the empty JID. */
  function LastSet(parse: ParseJid, mus: seq<Mutation>, jid: Jid): Option<Name> {
    if mus == [] then None
    else if SetsName(parse, mus[|mus| - 1], jid) then Some(NameOf(mus[|mus| - 1]))
    else LastSet(parse, mus[..|mus| - 1], jid)
  }

  function OrElse(a: Option<Name>, b: Name): Name {
    if a.Some? then a.value else b
  }

  lemma NameStep(parse: ParseJid, d: Device, mu: Mutation, jid: Jid)
    ensures NameFor(Dispatch(parse, d, mu).names, jid)
         == if SetsName(parse, mu, jid) then NameOf(mu) else NameFor(d.names, jid)
  {
  }

  /** The name one-by-one dispatch leaves for a JID is the last one that was set. */
  lemma {:induction false} DispatchedName(parse: ParseJid, d: Device, mus: seq<Mutation>, jid: Jid)
    ensures NameFor(DispatchAll(parse, d, mus).names, jid) == OrElse(LastSet(parse, mus, jid), NameFor(d.names, jid))
  {
    if mus != [] {
      DispatchedName(parse, d, mus[..|mus| - 1], jid);
      NameStep(parse, DispatchAll(parse, d, mus[..|mus| - 1]), mus[|mus| - 1], jid);
    }
  }

  /** The entry that the bulk insert keeps for a JID. */
  function Kept(parse: ParseJid, rule: KeepRule, mus: seq<Mutation>, jid: Jid): Option<Name> {
    if rule == KeepFirst then FirstName(Entries(parse, mus), jid) else LastName(Entries(parse, mus), jid)
  }

  /** The name the mass-contact path leaves for a JID: one set by a mutation that the
      filter left in the rest, or else the kept entry, set or removed, or the old one. */
  lemma FastName(parse: ParseJid, rule: KeepRule, d: Device, mus: seq<Mutation>, jid: Jid)
    ensures NameFor(FastPath(parse, rule, d, mus).names, jid)
         == OrElse(LastSet(parse, Rest(mus), jid), OrElse(Kept(parse, rule, mus, jid), NameFor(d.names, jid)))
  {
    var es := Entries(parse, mus);
    DispatchedName(parse, d.(names := Bulk(rule, d.names, es)), Rest(mus), jid);
    BulkName(rule, d.names, es, jid);
  }

  lemma LastSetAppended(parse: ParseJid, mus: seq<Mutation>, mu: Mutation, jid: Jid)
    ensures LastSet(parse, mus + [mu], jid) == if SetsName(parse, mu, jid) then Some(NameOf(mu)) else LastSet(parse, mus, jid)
  {
    assert (mus + [mu])[..|mus|] == mus;
  }

  lemma SettingsStep(parse: ParseJid, a: Device, b: Device, mu: Mutation)
    requires SameSettings(a, b)
    ensures SameSettings(Dispatch(parse, a, mu), if IsContact(mu) then b else Dispatch(parse, b, mu))
  {
  }

  lemma {:induction false} SettingsFromRest(parse: ParseJid, d: Device, e: Device, mus: seq<Mutation>)
    requires SameSettings(d, e)
    ensures SameSettings(DispatchAll(parse, d, mus), DispatchAll(parse, e, Rest(mus)))
  {
    if mus != [] {
      var init, mu := mus[..|mus| - 1], mus[|mus| - 1];
      SettingsFromRest(parse, d, e, init);
      SettingsStep(parse, DispatchAll(parse, d, init), DispatchAll(parse, e, Rest(init)), mu);
      if !IsContact(mu) {
        assert (Rest(init) + [mu])[..|Rest(init)|] == Rest(init);
      }
    }
  }

  /** Both ways leave the same name for a JID. */
  predicate SameName(parse: ParseJid, rule: KeepRule, d: Device, mus: seq<Mutation>, jid: Jid) {
    var before := NameFor(d.names, jid);
    OrElse(LastSet(parse, Rest(mus), jid), OrElse(Kept(parse, rule, mus, jid), before)) == OrElse(LastSet(parse, mus, jid), before)
  }

  /** For every list of mutations the mass-contact path leaves the same store as
      one-by-one dispatch exactly if for every JID the entry it keeps, set or removed,
      gives the name of the last one that was set, with the old name where there is none;
      for the empty JID a mutation without a JID comes after all entries. */
  lemma FastPathRefinesDispatch(parse: ParseJid, rule: KeepRule, d: Device, mus: seq<Mutation>)
    ensures SameForReaders(FastPath(parse, rule, d, mus), DispatchAll(parse, d, mus))
       <==> forall jid :: SameName(parse, rule, d, mus, jid)
  {
    var fast, slow := FastPath(parse, rule, d, mus), DispatchAll(parse, d, mus);
    SettingsFromRest(parse, d, d.(names := Bulk(rule, d.names, Entries(parse, mus))), mus);
    forall jid ensures NameFor(fast.names, jid) == NameFor(slow.names, jid) <==> SameName(parse, rule, d, mus, jid) {
      FastName(parse, rule, d, mus, jid);
      DispatchedName(parse, d, mus, jid);
    }
  }

  lemma {:induction false} FirstIffLast(es: seq<ContactEntry>, jid: Jid)
    ensures FirstName(es, jid).Some? <==> LastName(es, jid).Some?
  {
    if es != [] {
      var init, last := es[..|es| - 1], es[|es| - 1];
      FirstIffLast(init, jid);
      assert es == init + [last];
      FirstOfAppended(init, last, jid);
    }
  }

  /** Every contact mutation is a SET that names a JID. */
  ghost predicate PlainContacts(mus: seq<Mutation>) {
    forall i :: 0 <= i < |mus| && mus[i].index.kind == ContactKind ==> mus[i].op == SET && mus[i].index.args != []
  }

  lemma {:induction false} PlainLast(parse: ParseJid, mus: seq<Mutation>, jid: Jid)
    requires PlainContacts(mus)
    ensures LastSet(parse, mus, jid) == LastName(Entries(parse, mus), jid) && LastSet(parse, Rest(mus), jid) == None
  {
    if mus != [] {
      var init, mu := mus[..|mus| - 1], mus[|mus| - 1];
      PlainLast(parse, init, jid);
      LastOfAppended(Entries(parse, init), EntryOf(parse, mu), jid);
      LastSetAppended(parse, Rest(init), mu, jid);
    }
  }

  lemma LastOfAppended(es: seq<ContactEntry>, e: ContactEntry, jid: Jid)
    ensures LastName(es + [e], jid) == if e.jid == jid then Some(e.name) else LastName(es, jid)
  {
    assert (es + [e])[..|es|] == es;
  }

  predicate KeepsLast(parse: ParseJid, rule: KeepRule, mus: seq<Mutation>, jid: Jid) {
    Kept(parse, rule, mus, jid) == LastName(Entries(parse, mus), jid)
  }

  lemma PlainNameAgreesIff(parse: ParseJid, rule: KeepRule, d: Device, mus: seq<Mutation>, jid: Jid)
    requires PlainContacts(mus)
    ensures SameName(parse, rule, d, mus, jid) <==> KeepsLast(parse, rule, mus, jid)
  {
    PlainLast(parse, mus, jid);
    FirstIffLast(Entries(parse, mus), jid);
  }

  /** If all contacts are set and name a JID, they agree always if the bulk insert keeps
      last entries, and otherwise exactly if first and last entry of every JID agree. */
  lemma PlainContactsAgreeIff(parse: ParseJid, rule: KeepRule, d: Device, mus: seq<Mutation>)
    requires PlainContacts(mus)
    ensures SameForReaders(FastPath(parse, rule, d, mus), DispatchAll(parse, d, mus))
       <==> forall jid :: KeepsLast(parse, rule, mus, jid)
    ensures rule == KeepLast ==> forall jid :: KeepsLast(parse, rule, mus, jid)
  {
    FastPathRefinesDispatch(parse, rule, d, mus);
    forall jid ensures SameName(parse, rule, d, mus, jid) <==> KeepsLast(parse, rule, mus, jid) {
      PlainNameAgreesIff(parse, rule, d, mus, jid);
    }
  }

  /** A removed contact is written by the bulk insert and skipped by dispatch. */
  lemma RemovedContactDiffers(parse: ParseJid, rule: KeepRule, d: Device, mu: Mutation)
    requires mu.op == REMOVE && IsContact(mu) && NameFor(d.names, JidOf(parse, mu)) != NameOf(mu)
    ensures !SameForReaders(FastPath(parse, rule, d, [mu]), DispatchAll(parse, d, [mu]))
  {
    var jid := JidOf(parse, mu);
    assert [mu][..0] == [];
    assert [] + [mu] == [mu];
    LastSetAppended(parse, [], mu, jid);
    assert Rest([mu]) == [];
    assert Entries(parse, [mu]) == [] + [EntryOf(parse, mu)] == [EntryOf(parse, mu)];
    LastOfAppended([], EntryOf(parse, mu), jid);
    FirstOfAppended([], EntryOf(parse, mu), jid);
    assert !SameName(parse, rule, d, [mu], jid);
    FastPathRefinesDispatch(parse, rule, d, [mu]);
  }

  /** A contact mutation without a JID stays in the rest and so overwrites the name of
      the empty JID, which a later one with an empty JID argument has set. */
  lemma EmptyJidDiffers(parse: ParseJid, rule: KeepRule, d: Device, a: Mutation, b: Mutation)
    requires parse("") == EMPTY_JID && a.op == SET && b.op == SET && NameOf(a) != NameOf(b)
    requires a.index == Index(ContactKind, []) && b.index == Index(ContactKind, [""])
    ensures !SameForReaders(FastPath(parse, rule, d, [a, b]), DispatchAll(parse, d, [a, b]))
  {
    var mus := [a, b];
    assert mus[..1] == [a] && [a][..0] == [];
    assert Rest([a]) == [] + [a] == [a] && Rest(mus) == Rest([a]);
    assert LastSet(parse, [a], EMPTY_JID) == Some(NameOf(a)) && LastSet(parse, mus, EMPTY_JID) == Some(NameOf(b));
    assert !SameName(parse, rule, d, mus, EMPTY_JID);
    FastPathRefinesDispatch(parse, rule, d, mus);
  }

  // ----- the code -----

  class DeviceStore {
    var device: Device

    constructor (device: Device)
      ensures this.device == device
    {
      this.device := device;
    }

    /** One transaction: `stored` is whether the database takes it. */
    method PutAllContactNames(rule: KeepRule, es: seq<ContactEntry>, stored: bool) returns (ok: bool)
      modifies this
      ensures ok <==> es == [] || stored
      ensures device == if ok then old(device).(names := Bulk(rule, old(device).names, es)) else old(device)
    {
      if es == [] {
        return true;
      } else if !stored {
        return false;
      }
      var names := device.names;
      var seen: set<Jid> := {};
      for i := 0 to |es|
        invariant names == Bulk(rule, device.names, es[..i])
        invariant forall jid :: jid in seen <==> exists j :: 0 <= j < i && es[j].jid == jid
      {
        assert es[..i + 1][..i] == es[..i];
        if rule == KeepLast || es[i].jid !in seen {
          names := names[es[i].jid := es[i].name];
        }
        seen := seen + {es[i].jid};
      }
      assert es[..|es|] == es;
      device := device.(names := names);
      return true;
    }

    static method Overwrite(a: array<Mutation>, kept: nat, mu: Mutation)
      requires kept < a.Length
      modifies a
      ensures a[..kept + 1] == old(a[..kept]) + [mu]
      ensures forall k :: kept < k < a.Length ==> a[k] == old(a[k])
    {
      a[kept] := mu;
    }

    /** The filtered slice shares its backing array with the slice being read. */
    static method FilterContacts(parse: ParseJid, a: array<Mutation>, len: nat)
      returns (kept: nat, es: seq<ContactEntry>)
      requires len <= a.Length
      modifies a
      ensures kept <= len && a[..kept] == Rest(old(a[..len])) && a[kept..] == old(a[kept..])
      ensures es == Entries(parse, old(a[..len]))
    {
      kept, es := 0, [];
      ghost var mus := a[..len];
      for i := 0 to len
        invariant kept <= i
        invariant a[..kept] == Rest(mus[..i])
        invariant forall k :: kept <= k < a.Length ==> a[k] == old(a[k])
        invariant es == Entries(parse, mus[..i])
      {
        FilterStep(parse, mus, i);
        var mu := a[i];
        assert mu == mus[i];
        if IsContact(mu) {
          es := es + [EntryOf(parse, mu)];
        } else {
          Overwrite(a, kept, mu);
          kept := kept + 1;
        }
      }
      assert mus[..len] == mus;
    }

    /** The store effects of collectEventsToDispatch; `fast` is its first guard. If the
        contacts cannot be stored nothing is. */
    method CollectEvents(parse: ParseJid, rule: KeepRule, a: array<Mutation>, len: nat, fast: bool, stored: bool)
      returns (ok: bool)
      requires len <= a.Length
      modifies this, a
      ensures ok <==> CanCollect(parse, fast, old(a[..len]), stored)
      ensures device == if ok then Collected(parse, rule, fast, old(device), old(a[..len])) else old(device)
    {
      var n := len;
      if fast {
        var es;
        n, es := FilterContacts(parse, a, len);
        ok := PutAllContactNames(rule, es, stored);
        if !ok {
          return;
        }
      }
      ghost var start, mus := device, a[..n];
      for i := 0 to n
        invariant a[..n] == mus && device == DispatchAll(parse, start, mus[..i])
      {
        assert mus[..i + 1][..i] == mus[..i];
        device := Dispatch(parse, device, a[i]);
      }
      assert mus[..n] == mus;
      return true;
    }
  }
}
