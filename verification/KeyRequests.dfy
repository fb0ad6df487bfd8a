/** requestMissingAppStateKeys in appstate.go: at most one request per key and day. */
module KeyRequests {
  import opened LtHash

  /** Nanoseconds; 0 is the zero time, which a missing map entry reads as. */
  type Instant = int
  const DAY: Instant := 24 * 3600 * 1_000_000_000

  datatype Request = Request(key: Mac, at: Instant)

  predicate Due(table: map<Mac, Instant>, r: Request) {
    var last := if r.key in table then table[r.key] else 0;
    last == 0 || last + DAY < r.at
  }

  /** The table after looking at some missing keys, each at some time. */
  function Table(seen: seq<Request>): map<Mac, Instant> {
    if seen == [] then map[]
    else
      var before, r := Table(seen[..|seen| - 1]), seen[|seen| - 1];
      if Due(before, r) then before[r.key := r.at] else before
  }

  /** The requests that were recorded. */
  function Granted(seen: seq<Request>): seq<Request> {
    if seen == [] then []
    else
      var before, r := Granted(seen[..|seen| - 1]), seen[|seen| - 1];
      if Due(Table(seen[..|seen| - 1]), r) then before + [r] else before
  }

  /** Requests extended by one for each of the keys, all at one time. */
  function Then(rs: seq<Request>, keys: seq<Mac>, now: Instant): seq<Request> {
    if keys == [] then rs else Then(rs, keys[..|keys| - 1], now) + [Request(keys[|keys| - 1], now)]
  }

  lemma {:induction false} ThenAt(rs: seq<Request>, keys: seq<Mac>, now: Instant)
    ensures |Then(rs, keys, now)| == |rs| + |keys|
    ensures forall i :: 0 <= i < |keys| ==> Then(rs, keys, now)[|rs| + i] == Request(keys[i], now)
  {
    if keys != [] {
      ThenAt(rs, keys[..|keys| - 1], now);
    }
  }

  lemma ThenAppended(rs: seq<Request>, keys: seq<Mac>, key: Mac, now: Instant)
    ensures Then(rs, keys + [key], now) == Then(rs, keys, now) + [Request(key, now)]
  {
    assert (keys + [key])[..|keys|] == keys;
  }

  lemma Looked(seen: seq<Request>, r: Request)
    ensures Table(seen + [r]) == if Due(Table(seen), r) then Table(seen)[r.key := r.at] else Table(seen)
    ensures Granted(seen + [r]) == if Due(Table(seen), r) then Granted(seen) + [r] else Granted(seen)
  {
    assert (seen + [r])[..|seen|] == seen;
  }

  ghost predicate Spaced(rs: seq<Request>) {
    forall i, j :: 0 <= i < j < |rs| && rs[i].key == rs[j].key ==> rs[i].at + DAY < rs[j].at
  }

  predicate AfterEpoch(rs: seq<Request>) {
    forall i :: 0 <= i < |rs| ==> rs[i].at > 0
  }

  /** Any two recorded requests for one key are more than a day apart, whatever the
      clock does; so one call, whose requests share a time, records a key once. */
  lemma {:induction false} GrantsAreSpaced(seen: seq<Request>)
    requires AfterEpoch(seen)
    ensures Spaced(Granted(seen))
    ensures forall r :: r in Granted(seen) ==> r.key in Table(seen) && r.at <= Table(seen)[r.key]
    ensures forall k :: k in Table(seen) ==> Table(seen)[k] > 0
  {
    if seen != [] {
      var init, r := seen[..|seen| - 1], seen[|seen| - 1];
      GrantsAreSpaced(init);
      forall i | 0 <= i < |Granted(init)| && Granted(init)[i].key == r.key && Due(Table(init), r)
        ensures Granted(init)[i].at + DAY < r.at
      {
        assert Granted(init)[i] in Granted(init);
      }
    }
  }

  /** The table knows the latest recorded request of a key. */
  lemma {:induction false} TableIsLatest(seen: seq<Request>, key: Mac)
    requires AfterEpoch(seen)
    ensures key in Table(seen) <==> exists i :: 0 <= i < |Granted(seen)| && Granted(seen)[i].key == key
    ensures key in Table(seen) ==> Request(key, Table(seen)[key]) in Granted(seen)
  {
    if seen != [] {
      var init, r := seen[..|seen| - 1], seen[|seen| - 1];
      TableIsLatest(init, key);
      assert seen == init + [r];
      Looked(init, r);
      AppendedHas(Granted(init), r, key);
    }
  }

  lemma AppendedHas(rs: seq<Request>, r: Request, key: Mac)
    ensures (exists i :: 0 <= i < |rs + [r]| && (rs + [r])[i].key == key)
       <==> r.key == key || exists i :: 0 <= i < |rs| && rs[i].key == key
    ensures forall x :: x in rs + [r] <==> x in rs || x == r
  {
    assert (rs + [r])[|rs|] == r;
    if i :| 0 <= i < |rs| && rs[i].key == key { assert (rs + [r])[i].key == key; }
  }

  /** A request for the key was recorded 24 hours ago or less. */
  predicate Recent(granted: seq<Request>, key: Mac, now: Instant) {
    exists i :: 0 <= i < |granted| && granted[i].key == key && now <= granted[i].at + 86_400_000_000_000
  }

  /** A key is requested exactly if none of the recorded requests for it is recent. */
  lemma GrantedIff(seen: seq<Request>, r: Request)
    requires AfterEpoch(seen)
    ensures Granted(seen + [r]) == if Recent(Granted(seen), r.key, r.at) then Granted(seen) else Granted(seen) + [r]
  {
    Looked(seen, r);
    GrantsAreSpaced(seen);
    TableIsLatest(seen, r.key);
    var g := Granted(seen);
    if i :| 0 <= i < |g| && g[i].key == r.key && r.at <= g[i].at + DAY {
      assert g[i] in g;
    }
    if r.key in Table(seen) {
      var i :| 0 <= i < |g| && g[i] == Request(r.key, Table(seen)[r.key]);
      if !Due(Table(seen), r) { assert Recent(g, r.key, r.at); }
    }
  }

  /** One call never records a key twice, even if the missing list repeats it. */
  lemma OncePerCall(seen: seq<Request>, before: seq<Request>, sent: seq<Mac>, now: Instant)
    requires AfterEpoch(seen) && Granted(seen) == Then(before, sent, now)
    ensures forall i, j :: 0 <= i < j < |sent| ==> sent[i] != sent[j]
  {
    GrantsAreSpaced(seen);
    ThenAt(before, sent, now);
    forall i, j | 0 <= i < j < |sent| ensures sent[i] != sent[j] {
      var g := Granted(seen);
      assert g[|before| + i] == Request(sent[i], now) && g[|before| + j] == Request(sent[j], now);
    }
  }

  /** What one call has sent is recent for the rest of it. */
  lemma RecentAfter(before: seq<Request>, sent: seq<Mac>, key: Mac, now: Instant)
    ensures Recent(Then(before, sent, now), key, now) <==> Recent(before, key, now) || key in sent
  {
    ThenAt(before, sent, now);
    ThenKeeps(before, sent, now);
    var all := Then(before, sent, now);
    if i :| 0 <= i < |before| && before[i].key == key && now <= before[i].at + DAY { assert all[i] == before[i]; }
    if i :| 0 <= i < |sent| && sent[i] == key { assert all[|before| + i] == Request(key, now); }
    if i :| 0 <= i < |all| && all[i].key == key && now <= all[i].at + DAY {
      if i < |before| { assert all[i] == before[i]; } else { assert all[|before| + (i - |before|)] == Request(sent[i - |before|], now); }
    }
  }

  lemma {:induction false} ThenKeeps(rs: seq<Request>, keys: seq<Mac>, now: Instant)
    ensures |Then(rs, keys, now)| >= |rs| && Then(rs, keys, now)[..|rs|] == rs
  {
    if keys != [] { ThenKeeps(rs, keys[..|keys| - 1], now); }
  }

  /** How often and when a key was requested. */
  function Times(rs: seq<Request>, key: Mac): seq<Instant> {
    if rs == [] then []
    else
      var init, last := Times(rs[..|rs| - 1], key), rs[|rs| - 1];
      if last.key == key then init + [last.at] else init
  }

  lemma {:induction false} TimesAreRequests(rs: seq<Request>, key: Mac, t: Instant)
    requires t in Times(rs, key)
    ensures exists i :: 0 <= i < |rs| && rs[i] == Request(key, t)
  {
    var init := rs[..|rs| - 1];
    if t in Times(init, key) {
      TimesAreRequests(init, key, t);
    } else {
      assert rs[|rs| - 1] == Request(key, t);
    }
  }

  /** k requests for one key span more than k - 1 days. */
  lemma {:induction false} RequestsSpanDays(rs: seq<Request>, key: Mac)
    requires Spaced(rs) && |Times(rs, key)| > 1
    ensures Times(rs, key)[|Times(rs, key)| - 1] - Times(rs, key)[0] > DAY * (|Times(rs, key)| - 1)
  {
    var init, last := rs[..|rs| - 1], rs[|rs| - 1];
    var before := Times(init, key);
    if |before| > 1 {
      RequestsSpanDays(init, key);
    }
    if last.key == key {
      TimesAreRequests(init, key, before[|before| - 1]);
      var i :| 0 <= i < |init| && init[i] == Request(key, before[|before| - 1]);
      assert rs[i].at + DAY < last.at;
    }
  }

  class KeyRequester {
    var appStateKeyRequests: map<Mac, Instant>
    /** Every missing key looked at so far, with the time of the call. */
    ghost var seen: seq<Request>

    ghost predicate Valid()
      reads this
    {
      AfterEpoch(seen) && appStateKeyRequests == Table(seen)
    }

    constructor ()
      ensures Valid() && seen == []
    {
      appStateKeyRequests, seen := map[], [];
    }

    /** The body of the loop. */
    method LookAt(key: Mac, now: Instant) returns (due: bool)
      requires Valid() && now > 0
      modifies this
      ensures Valid() && seen == old(seen) + [Request(key, now)]
      ensures Granted(seen) == if due then Granted(old(seen)) + [Request(key, now)] else Granted(old(seen))
      ensures due <==> !Recent(Granted(old(seen)), key, now)
    {
      GrantedIff(seen, Request(key, now));
      var last := if key in appStateKeyRequests then appStateKeyRequests[key] else 0;
      Looked(seen, Request(key, now));
      due := last == 0 || last + DAY < now;
      if due {
        appStateKeyRequests := appStateKeyRequests[key := now];
      }
      seen := seen + [Request(key, now)];
    }

    /** `sent` goes into one message, which is not sent if there is nothing in it. */
    method RequestMissingKeys(rawKeyIds: seq<Mac>, now: Instant) returns (sent: seq<Mac>)
      requires Valid() && now > 0
      modifies this
      ensures Valid() && seen == Then(old(seen), rawKeyIds, now)
      ensures Granted(seen) == Then(Granted(old(seen)), sent, now)
      ensures forall i, j :: 0 <= i < j < |sent| ==> sent[i] != sent[j]
      ensures forall key :: key in sent <==> key in rawKeyIds && !Recent(Granted(old(seen)), key, now)
    {
      sent := [];
      ghost var start := seen;
      for n := 0 to |rawKeyIds|
        invariant Valid()
        invariant seen == Then(start, rawKeyIds[..n], now)
        invariant Granted(seen) == Then(Granted(start), sent, now)
        invariant forall key :: key in sent <==> key in rawKeyIds[..n] && !Recent(Granted(start), key, now)
      {
        RecentAfter(Granted(start), sent, rawKeyIds[n], now);
        var key := rawKeyIds[n];
        ThenAppended(start, rawKeyIds[..n], key, now);
        assert rawKeyIds[..n + 1] == rawKeyIds[..n] + [key];
        ThenAppended(Granted(start), sent, key, now);
        var due := LookAt(key, now);
        if due {
          sent := sent + [key];
        }
      }
      assert rawKeyIds[..|rawKeyIds|] == rawKeyIds;
      OncePerCall(seen, Granted(start), sent, now);
    }
  }
}
