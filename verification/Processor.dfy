/** appstate/decode.go and appstate/encode.go: validating, decoding, storing and
    building patches. */
module Processor {
  import opened Wrappers
  import opened LtHash
  import opened AppStateLog
  import opened AppStateStore

  /** The store holds the replay of the first `hs.version` patches of the log. */
  ghost predicate Synced(expand: Expand, l: Local, log: seq<Patch>, hs: HashState) {
    && hs.version <= |log|
    && hs.hash == HashOf(expand, Replay(log, hs.version))
    && View(l.rows) == Replay(log, hs.version)
    && |l.rows| <= hs.version + 1
    && (l.row == Some(hs) || (l == Local(None, []) && hs.version == 0))
  }

  /** The version row is ahead of the MAC rows: the row already names the state
      after the last patch, whose added MACs never reached the table. */
  ghost predicate Torn(expand: Expand, l: Local, log: seq<Patch>, hs: HashState) {
    && 0 < hs.version <= |log|
    && SetTwice(log[hs.version - 1].mutations)
    && hs.hash == HashOf(expand, Replay(log, hs.version))
    && l.row == Some(hs)
    && View(l.rows) == Replay(log, hs.version - 1) - Gone(Collect(log[hs.version - 1].mutations))
  }

  function PatchMacOf(p: Patch, version: nat): PatchMac {
    PatchMac(p.keyId, p.snapshotMac, ValueMacs(p.mutations), version)
  }

  ghost predicate Readable(keys: set<Mac>, mus: seq<Mutation>) {
    forall i :: 0 <= i < |mus| ==> mus[i].keyId in keys && mus[i].intact
  }

  /** Both MACs of patch v of the log authenticate the true state. */
  ghost predicate Sealed(expand: Expand, log: seq<Patch>, v: nat)
    requires v < |log|
  {
    && log[v].snapshotMac == SnapshotMac(log[v].keyId, HashOf(expand, Replay(log, v + 1)), v + 1)
    && log[v].patchMac == PatchMacOf(log[v], v + 1)
  }

  /** Exactly the patches a synced client applies. */
  ghost predicate Accepts(expand: Expand, keys: set<Mac>, log: seq<Patch>, v: nat)
    requires v < |log|
  {
    && log[v].keyId in keys
    && Sealed(expand, log, v)
    && Readable(keys, log[v].mutations)
    && !SetTwice(log[v].mutations)
  }

  /** A snapshot lists the contents of some version, one record per index. */
  predicate FaithfulSnapshot(ss: Snapshot, log: seq<Patch>) {
    && ss.version <= |log|
    && DistinctIndexes(ss.records)
    && (forall i :: 0 <= i < |ss.records| ==> ss.records[i].op == SET)
    && ApplyAll(map[], ss.records) == Replay(log, ss.version)
  }

  ghost predicate SnapshotAccepted(expand: Expand, keys: set<Mac>, ss: Snapshot, log: seq<Patch>)
    requires ss.version <= |log|
  {
    && ss.keyId in keys
    && ss.mac == SnapshotMac(ss.keyId, HashOf(expand, Replay(log, ss.version)), ss.version)
    && Readable(keys, ss.records)
  }

  predicate DecodeFailure(e: SyncError) {
    e.KeyNotFound? || e.MismatchingLtHash? || e.MismatchingPatchMac? || e.UndecodableMutation? || e.DuplicateMacRow?
  }

  function Base(list: PatchList, from: nat): nat {
    if list.snapshot.Some? then list.snapshot.value.version else from
  }

  /** The list is a contiguous stretch of the log, after the requested version or
      after the snapshot it carries. */
  predicate FaithfulList(log: seq<Patch>, from: nat, list: PatchList) {
    && Base(list, from) + |list.patches| <= |log|
    && list.patches == log[Base(list, from)..Base(list, from) + |list.patches|]
    && (list.snapshot.Some? ==> FaithfulSnapshot(list.snapshot.value, log))
  }

  /** Every patch of the stretch is one that a synced client applies. */
  ghost predicate AllAccepted(expand: Expand, keys: set<Mac>, log: seq<Patch>, i: nat, j: nat)
    requires i <= j <= |log|
  {
    forall v :: i <= v < j ==> Accepts(expand, keys, log, v)
  }

  ghost predicate SnapshotPasses(expand: Expand, keys: set<Mac>, log: seq<Patch>, list: PatchList) {
    list.snapshot.Some? ==>
      list.snapshot.value.version <= |log| && SnapshotAccepted(expand, keys, list.snapshot.value, log)
  }

  /** The whole answer is one that a synced client applies. */
  ghost predicate ListAccepted(expand: Expand, keys: set<Mac>, log: seq<Patch>, from: nat, list: PatchList)
    requires FaithfulList(log, from, list)
  {
    && SnapshotPasses(expand, keys, log, list)
    && AllAccepted(expand, keys, log, Base(list, from), Base(list, from) + |list.patches|)
  }

  /** Mutation i is the first that cannot be read. */
  predicate FirstUnreadable(keys: set<Mac>, mus: seq<Mutation>, i: nat) {
    && i < |mus| && !(mus[i].keyId in keys && mus[i].intact)
    && (forall j :: 0 <= j < i ==> mus[j].keyId in keys && mus[j].intact)
  }

  /** What is reported of mutations that cannot all be read. */
  ghost predicate UnreadableFor(keys: set<Mac>, mus: seq<Mutation>, e: SyncError) {
    exists i: nat :: FirstUnreadable(keys, mus, i) && e == if mus[i].keyId !in keys then KeyNotFound else UndecodableMutation
  }

  /** What is reported of patch v of the log if a synced client refuses it: the first of
      its checks that fails. */
  ghost predicate RefusedFor(expand: Expand, keys: set<Mac>, log: seq<Patch>, v: nat, e: SyncError)
    requires v < |log|
  {
    var p := log[v];
    if p.keyId !in keys then e == KeyNotFound
    else if p.snapshotMac != SnapshotMac(p.keyId, HashOf(expand, Replay(log, v + 1)), v + 1) then e == MismatchingLtHash
    else if p.patchMac != PatchMacOf(p, v + 1) then e == MismatchingPatchMac
    else if !Readable(keys, p.mutations) then UnreadableFor(keys, p.mutations, e)
    else e == DuplicateMacRow && SetTwice(p.mutations)
  }

  ghost predicate SnapshotRefusedFor(expand: Expand, keys: set<Mac>, ss: Snapshot, log: seq<Patch>, e: SyncError)
    requires ss.version <= |log|
  {
    if ss.keyId !in keys then e == KeyNotFound
    else if ss.mac != SnapshotMac(ss.keyId, HashOf(expand, Replay(log, ss.version)), ss.version) then e == MismatchingLtHash
    else UnreadableFor(keys, ss.records, e)
  }

  /** Patch f is the first of the stretch that is refused, and the store has reached
      the version before it; after a primary key violation its own version. */
  ghost predicate StopsAt(expand: Expand, keys: set<Mac>, log: seq<Patch>, i: nat, j: nat, at: nat, e: SyncError)
    requires i <= j <= |log|
  {
    var f := if e == DuplicateMacRow then at - 1 else at;
    && i <= f < j && AllAccepted(expand, keys, log, i, f) && !Accepts(expand, keys, log, f)
    && RefusedFor(expand, keys, log, f, e)
  }

  /** Where decoding an answer that is not accepted stops. */
  ghost predicate ListStopsAt(expand: Expand, keys: set<Mac>, log: seq<Patch>, from: nat, list: PatchList, at: nat, e: SyncError)
    requires FaithfulList(log, from, list)
  {
    if SnapshotPasses(expand, keys, log, list)
    then StopsAt(expand, keys, log, Base(list, from), Base(list, from) + |list.patches|, at, e)
    else
      && at == from && e != DuplicateMacRow
      && (list.snapshot.value.version <= |log| ==> SnapshotRefusedFor(expand, keys, list.snapshot.value, log, e))
  }

  /** Something of an answer was stored although the answer as a whole was refused:
      a snapshot, a first patch, or the version row of a patch that sets an index twice. */
  ghost predicate PartlyStored(expand: Expand, keys: set<Mac>, log: seq<Patch>, from: nat, list: PatchList, e: SyncError)
    requires FaithfulList(log, from, list)
  {
    && SnapshotPasses(expand, keys, log, list)
    && (Base(list, from) > from
        || (|list.patches| > 0 && Accepts(expand, keys, log, Base(list, from)))
        || e == DuplicateMacRow)
  }

  /** A refused answer moves the store exactly if some of it was stored. */
  lemma StoppedBehind(expand: Expand, keys: set<Mac>, log: seq<Patch>, from: nat, list: PatchList, at: nat, e: SyncError)
    requires from <= Base(list, from) && FaithfulList(log, from, list)
    requires ListStopsAt(expand, keys, log, from, list, at, e)
    ensures from < at <==> PartlyStored(expand, keys, log, from, list, e)
  {
    if SnapshotPasses(expand, keys, log, list) && Base(list, from) == from && e != DuplicateMacRow {
      assert from < at ==> Accepts(expand, keys, log, from);
    }
  }

  /** The mutations a list stands for, in order. */
  function Delivered(list: PatchList): seq<Mutation> {
    (if list.snapshot.Some? then list.snapshot.value.records else []) + Mutations(list.patches, 0, |list.patches|)
  }

  lemma NothingSetTwice(mus: seq<Mutation>)
    requires DistinctIndexes(mus)
    ensures !SetTwice(mus)
  {
    forall i | 0 <= i < |mus| ensures SetsSinceRemove(mus, mus[i].indexMac) <= 1 {
      AtMostOneSet(mus, mus[i].indexMac);
    }
  }

  lemma {:induction false} AtMostOneSet(mus: seq<Mutation>, index: Mac)
    requires DistinctIndexes(mus)
    ensures SetsSinceRemove(mus, index) <= 1
  {
    if mus != [] {
      var init := mus[..|mus| - 1];
      AtMostOneSet(init, index);
      if SetsSinceRemove(init, index) > 0 {
        SetsArePresent(init, index);
      }
    }
  }

  lemma {:induction false} OnlySetsRemoveNothing(mus: seq<Mutation>)
    requires forall i :: 0 <= i < |mus| ==> mus[i].op == SET
    ensures Collect(mus).removed == []
  {
    if mus != [] {
      OnlySetsRemoveNothing(mus[..|mus| - 1]);
    }
  }

  /** What storing the batch of one patch does to the view. */
  lemma StoredView(rows: Rows, version: nat, mus: seq<Mutation>)
    requires |rows| <= version
    ensures var cleared := Without(rows, Gone(Collect(mus)));
      && |cleared| == |rows|
      && View(cleared) == View(rows) - Gone(Collect(mus))
      && (ViolatesKey(cleared, version, Collect(mus).added) <==> SetTwice(mus))
      && View(Inserted(cleared, version, Collect(mus).added)) == ApplyAll(View(rows), mus)
      && |Inserted(cleared, version, Collect(mus).added)| == version + 1
  {
    var out := Collect(mus);
    var cleared := Without(rows, Gone(out));
    ViewWithout(rows, Gone(out));
    ViewInserted(cleared, version, out.added);
    BatchIsReplay(View(rows), mus);
    RepeatsIffSetTwice(mus);
  }

  /** The hash a synced client computes for the next patch is that of the next contents. */
  lemma NextHashOfPatch(expand: Expand, l: Local, log: seq<Patch>, hs: HashState)
    requires Synced(expand, l, log, hs) && hs.version < |log|
    ensures NextHash(expand, PatchThenStore, hs.hash, View(l.rows), log[hs.version].mutations)
         == HashOf(expand, Replay(log, hs.version + 1))
  {
    HashIsOfContents(expand, PatchThenStore, View(l.rows), log[hs.version].mutations);
  }

  // ----- patches against whatever the store holds -----

  /** A version with its hash, and the contents that the table shows. */
  datatype Shown = Shown(state: HashState, contents: Contents)

  /** The checks of one patch. */
  ghost predicate Passes(expand: Expand, keys: set<Mac>, s: Shown, p: Patch) {
    && p.keyId in keys
    && p.snapshotMac == SnapshotMac(p.keyId, NextHash(expand, PatchThenStore, s.state.hash, s.contents, p.mutations), p.version)
    && p.patchMac == PatchMacOf(p, p.version)
    && Readable(keys, p.mutations)
    && !SetTwice(p.mutations)
  }

  /** The first of the checks that fails. */
  ghost predicate FailsFor(expand: Expand, keys: set<Mac>, s: Shown, p: Patch, e: SyncError) {
    if p.keyId !in keys then e == KeyNotFound
    else if p.snapshotMac != SnapshotMac(p.keyId, NextHash(expand, PatchThenStore, s.state.hash, s.contents, p.mutations), p.version)
    then e == MismatchingLtHash
    else if p.patchMac != PatchMacOf(p, p.version) then e == MismatchingPatchMac
    else if !Readable(keys, p.mutations) then UnreadableFor(keys, p.mutations, e)
    else e == DuplicateMacRow && SetTwice(p.mutations)
  }

  ghost function Next(expand: Expand, s: Shown, p: Patch): Shown {
    Shown(HashState(p.version, NextHash(expand, PatchThenStore, s.state.hash, s.contents, p.mutations)),
          ApplyAll(s.contents, p.mutations))
  }

  /** What the store shows after the first n patches. */
  ghost function Folded(expand: Expand, s: Shown, patches: seq<Patch>, n: nat): Shown
    requires n <= |patches|
  {
    if n == 0 then s else Next(expand, Folded(expand, s, patches, n - 1), patches[n - 1])
  }

  ghost predicate PassesAt(expand: Expand, keys: set<Mac>, s: Shown, patches: seq<Patch>, k: nat)
    requires k < |patches|
  {
    Passes(expand, keys, Folded(expand, s, patches, k), patches[k])
  }

  ghost predicate AllPass(expand: Expand, keys: set<Mac>, s: Shown, patches: seq<Patch>, n: nat)
    requires n <= |patches|
  {
    forall k :: 0 <= k < n ==> PassesAt(expand, keys, s, patches, k)
  }

  ghost predicate Continues(patches: seq<Patch>, version: nat) {
    forall k :: 0 <= k < |patches| ==> patches[k].version == version + k + 1
  }

  /** Storing a patch that passes goes on from the version row; if it sets an index
      twice, only the row moves on. */
  ghost predicate Applied(expand: Expand, l: Local, hs: HashState, p: Patch, ok: bool, l': Local) {
    var next := Next(expand, Shown(hs, View(l.rows)), p);
    && l'.row == Some(next.state) && |l'.rows| <= p.version + 1
    && View(l'.rows) == (if ok then next.contents else View(l.rows) - Gone(Collect(p.mutations)))
  }

  // ----- a store that is in sync -----

  /** What a store in sync shows at a version. */
  ghost function True(expand: Expand, log: seq<Patch>, v: nat): Shown
    requires v <= |log|
  {
    Shown(HashState(v, HashOf(expand, Replay(log, v))), Replay(log, v))
  }

  lemma NextOfTrue(expand: Expand, log: seq<Patch>, v: nat)
    requires Numbered(log) && v < |log|
    ensures Next(expand, True(expand, log, v), log[v]) == True(expand, log, v + 1)
  {
    HashIsOfContents(expand, PatchThenStore, Replay(log, v), log[v].mutations);
  }

  /** In sync, the patches that pass are those whose MACs authenticate the true state. */
  lemma PassesInSync(expand: Expand, keys: set<Mac>, log: seq<Patch>, v: nat)
    requires Numbered(log) && v < |log|
    ensures Passes(expand, keys, True(expand, log, v), log[v]) <==> Accepts(expand, keys, log, v)
  {
    NextOfTrue(expand, log, v);
  }

  /** Storing the next patch keeps the store in sync or leaves it torn. */
  lemma StoredPatch(expand: Expand, l: Local, log: seq<Patch>, hs: HashState, next: HashState)
    requires Synced(expand, l, log, hs) && hs.version < |log|
    requires next == HashState(hs.version + 1, HashOf(expand, Replay(log, hs.version + 1)))
    ensures
      var out := Collect(log[hs.version].mutations);
      var cleared := Without(l.rows, Gone(out));
      && (ViolatesKey(cleared, next.version, out.added) <==> SetTwice(log[hs.version].mutations))
      && Synced(expand, Local(Some(next), Inserted(cleared, next.version, out.added)), log, next)
      && (SetTwice(log[hs.version].mutations) ==> Torn(expand, Local(Some(next), cleared), log, next))
  {
    StoredView(l.rows, next.version, log[hs.version].mutations);
  }

  /** What ApplyPatch does on a store in sync: it applies exactly the accepted patches, and
      what it stores is in sync with the next version, or torn. */
  lemma AppliedInSync(expand: Expand, keys: set<Mac>, l: Local, log: seq<Patch>, hs: HashState)
    requires Numbered(log) && Synced(expand, l, log, hs) && hs.version < |log|
    ensures Passes(expand, keys, Shown(hs, View(l.rows)), log[hs.version]) <==> Accepts(expand, keys, log, hs.version)
    ensures forall l' :: Applied(expand, l, hs, log[hs.version], true, l') ==>
      Synced(expand, l', log, True(expand, log, hs.version + 1).state)
    ensures forall l' :: Applied(expand, l, hs, log[hs.version], false, l') && SetTwice(log[hs.version].mutations) ==>
      Torn(expand, l', log, True(expand, log, hs.version + 1).state)
  {
    NextHashOfPatch(expand, l, log, hs);
    PassesInSync(expand, keys, log, hs.version);
    assert Shown(hs, View(l.rows)) == True(expand, log, hs.version);
  }

  lemma FailsInSync(expand: Expand, keys: set<Mac>, log: seq<Patch>, v: nat, e: SyncError)
    requires Numbered(log) && v < |log|
    ensures FailsFor(expand, keys, True(expand, log, v), log[v], e) <==> RefusedFor(expand, keys, log, v, e)
  {
    NextOfTrue(expand, log, v);
  }

  predicate IsStretch(log: seq<Patch>, v: nat, patches: seq<Patch>) {
    Numbered(log) && v + |patches| <= |log| && patches == log[v..v + |patches|]
  }

  lemma {:induction false} FoldedInSync(expand: Expand, log: seq<Patch>, v: nat, patches: seq<Patch>, n: nat)
    requires IsStretch(log, v, patches) && n <= |patches|
    ensures Folded(expand, True(expand, log, v), patches, n) == True(expand, log, v + n)
  {
    if n > 0 {
      FoldedInSync(expand, log, v, patches, n - 1);
      NextOfTrue(expand, log, v + n - 1);
    }
  }

  lemma PassesAtInSync(expand: Expand, keys: set<Mac>, log: seq<Patch>, v: nat, patches: seq<Patch>, k: nat)
    requires IsStretch(log, v, patches) && k < |patches|
    ensures PassesAt(expand, keys, True(expand, log, v), patches, k) <==> Accepts(expand, keys, log, v + k)
  {
    FoldedInSync(expand, log, v, patches, k);
    PassesInSync(expand, keys, log, v + k);
  }

  /** Where the loop of DecodePatches stops on a store in sync: at the first patch that
      is not accepted. */
  lemma StoppedInSync(expand: Expand, keys: set<Mac>, log: seq<Patch>, v: nat, patches: seq<Patch>, n: nat)
    requires IsStretch(log, v, patches) && n <= |patches|
    requires AllPass(expand, keys, True(expand, log, v), patches, n)
    requires n < |patches| ==> !PassesAt(expand, keys, True(expand, log, v), patches, n)
    ensures AllAccepted(expand, keys, log, v, v + n) && (n < |patches| ==> !Accepts(expand, keys, log, v + n))
    ensures Folded(expand, True(expand, log, v), patches, n) == True(expand, log, v + n)
  {
    AllPassInSync(expand, keys, log, v, patches, n);
    if n < |patches| { PassesAtInSync(expand, keys, log, v, patches, n); }
    FoldedInSync(expand, log, v, patches, n);
  }

  /** And why. */
  lemma StopsInSync(expand: Expand, keys: set<Mac>, log: seq<Patch>, v: nat, patches: seq<Patch>, n: nat, e: SyncError)
    requires IsStretch(log, v, patches) && n < |patches| && AllAccepted(expand, keys, log, v, v + n)
    requires !Accepts(expand, keys, log, v + n)
    requires FailsFor(expand, keys, True(expand, log, v + n), patches[n], e)
    ensures StopsAt(expand, keys, log, v, v + |patches|, if e == DuplicateMacRow then v + n + 1 else v + n, e)
  {
    assert patches[n] == log[v + n];
    FailsInSync(expand, keys, log, v + n, e);
  }

  /** And what the store is then. */
  lemma LeftInSync(expand: Expand, l: Local, log: seq<Patch>, hs: HashState, patches: seq<Patch>, n: nat, torn: bool, l': Local)
    returns (at: HashState)
    requires Synced(expand, l, log, hs) && IsStretch(log, hs.version, patches) && n <= |patches|
    requires torn ==> n < |patches| && Reached(expand, True(expand, log, hs.version + n), Some(patches[n]), l')
    requires !torn ==> if n == 0 then l' == l else Reached(expand, True(expand, log, hs.version + n), None, l')
    ensures at == True(expand, log, hs.version + n + if torn then 1 else 0).state
    ensures torn ==> Torn(expand, l', log, at) && SetTwice(log[hs.version + n].mutations)
    ensures !torn ==> Synced(expand, l', log, at)
  {
    at := True(expand, log, hs.version + n + if torn then 1 else 0).state;
    if torn {
      ReachedTorn(expand, log, hs.version + n, l');
    } else if n > 0 {
      ReachedInSync(expand, log, hs.version + n, l');
    }
  }

  lemma AllPassInSync(expand: Expand, keys: set<Mac>, log: seq<Patch>, v: nat, patches: seq<Patch>, n: nat)
    requires IsStretch(log, v, patches) && n <= |patches| && AllPass(expand, keys, True(expand, log, v), patches, n)
    ensures AllAccepted(expand, keys, log, v, v + n)
  {
    forall u | v <= u < v + n ensures Accepts(expand, keys, log, u) {
      assert PassesAt(expand, keys, True(expand, log, v), patches, u - v);
      PassesAtInSync(expand, keys, log, v, patches, u - v);
    }
  }

  /** The store at a point of the loop: what it shows, and for a patch that sets an
      index twice only its version row. */
  ghost predicate Reached(expand: Expand, s: Shown, torn: Option<Patch>, l': Local) {
    if torn.Some? then
      && SetTwice(torn.value.mutations) && l'.row == Some(Next(expand, s, torn.value).state)
      && View(l'.rows) == s.contents - Gone(Collect(torn.value.mutations))
    else
      l'.row == Some(s.state) && View(l'.rows) == s.contents && |l'.rows| <= s.state.version + 1
  }

  lemma ReachedInSync(expand: Expand, log: seq<Patch>, v: nat, l': Local)
    requires v <= |log| && Reached(expand, True(expand, log, v), None, l')
    ensures Synced(expand, l', log, True(expand, log, v).state)
  {
  }

  lemma ReachedTorn(expand: Expand, log: seq<Patch>, v: nat, l': Local)
    requires Numbered(log) && v < |log| && Reached(expand, True(expand, log, v), Some(log[v]), l')
    ensures Torn(expand, l', log, True(expand, log, v + 1).state)
  {
    NextOfTrue(expand, log, v);
  }

  // ----- a store that is behind its version row -----

  /** The table may show something else than the log only for these indexes. */
  ghost predicate Behind(m: Contents, log: seq<Patch>, v: nat, stale: set<Mac>) {
    v <= |log| && forall k :: k !in stale ==> Get(m, k) == Get(Replay(log, v), k)
  }

  ghost function Touched(mus: seq<Mutation>): set<Mac> {
    set mu | mu in mus :: mu.indexMac
  }

  ghost function TouchedBy(patches: seq<Patch>, n: nat): set<Mac>
    requires n <= |patches|
  {
    if n == 0 then {} else TouchedBy(patches, n - 1) + Touched(patches[n - 1].mutations)
  }

  /** The indexes whose new values never reached the table. */
  ghost function NotStored(mus: seq<Mutation>): set<Mac> {
    BatchMap(Collect(mus).added).Keys
  }

  lemma TornIsBehind(expand: Expand, l: Local, log: seq<Patch>, hs: HashState)
    requires Torn(expand, l, log, hs)
    ensures Behind(View(l.rows), log, hs.version, NotStored(log[hs.version - 1].mutations))
  {
    BatchIsReplay(Replay(log, hs.version - 1), log[hs.version - 1].mutations);
  }

  /** Replaying mutations makes two contents agree on what they touch. */
  lemma {:induction false} TouchedAgree(a: Contents, b: Contents, mus: seq<Mutation>, k: Mac)
    requires Get(a, k) == Get(b, k) || k in Touched(mus)
    ensures Get(ApplyAll(a, mus), k) == Get(ApplyAll(b, mus), k)
  {
    if mus != [] && mus[|mus| - 1].indexMac != k {
      var init := mus[..|mus| - 1];
      if k in Touched(mus) {
        var i :| 0 <= i < |mus| && mus[i].indexMac == k;
        assert init[i] in init;
      }
      TouchedAgree(a, b, init, k);
    }
  }

  lemma BehindStep(m: Contents, log: seq<Patch>, v: nat, stale: set<Mac>)
    requires Behind(m, log, v, stale) && v < |log|
    ensures Behind(ApplyAll(m, log[v].mutations), log, v + 1, stale - Touched(log[v].mutations))
  {
    forall k | k !in stale - Touched(log[v].mutations)
      ensures Get(ApplyAll(m, log[v].mutations), k) == Get(Replay(log, v + 1), k)
    {
      TouchedAgree(m, Replay(log, v), log[v].mutations, k);
    }
  }

  /** Contents that agree on the indexes of a batch give the same values to remove. */
  lemma {:induction false} SameRemoved(a: Contents, b: Contents, mus: seq<Mutation>)
    requires forall k :: k in Touched(mus) ==> Get(a, k) == Get(b, k)
    ensures RemovedValues(PatchThenStore, a, mus) == RemovedValues(PatchThenStore, b, mus)
  {
    if mus != [] {
      var init, k := mus[..|mus| - 1], mus[|mus| - 1].indexMac;
      assert Touched(init) <= Touched(mus) && k in Touched(mus);
      SameRemoved(a, b, init);
      SearchBackIsReplay(a, init, k);
      SearchBackIsReplay(b, init, k);
      TouchedAgree(a, b, init, k);
    }
  }

  /** A patch that touches no stale index misses nothing. */
  lemma NothingStaleTouched(expand: Expand, m: Contents, log: seq<Patch>, v: nat, stale: set<Mac>)
    requires Behind(m, log, v, stale) && v < |log| && stale !! Touched(log[v].mutations)
    ensures NothingMissed(expand, PatchThenStore, Replay(log, v), m, log[v].mutations)
  {
    SameRemoved(m, Replay(log, v), log[v].mutations);
    NothingToMiss(expand, Replay(log, v), m, log[v].mutations);
  }

  lemma NothingToMiss(expand: Expand, m: Contents, seen: Contents, mus: seq<Mutation>)
    requires RemovedValues(PatchThenStore, seen, mus) == RemovedValues(PatchThenStore, m, mus)
    ensures NothingMissed(expand, PatchThenStore, m, seen, mus)
  {
  }

  /** The patches of a stretch, each with MACs for the true state. */
  ghost predicate SealedStretch(expand: Expand, log: seq<Patch>, v: nat, patches: seq<Patch>) {
    IsStretch(log, v, patches) && forall u :: v <= u < v + |patches| ==> Sealed(expand, log, u)
  }

  /** Patch k of the stretch finds in the table all that it has to remove from the hash. */
  ghost predicate FindsAll(expand: Expand, log: seq<Patch>, s: Shown, patches: seq<Patch>, k: nat)
    requires k < |patches| && s.state.version + k < |log|
  {
    var v := s.state.version + k;
    NothingMissed(expand, PatchThenStore, Replay(log, v), Folded(expand, s, patches, k).contents, log[v].mutations)
  }

  ghost predicate BehindAt(expand: Expand, log: seq<Patch>, v: nat, s: Shown, stale: set<Mac>) {
    && Behind(s.contents, log, v, stale)
    && s.state == HashState(v, HashOf(expand, Replay(log, v)))
  }

  lemma PassesBehind(expand: Expand, keys: set<Mac>, log: seq<Patch>, v: nat, s: Shown, stale: set<Mac>)
    requires Numbered(log) && v < |log| && BehindAt(expand, log, v, s, stale) && Sealed(expand, log, v)
    ensures Passes(expand, keys, s, log[v]) <==>
      Accepts(expand, keys, log, v) && NothingMissed(expand, PatchThenStore, Replay(log, v), s.contents, log[v].mutations)
    ensures Passes(expand, keys, s, log[v]) ==>
      BehindAt(expand, log, v + 1, Next(expand, s, log[v]), stale - Touched(log[v].mutations))
  {
    HashIsOfContentsIff(expand, PatchThenStore, Replay(log, v), s.contents, log[v].mutations);
    assert Replay(log, v + 1) == ApplyAll(Replay(log, v), log[v].mutations);
    BehindStep(s.contents, log, v, stale);
  }

  lemma LessStale(stale: set<Mac>, patches: seq<Patch>, n: nat)
    requires n < |patches|
    ensures stale - TouchedBy(patches, n + 1) == stale - TouchedBy(patches, n) - Touched(patches[n].mutations)
  {
  }

  /** A synced store would apply patch k, and this one finds what it has to remove. */
  ghost predicate FitsAt(expand: Expand, keys: set<Mac>, log: seq<Patch>, s: Shown, patches: seq<Patch>, k: nat)
    requires k < |patches| && s.state.version + k < |log|
  {
    Accepts(expand, keys, log, s.state.version + k) && FindsAll(expand, log, s, patches, k)
  }

  lemma PassesIffFits(
      expand: Expand, keys: set<Mac>, log: seq<Patch>, s: Shown, patches: seq<Patch>, k: nat, stale: set<Mac>)
    requires k < |patches| && SealedStretch(expand, log, s.state.version, patches)
    requires BehindAt(expand, log, s.state.version + k, Folded(expand, s, patches, k), stale)
    ensures PassesAt(expand, keys, s, patches, k) <==> FitsAt(expand, keys, log, s, patches, k)
  {
    assert patches[k] == log[s.state.version + k];
    PassesBehind(expand, keys, log, s.state.version + k, Folded(expand, s, patches, k), stale);
  }

  lemma BehindAfter(
      expand: Expand, keys: set<Mac>, log: seq<Patch>, s: Shown, patches: seq<Patch>, k: nat, before: set<Mac>, after: set<Mac>)
    requires k < |patches| && SealedStretch(expand, log, s.state.version, patches)
    requires BehindAt(expand, log, s.state.version + k, Folded(expand, s, patches, k), before)
    requires after == before - Touched(patches[k].mutations) && PassesAt(expand, keys, s, patches, k)
    ensures BehindAt(expand, log, s.state.version + k + 1, Folded(expand, s, patches, k + 1), after)
  {
    assert patches[k] == log[s.state.version + k];
    PassesBehind(expand, keys, log, s.state.version + k, Folded(expand, s, patches, k), before);
  }

  /** What the patches touch is no longer stale. */
  lemma {:induction false} BehindStays(
      expand: Expand, keys: set<Mac>, log: seq<Patch>, s: Shown, stale: set<Mac>, patches: seq<Patch>, n: nat)
    requires n <= |patches| && SealedStretch(expand, log, s.state.version, patches)
    requires BehindAt(expand, log, s.state.version, s, stale) && AllPass(expand, keys, s, patches, n)
    ensures BehindAt(expand, log, s.state.version + n, Folded(expand, s, patches, n), stale - TouchedBy(patches, n))
  {
    if n > 0 {
      assert PassesAt(expand, keys, s, patches, n - 1);
      BehindStays(expand, keys, log, s, stale, patches, n - 1);
      LessStale(stale, patches, n - 1);
      BehindAfter(expand, keys, log, s, patches, n - 1,
        stale - TouchedBy(patches, n - 1), stale - TouchedBy(patches, n));
    }
  }

  ghost predicate AllFit(expand: Expand, keys: set<Mac>, log: seq<Patch>, s: Shown, patches: seq<Patch>, n: nat)
    requires n <= |patches| && s.state.version + n <= |log|
  {
    forall k :: 0 <= k < n ==> FitsAt(expand, keys, log, s, patches, k)
  }

  lemma {:induction false} FitsPass(
      expand: Expand, keys: set<Mac>, log: seq<Patch>, s: Shown, stale: set<Mac>, patches: seq<Patch>, n: nat)
    requires n <= |patches| && SealedStretch(expand, log, s.state.version, patches)
    requires BehindAt(expand, log, s.state.version, s, stale) && AllFit(expand, keys, log, s, patches, n)
    ensures AllPass(expand, keys, s, patches, n)
  {
    if n > 0 {
      FitsPass(expand, keys, log, s, stale, patches, n - 1);
      BehindStays(expand, keys, log, s, stale, patches, n - 1);
      PassesIffFits(expand, keys, log, s, patches, n - 1, stale - TouchedBy(patches, n - 1));
    }
  }

  /** With nothing stale the contents are those of the log. */
  lemma NothingStale(m: Contents, log: seq<Patch>, v: nat)
    requires Behind(m, log, v, {})
    ensures m == Replay(log, v)
  {
    forall k ensures k in m <==> k in Replay(log, v) {
      assert Get(m, k) == Get(Replay(log, v), k);
    }
    forall k | k in m ensures m[k] == Replay(log, v)[k] {
      assert Get(m, k) == Get(Replay(log, v), k);
    }
  }

  /** A store that is behind applies patches exactly as long as a synced one would and
      they find in the table what they have to remove; once they have touched all that
      was stale, it shows what a synced one does. */
  lemma BehindApplies(
      expand: Expand, keys: set<Mac>, log: seq<Patch>, s: Shown, stale: set<Mac>, patches: seq<Patch>, n: nat)
    requires n <= |patches| && SealedStretch(expand, log, s.state.version, patches)
    requires BehindAt(expand, log, s.state.version, s, stale)
    ensures AllPass(expand, keys, s, patches, n) <==> AllFit(expand, keys, log, s, patches, n)
    ensures AllPass(expand, keys, s, patches, n) ==>
      && BehindAt(expand, log, s.state.version + n, Folded(expand, s, patches, n), stale - TouchedBy(patches, n))
      && (stale <= TouchedBy(patches, n) ==> Folded(expand, s, patches, n) == True(expand, log, s.state.version + n))
  {
    if AllPass(expand, keys, s, patches, n) {
      BehindStays(expand, keys, log, s, stale, patches, n);
      if stale <= TouchedBy(patches, n) {
        assert stale - TouchedBy(patches, n) == {};
        NothingStale(Folded(expand, s, patches, n).contents, log, s.state.version + n);
      }
      forall k | 0 <= k < n ensures FitsAt(expand, keys, log, s, patches, k) {
        BehindStays(expand, keys, log, s, stale, patches, k);
        assert PassesAt(expand, keys, s, patches, k);
        PassesIffFits(expand, keys, log, s, patches, k, stale - TouchedBy(patches, k));
      }
    } else if AllFit(expand, keys, log, s, patches, n) {
      FitsPass(expand, keys, log, s, stale, patches, n);
    }
  }

  /** A patch that sets an index twice tears the store of a new client; the next patch,
      which sets that index again, is then refused unless the lost value has only zero words. */
  lemma TornStoreRefuses(
      expand: Expand, keys: set<Mac>, l: Local, log: seq<Patch>, hs: HashState, a: Mutation, b: Mutation, c: Mutation)
    requires Numbered(log) && |log| == 2 && log[0].mutations == [a, b] && log[1].mutations == [c]
    requires a.op == SET && b.op == SET && c.op == SET && a.indexMac == b.indexMac == c.indexMac
    requires hs.version == 1 && Torn(expand, l, log, hs) && Sealed(expand, log, 1)
    ensures Passes(expand, keys, Shown(hs, View(l.rows)), log[1]) <==>
      Accepts(expand, keys, log, 1) && forall w :: 0 <= w < WORDS ==> expand(b.valueMac)[w] == 0
  {
    TornIsBehind(expand, l, log, hs);
    PassesBehind(expand, keys, log, 1, Shown(hs, View(l.rows)), NotStored(log[0].mutations));
    OneMissed(a, b, c);
    forall w | 0 <= w < WORDS
      ensures Missed(expand, PatchThenStore, Replay(log, 1), View(l.rows), [c], w) % 0x1_0000 == 0 <==> expand(b.valueMac)[w] == 0
    {
      assert [b.valueMac] == [] + [b.valueMac];
      SumOfAppended(expand, [], b.valueMac, w);
      assert Replay(log, 0) == map[] && Replay(log, 1) == ApplyAll(map[], [a, b]) && View(l.rows) == map[];
    }
  }

  lemma OneMissed(a: Mutation, b: Mutation, c: Mutation)
    requires a.op == SET && b.op == SET && c.op == SET && a.indexMac == b.indexMac == c.indexMac
    ensures RemovedValues(PatchThenStore, map[], [c]) == []
    ensures RemovedValues(PatchThenStore, ApplyAll(map[], [a, b]), [c]) == [b.valueMac]
  {
    assert [c][..0] == [] && [a, b][..1] == [a];
    var m := ApplyAll(map[], [a, b]);
    assert m == Apply(ApplyAll(map[], [a]), b);
    assert Previous(PatchThenStore, m, [c][..0], c.indexMac) == Some(b.valueMac);
    var none: Contents := map[];
    assert Previous(PatchThenStore, none, [c][..0], c.indexMac) == None;
    assert RemovedValues(PatchThenStore, m, [c]) == [] + [b.valueMac];
  }

  /** Synchrony with a log is synchrony with every longer log. */
  lemma SyncedWithLonger(expand: Expand, l: Local, log: seq<Patch>, longer: seq<Patch>, hs: HashState)
    requires log <= longer
    ensures Synced(expand, l, log, hs) ==> Synced(expand, l, longer, hs)
  {
    if hs.version <= |log| {
      PrefixKeeps(log, longer, 0, hs.version);
    }
  }

  /** A faithful list read against a longer log. */
  lemma FaithfulInLonger(log: seq<Patch>, longer: seq<Patch>, from: nat, list: PatchList)
    requires log <= longer && FaithfulList(log, from, list)
    ensures FaithfulList(longer, from, list)
  {
    PrefixKeeps(log, longer, 0, Base(list, from));
  }

  datatype Decoded = Decoded(state: HashState, mutations: seq<Mutation>)

  datatype MutationInfo = MutationInfo(indexMac: Mac, index: Index, action: Action)

  /** The encoded mutations are SETs of the requested indexes, in order. */
  ghost predicate Carries(mus: seq<Mutation>, keyId: Mac, infos: seq<MutationInfo>) {
    && |mus| == |infos|
    && forall i :: 0 <= i < |mus| ==>
      && mus[i].op == SET && mus[i].keyId == keyId && mus[i].intact
      && mus[i].indexMac == infos[i].indexMac && mus[i].index == infos[i].index && mus[i].action == infos[i].action
  }

  ghost predicate DistinctInfos(infos: seq<MutationInfo>) {
    forall i, j :: 0 <= i < j < |infos| ==> infos[i].indexMac != infos[j].indexMac
  }

  /** The SETs of a patch; `macs` are the value MACs that the random IVs lead to. */
  function OwnMutations(keyId: Mac, infos: seq<MutationInfo>, macs: nat -> Mac): (mus: seq<Mutation>)
    ensures Carries(mus, keyId, infos) && forall i :: 0 <= i < |mus| ==> mus[i].valueMac == macs(i)
  {
    seq(|infos|, i requires 0 <= i < |infos| =>
      Mutation(SET, keyId, infos[i].indexMac, macs(i), true, infos[i].index, infos[i].action))
  }

  /** The patch that EncodePatch builds on a state and the contents of the store. */
  ghost function OwnPatch(
      expand: Expand, keyId: Mac, hs: HashState, m: Contents, infos: seq<MutationInfo>, macs: nat -> Mac): (p: Patch)
    ensures p.keyId == keyId && Carries(p.mutations, keyId, infos) && EncodedFrom(expand, hs, m, p)
  {
    var mus := OwnMutations(keyId, infos, macs);
    var mac := SnapshotMac(keyId, NextHash(expand, StoreOnly, hs.hash, m, mus), hs.version + 1);
    Patch(hs.version + 1, keyId, mus, mac, PatchMac(keyId, mac, ValueMacs(mus), hs.version + 1))
  }

  /** What EncodePatch returns for a state and the contents of the store. */
  ghost predicate EncodedFrom(expand: Expand, hs: HashState, m: Contents, p: Patch) {
    && p.version == hs.version + 1
    && p.snapshotMac == SnapshotMac(p.keyId, NextHash(expand, StoreOnly, hs.hash, m, p.mutations), p.version)
    && p.patchMac == PatchMacOf(p, p.version)
  }

  lemma {:induction false} SetsAreCounted(mus: seq<Mutation>, i: nat)
    requires i < |mus| && forall k :: 0 <= k < |mus| ==> mus[k].op == SET
    ensures SetsSinceRemove(mus, mus[i].indexMac) >= 1
  {
    if i < |mus| - 1 {
      SetsAreCounted(mus[..|mus| - 1], i);
    }
  }

  lemma {:induction false} RepeatedSetsAreSetTwice(mus: seq<Mutation>, i: nat, j: nat)
    requires i < j < |mus| && mus[i].indexMac == mus[j].indexMac
    requires forall k :: 0 <= k < |mus| ==> mus[k].op == SET
    ensures SetsSinceRemove(mus, mus[i].indexMac) >= 2
  {
    if j < |mus| - 1 {
      RepeatedSetsAreSetTwice(mus[..|mus| - 1], i, j);
    } else {
      SetsAreCounted(mus[..|mus| - 1], i);
    }
  }

  /** Appended to the log it was encoded against, a patch of this client is applied
      by every synced client that has its key if and only if no index is repeated. */
  lemma OwnPatchAcceptedIff(
      expand: Expand, keys: set<Mac>, l: Local, log: seq<Patch>, hs: HashState, p: Patch, infos: seq<MutationInfo>)
    requires Synced(expand, l, log, hs) && hs.version == |log|
    requires p.keyId in keys && Carries(p.mutations, p.keyId, infos) && EncodedFrom(expand, hs, View(l.rows), p)
    ensures Accepts(expand, keys, log + [p], |log|) <==> DistinctInfos(infos)
  {
    PrefixKeeps(log, log + [p], 0, |log|);
    if DistinctInfos(infos) {
      NothingSetTwice(p.mutations);
      HashIsOfContents(expand, StoreOnly, Replay(log, |log|), p.mutations);
    } else {
      var i, j :| 0 <= i < j < |infos| && infos[i].indexMac == infos[j].indexMac;
      RepeatedSetsAreSetTwice(p.mutations, i, j);
      assert SetTwice(p.mutations);
    }
  }

  class Processor {
    const store: AppStateStore
    const expand: Expand
    var keys: set<Mac>

    constructor (store: AppStateStore, expand: Expand, keys: set<Mac>)
      ensures this.store == store && this.expand == expand && this.keys == keys
    {
      this.store, this.expand, this.keys := store, expand, keys;
    }

    /** The callback that updateHash is given. */
    method PreviousSetValueMac(lookup: Lookup, mus: seq<Mutation>, i: nat) returns (r: Option<Mac>)
      requires i < |mus|
      ensures r == Previous(lookup, View(store.rows), mus[..i], mus[i].indexMac)
    {
      if lookup == Never {
        return None;
      }
      var index := mus[i].indexMac;
      if lookup == PatchThenStore {
        var j := i;
        while j > 0
          invariant 0 <= j <= i
          invariant SearchBack(View(store.rows), mus[..i], index) == SearchBack(View(store.rows), mus[..j], index)
        {
          j := j - 1;
          assert mus[..j + 1][..j] == mus[..j];
          if mus[j].indexMac == index {
            return if mus[j].op == SET then Some(mus[j].valueMac) else None;
          }
        }
      }
      r := store.GetMac(index);
    }

    method UpdateHash(lookup: Lookup, hash: Lane, mus: seq<Mutation>) returns (r: Lane)
      ensures r == NextHash(expand, lookup, hash, View(store.rows), mus)
    {
      var added, removed: seq<Mac> := [], [];
      for i := 0 to |mus|
        invariant added == AddedValues(mus[..i])
        invariant removed == RemovedValues(lookup, View(store.rows), mus[..i])
      {
        assert mus[..i + 1][..i] == mus[..i];
        if mus[i].op == SET {
          added := added + [mus[i].valueMac];
        }
        var removal := PreviousSetValueMac(lookup, mus, i);
        if removal.Some? {
          removed := removed + [removal.value];
        }
      }
      assert mus[..|mus|] == mus;
      var base := new Word[WORDS](w requires 0 <= w < WORDS => hash[w]);
      SubtractThenAddInPlace(expand, base, removed, added);
      r := base[..];
    }

    method ValidatePatch(patch: Patch, hs: HashState) returns (r: Result<HashState, SyncError>)
      ensures
        var next := HashState(patch.version, NextHash(expand, PatchThenStore, hs.hash, View(store.rows), patch.mutations));
        r == if patch.keyId !in keys then Failure(KeyNotFound)
             else if patch.snapshotMac != SnapshotMac(patch.keyId, next.hash, next.version) then Failure(MismatchingLtHash)
             else if patch.patchMac != PatchMacOf(patch, patch.version) then Failure(MismatchingPatchMac)
             else Success(next)
    {
      var hash := UpdateHash(PatchThenStore, hs.hash, patch.mutations);
      if patch.keyId !in keys {
        return Failure(KeyNotFound);
      } else if SnapshotMac(patch.keyId, hash, patch.version) != patch.snapshotMac {
        return Failure(MismatchingLtHash);
      } else if PatchMacOf(patch, patch.version) != patch.patchMac {
        return Failure(MismatchingPatchMac);
      }
      return Success(HashState(patch.version, hash));
    }

    method DecodeMutations(mus: seq<Mutation>) returns (r: Result<Output, SyncError>)
      ensures r.Success? <==> Readable(keys, mus)
      ensures r.Success? ==> r.value == Collect(mus)
      ensures r.Failure? ==> UnreadableFor(keys, mus, r.error)
    {
      var out := Output([], []);
      for i := 0 to |mus|
        invariant Readable(keys, mus[..i]) && out == Collect(mus[..i])
      {
        var mu := mus[i];
        CollectAppended(mus[..i], mu);
        assert mus[..i + 1] == mus[..i] + [mu];
        assert !(mu.keyId in keys && mu.intact) ==> FirstUnreadable(keys, mus, i);
        if mu.keyId !in keys {
          return Failure(KeyNotFound);
        } else if !mu.intact {
          return Failure(UndecodableMutation);
        }
        out := if mu.op == REMOVE
          then Output(out.removed + [mu.indexMac], DropIndex(out.added, mu.indexMac))
          else Output(out.removed, out.added + [MacRow(mu.indexMac, mu.valueMac)]);
      }
      assert mus[..|mus|] == mus;
      return Success(out);
    }

    /** Three separate statements, without a transaction around them. */
    method StoreMacs(hs: HashState, out: Output) returns (ok: bool)
      modifies store
      ensures store.row == Some(hs)
      ensures var cleared := Without(old(store.rows), Gone(out));
        && (ok <==> !ViolatesKey(cleared, hs.version, out.added))
        && store.rows == if ok then Inserted(cleared, hs.version, out.added) else cleared
    {
      store.PutVersion(hs);
      store.DeleteMacs(out.removed);
      ok := store.PutMacs(hs.version, out.added);
    }

    /** One round of the loop of DecodePatches, whatever the store holds. */
    method ApplyPatch(patch: Patch, hs: HashState) returns (r: Result<HashState, SyncError>)
      requires |store.rows| <= patch.version
      modifies store
      ensures r.Success? <==> Passes(expand, keys, Shown(hs, View(old(store.rows))), patch)
      ensures r.Success? ==> store.row == Some(r.value)
      ensures r.Failure? && r.error != DuplicateMacRow ==> store.Value() == old(store.Value())
      ensures r.Success? || r.error == DuplicateMacRow ==>
        Applied(expand, old(store.Value()), hs, patch, r.Success?, store.Value())
      ensures r.Failure? ==> DecodeFailure(r.error) && FailsFor(expand, keys, Shown(hs, View(old(store.rows))), patch, r.error)
    {
      var next := ValidatePatch(patch, hs);
      if next.Failure? {
        return Failure(next.error);
      }
      var out := DecodeMutations(patch.mutations);
      if out.Failure? {
        return Failure(out.error);
      }
      StoredView(store.rows, patch.version, patch.mutations);
      var ok := StoreMacs(next.value, out.value);
      if !ok {
        return Failure(DuplicateMacRow);
      }
      return Success(next.value);
    }

    method DecodeSnapshot(ss: Snapshot, hs: HashState, ghost log: seq<Patch>)
      returns (r: Result<HashState, SyncError>)
      requires FaithfulSnapshot(ss, log)
      requires hs == HashState(0, ZERO) && store.Value() == Local(None, [])
      modifies store
      ensures r.Success? <==> SnapshotAccepted(expand, keys, ss, log)
      ensures r.Success? ==> r.value.version == ss.version && Synced(expand, store.Value(), log, r.value)
      ensures r.Failure? ==> store.Value() == old(store.Value())
      ensures r.Failure? ==> DecodeFailure(r.error) && r.error != DuplicateMacRow
      ensures r.Failure? ==> SnapshotRefusedFor(expand, keys, ss, log, r.error)
    {
      EmptyHash(expand);
      HashIsOfContents(expand, Never, map[], ss.records);
      var hash := UpdateHash(Never, hs.hash, ss.records);
      var next := HashState(ss.version, hash);
      if ss.keyId !in keys {
        return Failure(KeyNotFound);
      } else if SnapshotMac(ss.keyId, hash, ss.version) != ss.mac {
        return Failure(MismatchingLtHash);
      }
      var out := DecodeMutations(ss.records);
      if out.Failure? {
        return Failure(out.error);
      }
      NothingSetTwice(ss.records);
      OnlySetsRemoveNothing(ss.records);
      StoredView(store.rows, ss.version, ss.records);
      var ok := StoreMacs(next, out.value);
      return Success(next);
    }

    /** The loop of DecodePatches, whatever the store holds: the first n patches pass, and
        the store shows what is after them. */
    method ApplyPatches(patches: seq<Patch>, hs: HashState, ghost s: Shown) returns (r: Result<HashState, SyncError>, ghost n: nat)
      requires s == Shown(hs, View(store.rows))
      requires |store.rows| <= hs.version + 1 && Continues(patches, hs.version)
      modifies store
      ensures n <= |patches| && AllPass(expand, keys, s, patches, n)
      ensures r.Success? <==> n == |patches|
      ensures r.Failure? ==> DecodeFailure(r.error) && !PassesAt(expand, keys, s, patches, n)
      ensures r.Failure? ==>
        FailsFor(expand, keys, Folded(expand, s, patches, n), patches[n], r.error)
      ensures r.Success? ==> r.value == Folded(expand, s, patches, n).state
      // the store has what the first n patches leave, and the row of one that sets an index twice
      ensures r.Failure? && r.error == DuplicateMacRow ==>
        Reached(expand, Folded(expand, s, patches, n), Some(patches[n]), store.Value())
      ensures (r.Failure? ==> r.error != DuplicateMacRow) ==>
        if n == 0 then store.Value() == old(store.Value())
        else Reached(expand, Folded(expand, s, patches, n), None, store.Value())
    {
      var state := hs;
      n := 0;
      for i := 0 to |patches|
        invariant n == i && AllPass(expand, keys, s, patches, i) && Shown(state, View(store.rows)) == Folded(expand, s, patches, i)
        invariant if i == 0 then store.Value() == old(store.Value()) else store.row == Some(state)
        invariant state.version == hs.version + i && |store.rows| <= state.version + 1
      {
        var next := ApplyPatch(patches[i], state);
        if next.Failure? {
          return Failure(next.error), n;
        }
        state := next.value;
        n := n + 1;
      }
      return Success(state), n;
    }

    /** The same loop on a store that is in sync. On failure `at` is the state it has reached. */
    method ApplyPatchesInSync(patches: seq<Patch>, hs: HashState, ghost log: seq<Patch>)
      returns (r: Result<HashState, SyncError>, ghost at: HashState)
      requires Synced(expand, store.Value(), log, hs) && IsStretch(log, hs.version, patches)
      modifies store
      ensures r.Success? <==> AllAccepted(expand, keys, log, hs.version, hs.version + |patches|)
      ensures r.Success? ==> at == r.value && at.version == hs.version + |patches|
      ensures r.Failure? ==> StopsAt(expand, keys, log, hs.version, hs.version + |patches|, at.version, r.error)
      ensures patches == [] ==> store.Value() == old(store.Value())
      ensures if r.Failure? && r.error == DuplicateMacRow
        then Torn(expand, store.Value(), log, at) else Synced(expand, store.Value(), log, at)
      ensures r.Failure? ==> DecodeFailure(r.error)
    {
      ghost var l := store.Value();
      ghost var n;
      assert Shown(hs, View(l.rows)) == True(expand, log, hs.version);
      r, n := ApplyPatches(patches, hs, True(expand, log, hs.version));
      StoppedInSync(expand, keys, log, hs.version, patches, n);
      if r.Failure? { StopsInSync(expand, keys, log, hs.version, patches, n, r.error); }
      at := LeftInSync(expand, l, log, hs, patches, n, r.Failure? && r.error == DuplicateMacRow, store.Value());
    }

    /** DecodePatches: the mutations reach the caller exactly if the snapshot and every
        patch of the list was applied. */
    method DecodePatches(list: PatchList, hs: HashState, ghost log: seq<Patch>)
      returns (r: Result<Decoded, SyncError>, ghost at: HashState)
      requires Numbered(log) && Synced(expand, store.Value(), log, hs)
      requires FaithfulList(log, hs.version, list)
      requires list.snapshot.Some? ==> hs == HashState(0, ZERO) && store.Value() == Local(None, [])
      modifies store
      ensures r.Success? <==> ListAccepted(expand, keys, log, hs.version, list)
      ensures r.Success? ==>
        && at == r.value.state
        && at.version == Base(list, hs.version) + |list.patches|
        && r.value.mutations == Delivered(list)
      ensures r.Failure? ==> ListStopsAt(expand, keys, log, hs.version, list, at.version, r.error)
      ensures list.snapshot.None? && list.patches == [] ==> store.Value() == old(store.Value())
      ensures if r.Failure? && r.error == DuplicateMacRow
        then Torn(expand, store.Value(), log, at) else Synced(expand, store.Value(), log, at)
      ensures r.Failure? ==> DecodeFailure(r.error)
    {
      var state := hs;
      at := hs;
      if list.snapshot.Some? {
        var d := DecodeSnapshot(list.snapshot.value, hs, log);
        if d.Failure? {
          return Failure(d.error), at;
        }
        state := d.value;
      }
      var next;
      next, at := ApplyPatchesInSync(list.patches, state, log);
      if next.Failure? {
        return Failure(next.error), at;
      }
      return Success(Decoded(next.value, Delivered(list))), at;
    }

    /** EncodePatch */
    method EncodePatch(keyId: Mac, hs: HashState, infos: seq<MutationInfo>, macs: nat -> Mac)
      returns (r: Result<Patch, SyncError>)
      ensures r.Success? <==> keyId in keys
      ensures r.Failure? ==> r.error == KeyNotFound
      ensures r.Success? ==> r.value == OwnPatch(expand, keyId, hs, View(store.rows), infos, macs)
      ensures r.Success? ==>
        r.value.keyId == keyId && Carries(r.value.mutations, keyId, infos)
        && EncodedFrom(expand, hs, View(store.rows), r.value)
    {
      if keyId !in keys {
        return Failure(KeyNotFound);
      }
      var mus: seq<Mutation> := [];
      for i := 0 to |infos|
        invariant |mus| == i && forall k :: 0 <= k < i ==> mus[k] == OwnMutations(keyId, infos, macs)[k]
      {
        mus := mus + [Mutation(SET, keyId, infos[i].indexMac, macs(i), true, infos[i].index, infos[i].action)];
      }
      assert mus == OwnMutations(keyId, infos, macs);
      var hash := UpdateHash(StoreOnly, hs.hash, mus);
      var mac := SnapshotMac(keyId, hash, hs.version + 1);
      return Success(Patch(hs.version + 1, keyId, mus, mac, PatchMac(keyId, mac, ValueMacs(mus), hs.version + 1)));
    }
  }
}
