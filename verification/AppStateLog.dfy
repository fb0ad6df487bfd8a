/** One app state collection as the server keeps it: an append-only log of
    patches, each a list of SET and REMOVE mutations on index MACs. The meaning
    of a log prefix is the map from index MAC to current value MAC. */
module AppStateLog {
  import opened Wrappers
  import opened LtHash

  datatype Operation = SET | REMOVE

  /** The first element of a mutation index: what the mutation is about. */
  datatype Kind = ContactKind | MuteKind | PinKind | ArchiveKind | PushNameKind | OtherKind(name: string)

  /** A mutation index, which is never empty: `Index[0]` and the rest. */
  datatype Index = Index(kind: Kind, args: seq<string>)

  /** The decoded payload of a mutation, as far as the device store uses it. */
  datatype Action =
    | Contact(firstName: string, fullName: string)
    | Mute(muted: bool, endTimestamp: int)
    | Pin(pinned: bool)
    | Archive(archived: bool)
    | PushName(name: string)
    | OtherAction

  /** `intact` says that the content MAC check, the decryption, the index MAC
      check and the unmarshalling of the mutation succeed under its key. */
  datatype Mutation = Mutation(
    op: Operation, keyId: Mac, indexMac: Mac, valueMac: Mac, intact: bool,
    index: Index, action: Action)

  /** A MAC over (hash, version) or over a patch, as the tuple it authenticates. */
  datatype SnapshotMac = SnapshotMac(keyId: Mac, hash: Lane, version: nat)
  datatype PatchMac = PatchMac(keyId: Mac, snapshotMac: SnapshotMac, values: seq<Mac>, version: nat)

  datatype Patch = Patch(
    version: nat, keyId: Mac, mutations: seq<Mutation>, snapshotMac: SnapshotMac, patchMac: PatchMac)

  datatype Snapshot = Snapshot(version: nat, keyId: Mac, records: seq<Mutation>, mac: SnapshotMac)

  datatype PatchList = PatchList(hasMore: bool, patches: seq<Patch>, snapshot: Option<Snapshot>)

  datatype HashState = HashState(version: nat, hash: Lane)

  datatype SyncError =
    | InvalidSavedVersion
    | TransportFailure
    | UnexpectedSnapshot
    | NonEmptyInputState
    | KeyNotFound
    | MismatchingLtHash
    | MismatchingPatchMac
    | UndecodableMutation
    | DuplicateMacRow
    | ContactStoreFailed
    | NoAppStateKeys
    | UpdateRejected

  type Contents = map<Mac, Mac>

  // ----- the meaning of mutations, patches and logs -----

  function Apply(m: Contents, mu: Mutation): Contents {
    match mu.op
    case SET => m[mu.indexMac := mu.valueMac]
    case REMOVE => m - {mu.indexMac}
  }

  function ApplyAll(m: Contents, mus: seq<Mutation>): Contents {
    if mus == [] then m
    else Apply(ApplyAll(m, mus[..|mus| - 1]), mus[|mus| - 1])
  }

  /** The contents after the first n patches. */
  function Replay(log: seq<Patch>, n: nat): Contents
    requires n <= |log|
  {
    if n == 0 then map[] else ApplyAll(Replay(log, n - 1), log[n - 1].mutations)
  }

  /** The mutations of patches i to j, in order. */
  function Mutations(log: seq<Patch>, i: nat, j: nat): seq<Mutation>
    requires i <= j <= |log|
  {
    if i == j then [] else Mutations(log, i, j - 1) + log[j - 1].mutations
  }

  /** The server numbers patches from 1, without gaps. */
  predicate Numbered(log: seq<Patch>) {
    forall i :: 0 <= i < |log| ==> log[i].version == i + 1
  }

  predicate DistinctIndexes(mus: seq<Mutation>) {
    forall i, j :: 0 <= i < j < |mus| ==> mus[i].indexMac != mus[j].indexMac
  }

  function ValueMacs(mus: seq<Mutation>): (r: seq<Mac>)
    ensures |r| == |mus|
  {
    seq(|mus|, i requires 0 <= i < |mus| => mus[i].valueMac)
  }

  lemma {:induction false} MutationsJoin(log: seq<Patch>, i: nat, j: nat, k: nat)
    requires i <= j <= k <= |log|
    ensures Mutations(log, i, k) == Mutations(log, i, j) + Mutations(log, j, k)
  {
    if j < k {
      MutationsJoin(log, i, j, k - 1);
    }
  }

  lemma {:induction false} MutationsOfSlice(log: seq<Patch>, slice: seq<Patch>, i: nat, n: nat)
    requires n <= |slice| && i + |slice| <= |log| && slice == log[i..i + |slice|]
    ensures Mutations(slice, 0, n) == Mutations(log, i, i + n)
  {
    if n > 0 {
      MutationsOfSlice(log, slice, i, n - 1);
    }
  }

  /** Appending to a log changes nothing of what was there. */
  lemma {:induction false} PrefixKeeps(log: seq<Patch>, longer: seq<Patch>, i: nat, n: nat)
    requires log <= longer && i <= n <= |log|
    ensures Replay(longer, n) == Replay(log, n) && Mutations(longer, i, n) == Mutations(log, i, n)
  {
    if n > 0 {
      PrefixKeeps(log, longer, if i < n then i else n - 1, n - 1);
    }
  }

  // ----- what a hash update adds and removes -----

  /** Where the previous value of an index is looked up: `decodeSnapshot` never
      looks, `EncodePatch` asks the store only, `validatePatch` searches the
      earlier mutations of the patch and then the store. */
  datatype Lookup = Never | StoreOnly | PatchThenStore

  /** The value the earlier mutations of the same patch leave behind for an index,
      or what the store holds if none of them touched it. */
  function SearchBack(m: Contents, mus: seq<Mutation>, index: Mac): Option<Mac> {
    if mus == [] then Get(m, index)
    else
      var last := mus[|mus| - 1];
      if last.indexMac == index then (if last.op == SET then Some(last.valueMac) else None)
      else SearchBack(m, mus[..|mus| - 1], index)
  }

  /** The previous value of an index, given the earlier mutations of the batch. */
  function Previous(lookup: Lookup, m: Contents, earlier: seq<Mutation>, index: Mac): Option<Mac> {
    match lookup
    case Never => None
    case StoreOnly => Get(m, index)
    case PatchThenStore => SearchBack(m, earlier, index)
  }

  /** The search through the patch finds what replaying it would hold. */
  lemma {:induction false} SearchBackIsReplay(m: Contents, mus: seq<Mutation>, index: Mac)
    ensures SearchBack(m, mus, index) == Get(ApplyAll(m, mus), index)
  {
    if mus != [] {
      SearchBackIsReplay(m, mus[..|mus| - 1], index);
    }
  }

  /** Values that a batch removes from and adds to the hash. */
  function RemovedValues(lookup: Lookup, m: Contents, mus: seq<Mutation>): seq<Mac> {
    if mus == [] then []
    else
      var init := mus[..|mus| - 1];
      var prev := Previous(lookup, m, init, mus[|mus| - 1].indexMac);
      var rest := RemovedValues(lookup, m, init);
      if prev.Some? then rest + [prev.value] else rest
  }

  function AddedValues(mus: seq<Mutation>): seq<Mac> {
    if mus == [] then []
    else
      var rest, last := AddedValues(mus[..|mus| - 1]), mus[|mus| - 1];
      if last.op == SET then rest + [last.valueMac] else rest
  }

  lemma SumOfAppended(expand: Expand, macs: seq<Mac>, mac: Mac, w: nat)
    requires w < WORDS
    ensures SumAt(expand, macs + [mac], w) == SumAt(expand, macs, w) + expand(mac)[w]
  {
    assert (macs + [mac])[..|macs|] == macs;
  }

  /** Subtracting the values found by searching back and adding the SET values
      changes every word by exactly the change of the map's total. */
  lemma {:induction false} HashFollowsReplay(expand: Expand, m: Contents, mus: seq<Mutation>, w: nat)
    requires w < WORDS
    ensures TotalAt(expand, ApplyAll(m, mus), w)
         == TotalAt(expand, m, w)
          - SumAt(expand, RemovedValues(PatchThenStore, m, mus), w)
          + SumAt(expand, AddedValues(mus), w)
  {
    if mus != [] {
      var init, mu := mus[..|mus| - 1], mus[|mus| - 1];
      HashFollowsReplay(expand, m, init, w);
      SearchBackIsReplay(m, init, mu.indexMac);
      var before := ApplyAll(m, init);
      if mu.op == SET {
        TotalAfterSet(expand, before, mu.indexMac, mu.valueMac, w);
        SumOfAppended(expand, AddedValues(init), mu.valueMac, w);
      } else {
        TotalAfterRemove(expand, before, mu.indexMac, w);
      }
      if mu.indexMac in before {
        SumOfAppended(expand, RemovedValues(PatchThenStore, m, init), before[mu.indexMac], w);
      }
    }
  }

  /** Without repeated indexes the store-only lookup of EncodePatch finds the
      same values as the lookup that validates the patch later. */
  lemma {:induction false} LookupsAgree(m: Contents, mus: seq<Mutation>)
    requires DistinctIndexes(mus)
    ensures RemovedValues(StoreOnly, m, mus) == RemovedValues(PatchThenStore, m, mus)
    ensures m == map[] ==> RemovedValues(Never, m, mus) == RemovedValues(PatchThenStore, m, mus)
  {
    if mus != [] {
      LookupsAgree(m, mus[..|mus| - 1]);
      UntouchedIndex(m, mus[..|mus| - 1], mus[|mus| - 1].indexMac);
    }
  }

  lemma {:induction false} UntouchedIndex(m: Contents, mus: seq<Mutation>, index: Mac)
    requires forall i :: 0 <= i < |mus| ==> mus[i].indexMac != index
    ensures SearchBack(m, mus, index) == Get(m, index)
  {
    if mus != [] {
      UntouchedIndex(m, mus[..|mus| - 1], index);
    }
  }

  /** The hash state after a batch, under the three lookups. */
  ghost function NextHash(expand: Expand, lookup: Lookup, hash: Lane, m: Contents, mus: seq<Mutation>): Lane {
    seq(WORDS, w requires 0 <= w < WORDS =>
      Shifted(expand, hash[w], RemovedValues(lookup, m, mus), AddedValues(mus), w) as Word)
  }

  ghost predicate LookupIsExact(lookup: Lookup, m: Contents, mus: seq<Mutation>) {
    match lookup
    case PatchThenStore => true
    case StoreOnly => DistinctIndexes(mus)
    case Never => m == map[] && DistinctIndexes(mus)
  }

  lemma WordIsOfContents(expand: Expand, m: Contents, mus: seq<Mutation>, w: nat)
    requires w < WORDS
    ensures Shifted(expand, TotalAt(expand, m, w) % 0x1_0000, RemovedValues(PatchThenStore, m, mus), AddedValues(mus), w)
         == TotalAt(expand, ApplyAll(m, mus), w) % 0x1_0000
  {
    HashFollowsReplay(expand, m, mus, w);
    ShiftedTotal(expand, TotalAt(expand, m, w), TotalAt(expand, ApplyAll(m, mus), w),
      RemovedValues(PatchThenStore, m, mus), AddedValues(mus), w);
  }

  /** The law of the hash: it is always the hash of the current contents. */
  lemma HashIsOfContents(expand: Expand, lookup: Lookup, m: Contents, mus: seq<Mutation>)
    requires LookupIsExact(lookup, m, mus)
    ensures NextHash(expand, lookup, HashOf(expand, m), m, mus) == HashOf(expand, ApplyAll(m, mus))
  {
    if lookup != PatchThenStore {
      LookupsAgree(m, mus);
    }
    forall w | 0 <= w < WORDS
      ensures NextHash(expand, lookup, HashOf(expand, m), m, mus)[w] == HashOf(expand, ApplyAll(m, mus))[w]
    {
      WordIsOfContents(expand, m, mus, w);
    }
  }

  /** What a lookup finds in the contents `seen` to remove, against what should be
      removed from the contents `m`. */
  ghost function Missed(expand: Expand, lookup: Lookup, m: Contents, seen: Contents, mus: seq<Mutation>, w: nat): int
    requires w < WORDS
  {
    SumAt(expand, RemovedValues(PatchThenStore, m, mus), w) - SumAt(expand, RemovedValues(lookup, seen, mus), w)
  }

  ghost predicate NothingMissed(expand: Expand, lookup: Lookup, m: Contents, seen: Contents, mus: seq<Mutation>) {
    forall w :: 0 <= w < WORDS ==> Missed(expand, lookup, m, seen, mus, w) % 0x1_0000 == 0
  }

  lemma WordIsOfContentsIff(expand: Expand, lookup: Lookup, m: Contents, seen: Contents, mus: seq<Mutation>, w: nat)
    requires w < WORDS
    ensures Shifted(expand, TotalAt(expand, m, w) % 0x1_0000, RemovedValues(lookup, seen, mus), AddedValues(mus), w)
         == TotalAt(expand, ApplyAll(m, mus), w) % 0x1_0000
       <==> Missed(expand, lookup, m, seen, mus, w) % 0x1_0000 == 0
  {
    HashFollowsReplay(expand, m, mus, w);
    ShiftedIff(expand, TotalAt(expand, m, w), TotalAt(expand, ApplyAll(m, mus), w), Missed(expand, lookup, m, seen, mus, w),
      RemovedValues(lookup, seen, mus), AddedValues(mus), w);
  }

  /** A lookup, even in a store that is behind, gives the hash of the contents exactly if
      what it misses is zero modulo 2^16 in every word. */
  lemma HashIsOfContentsIff(expand: Expand, lookup: Lookup, m: Contents, seen: Contents, mus: seq<Mutation>)
    ensures NextHash(expand, lookup, HashOf(expand, m), seen, mus) == HashOf(expand, ApplyAll(m, mus))
       <==> NothingMissed(expand, lookup, m, seen, mus)
  {
    var a, b := NextHash(expand, lookup, HashOf(expand, m), seen, mus), HashOf(expand, ApplyAll(m, mus));
    forall w | 0 <= w < WORDS ensures a[w] == b[w] <==> Missed(expand, lookup, m, seen, mus, w) % 0x1_0000 == 0 {
      WordIsOfContentsIff(expand, lookup, m, seen, mus, w);
    }
  }

  lemma RemovedOfTwo(a: Mutation, b: Mutation)
    requires a.op == SET && b.op == SET && a.indexMac == b.indexMac
    ensures RemovedValues(StoreOnly, map[], [a, b]) == []
    ensures RemovedValues(PatchThenStore, map[], [a, b]) == [a.valueMac]
  {
    var m: Contents, mus := map[], [a, b];
    assert mus[..1] == [a] && [a][..0] == [];
    assert Previous(PatchThenStore, m, [a][..0], a.indexMac) == None;
    assert RemovedValues(StoreOnly, m, [a]) == RemovedValues(PatchThenStore, m, [a]) == RemovedValues(StoreOnly, m, []);
    assert SearchBack(m, [a], b.indexMac) == Some(a.valueMac);
    assert [] + [a.valueMac] == [a.valueMac];
  }

  /** Setting one index twice in an empty store is encoded with a wrong hash, unless the
      words of the first value are all zero. */
  lemma RepeatedIndexBreaksEncodedHash(expand: Expand, a: Mutation, b: Mutation)
    requires a.op == SET && b.op == SET && a.indexMac == b.indexMac
    ensures NextHash(expand, StoreOnly, HashOf(expand, map[]), map[], [a, b]) == HashOf(expand, ApplyAll(map[], [a, b]))
       <==> forall w :: 0 <= w < WORDS ==> expand(a.valueMac)[w] == 0
  {
    HashIsOfContentsIff(expand, StoreOnly, map[], map[], [a, b]);
    RemovedOfTwo(a, b);
    forall w | 0 <= w < WORDS
      ensures Missed(expand, StoreOnly, map[], map[], [a, b], w) % 0x1_0000 == 0 <==> expand(a.valueMac)[w] == 0
    {
      assert [a.valueMac] == [] + [a.valueMac];
      SumOfAppended(expand, [], a.valueMac, w);
    }
  }
}
