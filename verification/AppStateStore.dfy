/** The two SQL tables of one collection: the version row and the mutation MACs,
    with primary key (version, index MAC). Rows are grouped by version here. */
module AppStateStore {
  import opened Wrappers
  import opened LtHash
  import opened AppStateLog

  type Rows = seq<Contents>

  datatype MacRow = MacRow(index: Mac, value: Mac)

  /** For each index the row with the highest version. */
  function View(rows: Rows): Contents {
    if rows == [] then map[] else View(rows[..|rows| - 1]) + rows[|rows| - 1]
  }

  function Without(rows: Rows, gone: set<Mac>): Rows {
    seq(|rows|, i requires 0 <= i < |rows| => rows[i] - gone)
  }

  function BatchMap(added: seq<MacRow>): Contents {
    if added == [] then map[]
    else BatchMap(added[..|added| - 1])[added[|added| - 1].index := added[|added| - 1].value]
  }

  function Padded(rows: Rows, version: nat): (r: Rows)
    ensures |r| > version && |r| >= |rows| && View(r) == View(rows)
    decreases version + 1 - |rows|
  {
    if version < |rows| then rows
    else
      assert (rows + [map[]])[..|rows|] == rows;
      Padded(rows + [map[]], version)
  }

  function Inserted(rows: Rows, version: nat, added: seq<MacRow>): Rows {
    var p := Padded(rows, version);
    p[version := p[version] + BatchMap(added)]
  }

  ghost predicate Repeats(added: seq<MacRow>) {
    exists i, j :: 0 <= i < j < |added| && added[i].index == added[j].index
  }

  /** An insert without ON CONFLICT clause violates the primary key. */
  ghost predicate ViolatesKey(rows: Rows, version: nat, added: seq<MacRow>) {
    Repeats(added)
    || (version < |rows| && exists i :: 0 <= i < |added| && added[i].index in rows[version])
  }

  lemma {:induction false} ViewWithout(rows: Rows, gone: set<Mac>)
    ensures View(Without(rows, gone)) == View(rows) - gone
  {
    if rows != [] {
      ViewWithout(rows[..|rows| - 1], gone);
      assert Without(rows, gone)[..|rows| - 1] == Without(rows[..|rows| - 1], gone);
    }
  }

  lemma PaddedLength(rows: Rows, version: nat)
    requires |rows| <= version
    ensures |Padded(rows, version)| == version + 1 && Padded(rows, version)[version] == map[]
    decreases version - |rows|
  {
    if |rows| < version {
      PaddedLength(rows + [map[]], version);
    }
  }

  lemma ViewAppended(rows: Rows, last: Contents)
    ensures View(rows + [last]) == View(rows) + last
  {
    assert (rows + [last])[..|rows|] == rows;
  }

  lemma ViewInserted(rows: Rows, version: nat, added: seq<MacRow>)
    requires |rows| <= version
    ensures |Inserted(rows, version, added)| == version + 1
    ensures View(Inserted(rows, version, added)) == View(rows) + BatchMap(added)
  {
    PaddedLength(rows, version);
    var p := Padded(rows, version);
    var below := p[..version];
    assert p == below + [map[]];
    ViewAppended(below, map[]);
    MergeEmpty(View(below));
    MergeEmpty(BatchMap(added));
    assert Inserted(rows, version, added) == below + [BatchMap(added)];
    ViewAppended(below, BatchMap(added));
  }

  // ----- map algebra -----

  lemma PutThenRemove<K, V>(m: map<K, V>, k: K, v: V, j: K)
    ensures m[k := v] - {j} == if k == j then m - {j} else (m - {j})[k := v]
  {
  }

  lemma MergeThenRemove<K, V>(m: map<K, V>, gone: set<K>, b: map<K, V>, j: K)
    ensures (m - gone + b) - {j} == m - (gone + {j}) + (b - {j})
  {
  }

  lemma MergeThenPut<K, V>(m: map<K, V>, b: map<K, V>, k: K, v: V)
    ensures (m + b)[k := v] == m + b[k := v]
  {
  }

  lemma MergeEmpty<K, V>(m: map<K, V>)
    ensures m + map[] == m && map[] + m == m
  {
  }

  // ----- batched output of one patch -----

  datatype Output = Output(removed: seq<Mac>, added: seq<MacRow>)

  function Gone(out: Output): set<Mac> {
    set x | x in out.removed
  }

  function DropIndex(added: seq<MacRow>, index: Mac): (r: seq<MacRow>)
    ensures forall x :: x in r <==> x in added && x.index != index
  {
    if added == [] then []
    else
      var rest := DropIndex(added[..|added| - 1], index);
      if added[|added| - 1].index == index then rest else rest + [added[|added| - 1]]
  }

  function Collect(mus: seq<Mutation>): Output {
    if mus == [] then Output([], [])
    else
      var out := Collect(mus[..|mus| - 1]);
      var mu := mus[|mus| - 1];
      if mu.op == REMOVE
      then Output(out.removed + [mu.indexMac], DropIndex(out.added, mu.indexMac))
      else Output(out.removed, out.added + [MacRow(mu.indexMac, mu.valueMac)])
  }

  lemma CollectAppended(mus: seq<Mutation>, mu: Mutation)
    ensures Collect(mus + [mu]) ==
      if mu.op == REMOVE
      then Output(Collect(mus).removed + [mu.indexMac], DropIndex(Collect(mus).added, mu.indexMac))
      else Output(Collect(mus).removed, Collect(mus).added + [MacRow(mu.indexMac, mu.valueMac)])
  {
    assert (mus + [mu])[..|mus|] == mus;
  }

  function Stored(m: Contents, out: Output): Contents {
    m - Gone(out) + BatchMap(out.added)
  }

  lemma {:induction false} BatchMapOfDrop(added: seq<MacRow>, index: Mac)
    ensures BatchMap(DropIndex(added, index)) == BatchMap(added) - {index}
  {
    if added != [] {
      var init, last := added[..|added| - 1], added[|added| - 1];
      BatchMapOfDrop(init, index);
      PutThenRemove(BatchMap(init), last.index, last.value, index);
      if last.index != index {
        var rest := DropIndex(init, index);
        assert (rest + [last])[..|rest|] == rest;
      }
    }
  }

  /** Deleting all removed MACs first and inserting all added ones after is the
      same as replaying the mutations one by one. */
  lemma {:induction false} BatchIsReplay(m: Contents, mus: seq<Mutation>)
    ensures Stored(m, Collect(mus)) == ApplyAll(m, mus)
  {
    if mus != [] {
      var out, mu := Collect(mus[..|mus| - 1]), mus[|mus| - 1];
      BatchIsReplay(m, mus[..|mus| - 1]);
      if mu.op == REMOVE {
        BatchMapOfDrop(out.added, mu.indexMac);
        assert Gone(Collect(mus)) == Gone(out) + {mu.indexMac};
        MergeThenRemove(m, Gone(out), BatchMap(out.added), mu.indexMac);
      } else {
        MergeThenPut(m - Gone(out), BatchMap(out.added), mu.indexMac, mu.valueMac);
        assert Collect(mus).added[..|out.added|] == out.added;
      }
    }
  }

  /** How often an index is SET after its last REMOVE in the patch. */
  function SetsSinceRemove(mus: seq<Mutation>, index: Mac): nat {
    if mus == [] then 0
    else
      var last, before := mus[|mus| - 1], SetsSinceRemove(mus[..|mus| - 1], index);
      if last.indexMac != index then before else if last.op == SET then before + 1 else 0
  }

  ghost predicate SetTwice(mus: seq<Mutation>) {
    exists i :: 0 <= i < |mus| && SetsSinceRemove(mus, mus[i].indexMac) >= 2
  }

  function CountOf(added: seq<MacRow>, index: Mac): nat {
    if added == [] then 0
    else CountOf(added[..|added| - 1], index) + (if added[|added| - 1].index == index then 1 else 0)
  }

  lemma {:induction false} CountAfterDrop(added: seq<MacRow>, gone: Mac, index: Mac)
    ensures CountOf(DropIndex(added, gone), index) == if index == gone then 0 else CountOf(added, index)
  {
    if added != [] {
      var rest, last := DropIndex(added[..|added| - 1], gone), added[|added| - 1];
      CountAfterDrop(added[..|added| - 1], gone, index);
      assert (rest + [last])[..|rest|] == rest;
    }
  }

  lemma {:induction false} CountIsSets(mus: seq<Mutation>, index: Mac)
    ensures CountOf(Collect(mus).added, index) == SetsSinceRemove(mus, index)
  {
    if mus != [] {
      var out, last := Collect(mus[..|mus| - 1]), mus[|mus| - 1];
      CountIsSets(mus[..|mus| - 1], index);
      CountAfterDrop(out.added, last.indexMac, index);
      assert (out.added + [MacRow(last.indexMac, last.valueMac)])[..|out.added|] == out.added;
    }
  }

  lemma {:induction false} CountPositive(added: seq<MacRow>, index: Mac)
    ensures CountOf(added, index) > 0 <==> exists i :: 0 <= i < |added| && added[i].index == index
  {
    if added != [] {
      CountPositive(added[..|added| - 1], index);
    }
  }

  lemma {:induction false} RepeatsIffCount(added: seq<MacRow>)
    ensures Repeats(added) <==> exists i :: 0 <= i < |added| && CountOf(added, added[i].index) >= 2
  {
    if added != [] {
      var init, last := added[..|added| - 1], added[|added| - 1];
      RepeatsIffCount(init);
      CountPositive(init, last.index);
      if Repeats(init) {
        var i :| 0 <= i < |init| && CountOf(init, init[i].index) >= 2;
        assert CountOf(added, added[i].index) >= 2;
      }
    }
  }

  lemma {:induction false} SetsArePresent(mus: seq<Mutation>, index: Mac)
    requires SetsSinceRemove(mus, index) > 0
    ensures exists i :: 0 <= i < |mus| && mus[i].indexMac == index
  {
    if mus[|mus| - 1].indexMac != index {
      SetsArePresent(mus[..|mus| - 1], index);
    }
  }

  /** The batch of one patch violates the primary key exactly if the patch sets
      some index twice after its last removal. */
  lemma RepeatsIffSetTwice(mus: seq<Mutation>)
    ensures Repeats(Collect(mus).added) <==> SetTwice(mus)
  {
    var added := Collect(mus).added;
    RepeatsIffCount(added);
    if i :| 0 <= i < |added| && CountOf(added, added[i].index) >= 2 {
      CountIsSets(mus, added[i].index);
      SetsArePresent(mus, added[i].index);
    }
    if i :| 0 <= i < |mus| && SetsSinceRemove(mus, mus[i].indexMac) >= 2 {
      CountIsSets(mus, mus[i].indexMac);
      CountPositive(added, mus[i].indexMac);
    }
  }

  /** The store as a value. */
  datatype Local = Local(row: Option<HashState>, rows: Rows)

  class AppStateStore {
    var row: Option<HashState>
    var rows: Rows

    function Value(): Local
      reads this
    {
      Local(row, rows)
    }

    method GetVersion() returns (r: Result<HashState, SyncError>)
      ensures r == match row
        case None => Success(HashState(0, ZERO))
        case Some(hs) => if hs.version == 0 then Failure(InvalidSavedVersion) else Success(hs)
    {
      match row
      case None => return Success(HashState(0, ZERO));
      case Some(hs) =>
        if hs.version == 0 {
          return Failure(InvalidSavedVersion);
        }
        return Success(hs);
    }

    /** The foreign key of the MAC table cascades. */
    method DeleteVersion()
      modifies this
      ensures Value() == Local(None, [])
    {
      row, rows := None, [];
    }

    method PutVersion(hs: HashState)
      modifies this
      ensures Value() == Local(Some(hs), old(rows))
    {
      row := Some(hs);
    }

    /** SELECT ... ORDER BY version DESC LIMIT 1 */
    method GetMac(index: Mac) returns (r: Option<Mac>)
      ensures r == Get(View(rows), index)
    {
      var i := |rows|;
      assert rows[..i] == rows;
      while i > 0
        invariant 0 <= i <= |rows|
        invariant Get(View(rows), index) == Get(View(rows[..i]), index)
      {
        i := i - 1;
        assert rows[..i + 1][..i] == rows[..i];
        if index in rows[i] {
          return Some(rows[i][index]);
        }
      }
      return None;
    }

    method DeleteMacs(removed: seq<Mac>)
      modifies this
      ensures row == old(row) && rows == Without(old(rows), set x | x in removed)
    {
      rows := Without(rows, set x | x in removed);
    }

    /** One transaction: a key violation leaves the table as it was. */
    method PutMacs(version: nat, added: seq<MacRow>) returns (ok: bool)
      modifies this
      ensures row == old(row)
      ensures ok <==> !ViolatesKey(old(rows), version, added)
      ensures rows == if ok then Inserted(old(rows), version, added) else old(rows)
    {
      var table := Padded(rows, version);
      var base := table[version];
      var batch: Contents := map[];
      for i := 0 to |added|
        invariant batch == BatchMap(added[..i])
        invariant forall k :: k in batch <==> exists j :: 0 <= j < i && added[j].index == k
        invariant !ViolatesKey(rows, version, added[..i])
      {
        var r := added[i];
        assert added[..i + 1][..i] == added[..i];
        if r.index in batch || (version < |rows| && r.index in base) {
          return false;
        }
        batch := batch[r.index := r.value];
      }
      assert added[..|added|] == added;
      rows := table[version := base + batch];
      return true;
    }
  }
}
