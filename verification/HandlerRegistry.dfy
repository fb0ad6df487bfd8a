/** The event handlers of client.go: a Go slice, that is a window of a backing array
    that moves when the first handler is removed and is copied when it is full. */
module HandlerRegistry {
  import opened Wrappers

  /** A wrappedEventHandler; functions are numbered and None is nil. */
  datatype Entry = Entry(fn: Option<nat>, id: nat)

  datatype Outcome = Succeeds | Fails | Panics

  const ID_LIMIT: nat := 0x1_0000_0000

  /** atomic.AddUint32 */
  function NextId(id: nat): (next: nat)
    ensures next < ID_LIMIT && (id + 1 < ID_LIMIT ==> next == id + 1)
  {
    (id + 1) % 0x1_0000_0000
  }

  // ----- what removing means -----

  function Removed(live: seq<Entry>, id: nat): seq<Entry> {
    if live == [] then []
    else if live[0].id == id then live[1..]
    else [live[0]] + Removed(live[1..], id)
  }

  predicate Has(live: seq<Entry>, id: nat) {
    exists k :: 0 <= k < |live| && live[k].id == id
  }

  lemma {:induction false} RemovedAtFirst(live: seq<Entry>, id: nat, k: nat)
    requires k < |live| && live[k].id == id && forall j :: 0 <= j < k ==> live[j].id != id
    ensures Removed(live, id) == live[..k] + live[k + 1..]
  {
    if k > 0 {
      RemovedAtFirst(live[1..], id, k - 1);
    }
  }

  lemma {:induction false} RemovedAbsent(live: seq<Entry>, id: nat)
    requires !Has(live, id)
    ensures Removed(live, id) == live
  {
    if live != [] {
      assert live[0].id != id;
      forall k | 0 <= k < |live[1..]| ensures live[1..][k].id != id {
        assert live[1..][k] == live[k + 1];
      }
      RemovedAbsent(live[1..], id);
    }
  }

  lemma OneRemoved(was: seq<Entry>, now: seq<Entry>, lo: nat, hi: nat, index: nat)
    requires |was| == |now| && lo + index <= hi < |was|
    requires forall k :: lo <= k < lo + index ==> now[k] == was[k]
    requires forall k {:trigger now[k]} :: lo + index <= k < hi ==> now[k] == was[k + 1]
    ensures now[lo..hi] == was[lo..hi + 1][..index] + was[lo..hi + 1][index + 1..]
  {
  }

  /** The handler at k fails and all before it succeed. */
  ghost predicate FailsFirst(live: seq<Entry>, handle: nat -> Outcome, k: nat)
    requires k < |live| && forall j :: 0 <= j < |live| ==> live[j].fn.Some?
  {
    handle(live[k].fn.value) == Fails && forall j :: 0 <= j < k ==> handle(live[j].fn.value) == Succeeds
  }

  // ----- the slice -----

  class Registry {
    var backing: array<Entry>
    var lo: nat
    var hi: nat
    // All clients share the counter; the id before the first is 0.
    var nextHandlerID: nat
    // Not in the source: the calls that were made.
    ghost var calls: seq<Call>

    /** Slots outside of the window do not keep a function alive. */
    ghost predicate IsWindow()
      reads this, backing
    {
      && lo <= hi <= backing.Length
      && (forall k :: 0 <= k < backing.Length ==> (backing[k].fn.Some? <==> lo <= k < hi))
    }

    ghost function Live(): seq<Entry>
      requires IsWindow()
      reads this, backing
    {
      backing[lo..hi]
    }

    /** The slice and the counter are what the calls make of them. */
    ghost predicate Valid()
      reads this, backing
    {
      && IsWindow() && Live() == After(calls, |calls|).live
      && nextHandlerID == After(calls, |calls|).issued % ID_LIMIT
    }

    constructor ()
      ensures Valid() && fresh(backing) && Live() == [] && nextHandlerID == 0 && calls == []
    {
      backing := new Entry[1](_ => Entry(None, 0));
      lo, hi, nextHandlerID, calls := 0, 0, 0, [];
    }

    /** append copies to a new array if the backing array is used up; `spare` is the
        room that its growth rule leaves. */
    method Grow(spare: nat)
      requires IsWindow()
      modifies this`backing, this`lo, this`hi
      ensures IsWindow() && fresh(backing) && hi < backing.Length
      ensures Live() == old(Live())
    {
      var n, live := hi - lo, backing[lo..hi];
      backing := new Entry[n + 1 + spare](k => if 0 <= k < n then live[k] else Entry(None, 0));
      lo, hi := 0, n;
      assert backing[lo..hi] == live;
    }

    /** `others` is how many ids other clients have taken since the last call. */
    method AddEventHandlerWithSuccessStatus(fn: nat, others: nat, spare: nat) returns (id: nat)
      requires Valid()
      modifies this, backing
      ensures Valid() && (backing == old(backing) || fresh(backing))
      ensures id == NextId(old(nextHandlerID) + others) && nextHandlerID == id
      ensures Live() == old(Live()) + [Entry(Some(fn), id)]
      ensures calls == old(calls) + [Add(fn, others)]
    {
      ghost var issued := After(calls, |calls|).issued;
      id := TakeId(others);
      Append(Entry(Some(fn), id), spare);
      SharedId(issued, others);
      AfterOneMore(calls, Add(fn, others));
      calls := calls + [Add(fn, others)];
    }

    method TakeId(others: nat) returns (id: nat)
      modifies this`nextHandlerID
      ensures id == NextId(old(nextHandlerID) + others) && nextHandlerID == id
    {
      nextHandlerID := (nextHandlerID + others) % ID_LIMIT;
      nextHandlerID := NextId(nextHandlerID);
      id := nextHandlerID;
    }

    method Append(e: Entry, spare: nat)
      requires IsWindow() && e.fn.Some?
      modifies this`backing, this`lo, this`hi, backing
      ensures IsWindow() && (backing == old(backing) || fresh(backing))
      ensures Live() == old(Live()) + [e]
    {
      if hi == backing.Length {
        Grow(spare);
      }
      backing[hi] := e;
      hi := hi + 1;
    }

    method Find(id: nat) returns (index: nat)
      requires IsWindow()
      ensures index <= |Live()|
      ensures index < |Live()| ==> Live()[index].id == id
      ensures forall j :: 0 <= j < index ==> Live()[j].id != id
    {
      index := 0;
      while index < hi - lo && backing[lo + index].id != id
        invariant index <= |Live()|
        invariant forall j :: 0 <= j < index ==> Live()[j].id != id
      {
        assert Live()[index] == backing[lo + index];
        index := index + 1;
      }
    }

    method RemoveAt(index: nat)
      requires IsWindow() && index < |Live()|
      modifies this`lo, this`hi, backing
      ensures IsWindow()
      ensures Live() == old(Live()[..index] + Live()[index + 1..])
    {
      ghost var live := Live();
      if index == 0 {
        backing[lo] := backing[lo].(fn := None);
        lo := lo + 1;
        assert Live() == live[1..];
        return;
      }
      if index < hi - lo - 1 {
        forall k | lo + index <= k < hi - 1 { backing[k] := backing[k + 1]; }
      }
      backing[hi - 1] := backing[hi - 1].(fn := None);
      hi := hi - 1;
      OneRemoved(old(backing[..]), backing[..], lo, hi, index);
      assert old(backing[..])[lo..hi + 1] == live;
      assert backing[..][lo..hi] == backing[lo..hi];
    }

    /** The first handler with the id is removed, and the answer is whether there was one. */
    method RemoveEventHandler(id: nat) returns (found: bool)
      requires Valid()
      modifies this, backing
      ensures Valid() && backing == old(backing) && nextHandlerID == old(nextHandlerID)
      ensures Live() == Removed(old(Live()), id) && calls == old(calls) + [Remove(id)]
      ensures found <==> Has(old(Live()), id)
    {
      var index := Find(id);
      found := index < hi - lo;
      ghost var live := Live();
      if found {
        RemovedAtFirst(live, id, index);
        RemoveAt(index);
      } else {
        RemovedAbsent(live, id);
      }
      AfterOneMore(calls, Remove(id));
      calls := calls + [Remove(id)];
    }

    method RemoveEventHandlers()
      requires Valid()
      modifies this
      ensures Valid() && fresh(backing) && nextHandlerID == old(nextHandlerID)
      ensures Live() == [] && calls == old(calls) + [RemoveAll]
    {
      backing := new Entry[1](_ => Entry(None, 0));
      lo, hi := 0, 0;
      AfterOneMore(calls, RemoveAll);
      calls := calls + [RemoveAll];
    }

    /** The handlers are called in order up to and including the first that does not
        succeed; a panic is recovered and not reported as a failure. */
    method DispatchEvent(handle: nat -> Outcome) returns (handlerFailed: bool, ghost called: nat)
      requires Valid()
      ensures called <= |Live()| && forall k :: 0 <= k < |Live()| ==> Live()[k].fn.Some?
      ensures forall k :: 0 <= k < called - 1 ==> handle(Live()[k].fn.value) == Succeeds
      ensures called < |Live()| ==> called > 0 && handle(Live()[called - 1].fn.value) != Succeeds
      ensures handlerFailed <==> exists k :: 0 <= k < |Live()| && FailsFirst(Live(), handle, k)
    {
      called := 0;
      for k := lo to hi
        invariant called == k - lo && forall j :: 0 <= j < |Live()| ==> Live()[j].fn.Some?
        invariant forall j :: 0 <= j < called ==> handle(Live()[j].fn.value) == Succeeds
      {
        var outcome := handle(backing[k].fn.value);
        called := called + 1;
        if outcome != Succeeds {
          assert outcome == Fails ==> FailsFirst(Live(), handle, k - lo);
          return outcome == Fails, called;
        }
      }
      return false, called;
    }
  }

  // ----- any sequence of calls -----

  /** A call on one client; ids that others took before it are skipped. */
  datatype Call = Add(fn: nat, others: nat) | Remove(id: nat) | RemoveAll

  /** The live handlers, and how many ids were given out by all clients. */
  datatype History = History(live: seq<Entry>, issued: nat)

  function Do(h: History, call: Call): History {
    match call
    case Add(fn, others) =>
      var issued := h.issued + others + 1;
      History(h.live + [Entry(Some(fn), issued % ID_LIMIT)], issued)
    case Remove(id) => h.(live := Removed(h.live, id))
    case RemoveAll => h.(live := [])
  }

  function After(calls: seq<Call>, n: nat): History
    requires n <= |calls|
  {
    if n == 0 then History([], 0) else Do(After(calls, n - 1), calls[n - 1])
  }

  lemma {:induction false} AfterPrefix(a: seq<Call>, b: seq<Call>, n: nat)
    requires n <= |a|
    ensures After(a + b, n) == After(a, n)
  {
    if n > 0 { AfterPrefix(a, b, n - 1); }
  }

  lemma AfterOneMore(calls: seq<Call>, call: Call)
    ensures After(calls + [call], |calls| + 1) == Do(After(calls, |calls|), call)
  {
    AfterPrefix(calls, [call], |calls|);
  }

  lemma SharedId(issued: nat, others: nat)
    ensures NextId(issued % ID_LIMIT + others) == (issued + others + 1) % ID_LIMIT
  {
  }

  ghost predicate Ascending(live: seq<Entry>) {
    forall i, j :: 0 <= i < j < |live| ==> live[i].id < live[j].id
  }

  lemma RemovedSplits(live: seq<Entry>, id: nat, k: nat)
    requires Ascending(live) && k < |live| && live[k].id == id
    ensures Removed(live, id) == live[..k] + live[k + 1..] && live == live[..k] + [live[k]] + live[k + 1..]
  {
    RemovedAtFirst(live, id, k);
  }

  lemma SkippedAscends(live: seq<Entry>, k: nat)
    requires Ascending(live) && k < |live|
    ensures Ascending(live[..k] + live[k + 1..])
  {
    var rest := live[..k] + live[k + 1..];
    forall i, j | 0 <= i < j < |rest| ensures rest[i].id < rest[j].id {
      var x, y := if i < k then i else i + 1, if j < k then j else j + 1;
      assert rest[i] == live[x] && rest[j] == live[y];
    }
  }

  lemma RemovedAscends(live: seq<Entry>, id: nat)
    requires Ascending(live)
    ensures Ascending(Removed(live, id))
  {
    if Has(live, id) {
      var k :| 0 <= k < |live| && live[k].id == id;
      RemovedSplits(live, id, k);
      SkippedAscends(live, k);
    } else {
      RemovedAbsent(live, id);
    }
  }

  lemma SkippedMembers(live: seq<Entry>, k: nat, e: Entry)
    requires Ascending(live) && k < |live|
    ensures e in live[..k] + live[k + 1..] <==> e in live && e.id != live[k].id
  {
    var rest := live[..k] + live[k + 1..];
    if i :| 0 <= i < |rest| && rest[i] == e {
      assert live[if i < k then i else i + 1] == e;
    }
    if i :| 0 <= i < |live| && live[i] == e && e.id != live[k].id {
      assert rest[if i < k then i else i - 1] == e;
    }
  }

  /** With ascending ids a removal takes out exactly the handlers with the id. */
  lemma RemovedMembers(live: seq<Entry>, id: nat, e: Entry)
    requires Ascending(live)
    ensures e in Removed(live, id) <==> e in live && e.id != id
  {
    if Has(live, id) {
      var k :| 0 <= k < |live| && live[k].id == id;
      RemovedSplits(live, id, k);
      SkippedMembers(live, k, e);
    } else {
      RemovedAbsent(live, id);
    }
  }

  ghost predicate Within(live: seq<Entry>, n: nat) {
    forall i :: 0 <= i < |live| ==> 1 <= live[i].id <= n
  }

  lemma RemovedWithin(live: seq<Entry>, id: nat, n: nat)
    requires Ascending(live) && Within(live, n)
    ensures Within(Removed(live, id), n)
  {
    forall i | 0 <= i < |Removed(live, id)| ensures 1 <= Removed(live, id)[i].id <= n {
      RemovedMembers(live, id, Removed(live, id)[i]);
      assert Removed(live, id)[i] in Removed(live, id);
    }
  }

  lemma AddedInOrder(live: seq<Entry>, n: nat, id: nat, fn: nat)
    requires Ascending(live) && Within(live, n) && n < id
    ensures Ascending(live + [Entry(Some(fn), id)]) && Within(live + [Entry(Some(fn), id)], id)
  {
  }

  ghost predicate InOrder(h: History) {
    Ascending(h.live) && Within(h.live, h.issued)
  }

  lemma DoInOrder(h: History, call: Call)
    requires InOrder(h) && Do(h, call).issued < ID_LIMIT
    ensures InOrder(Do(h, call))
  {
    match call
    case Add(fn, others) => AddedInOrder(h.live, h.issued, h.issued + others + 1, fn);
    case Remove(id) =>
      RemovedAscends(h.live, id);
      RemovedWithin(h.live, id, h.issued);
    case RemoveAll =>
  }

  /** As long as all clients have taken fewer than 2^32 ids, the live handlers have distinct
      ids and stand in the order of their registration. */
  lemma {:induction false} HandlersInOrder(calls: seq<Call>, n: nat)
    requires n <= |calls| && After(calls, n).issued < ID_LIMIT
    ensures Ascending(After(calls, n).live) && Within(After(calls, n).live, After(calls, n).issued)
  {
    if n > 0 {
      HandlersInOrder(calls, n - 1);
      DoInOrder(After(calls, n - 1), calls[n - 1]);
    }
  }

  /** No call in calls[k..n] takes the handler away. */
  ghost predicate Kept(calls: seq<Call>, k: nat, n: nat, id: nat) {
    forall j :: k <= j < n && j < |calls| ==> calls[j] != Remove(id) && calls[j] != RemoveAll
  }

  ghost predicate AddedAndKept(calls: seq<Call>, k: nat, n: nat, e: Entry)
    requires n <= |calls|
  {
    k < n && calls[k].Add? && e == Entry(Some(calls[k].fn), After(calls, k + 1).issued) && Kept(calls, k + 1, n, e.id)
  }

  /** Who is live after one more call. */
  lemma LiveStep(calls: seq<Call>, n: nat, e: Entry)
    requires 0 < n <= |calls| && After(calls, n).issued < ID_LIMIT
    ensures e in After(calls, n).live <==>
      match calls[n - 1]
      case Add(fn, others) => e in After(calls, n - 1).live || e == Entry(Some(fn), After(calls, n).issued)
      case Remove(id) => e in After(calls, n - 1).live && e.id != id
      case RemoveAll => false
    ensures e in After(calls, n - 1).live ==> e.id <= After(calls, n - 1).issued
  {
    HandlersInOrder(calls, n - 1);
    if calls[n - 1].Remove? { RemovedMembers(After(calls, n - 1).live, calls[n - 1].id, e); }
  }

  /** The live handlers are exactly those that were added and not removed since. */
  lemma {:induction false} LiveAreKept(calls: seq<Call>, n: nat, e: Entry)
    requires n <= |calls| && After(calls, n).issued < ID_LIMIT
    ensures e in After(calls, n).live <==> exists k: nat :: AddedAndKept(calls, k, n, e)
  {
    if n > 0 {
      LiveAreKept(calls, n - 1, e);
      LiveStep(calls, n, e);
      if e in After(calls, n).live {
        if e in After(calls, n - 1).live {
          var k: nat :| AddedAndKept(calls, k, n - 1, e);
          assert AddedAndKept(calls, k, n, e);
        } else {
          assert AddedAndKept(calls, n - 1, n, e);
        }
      }
      if k: nat :| AddedAndKept(calls, k, n, e) {
        if k < n - 1 { assert AddedAndKept(calls, k, n - 1, e); }
      }
    }
  }
}
