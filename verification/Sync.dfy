/** fetchAppState and sendAppState of appstate.go, against a server that other
    devices use at the same time. */
module Sync {
  import opened Wrappers
  import opened LtHash
  import opened AppStateLog
  import opened AppStateStore
  import opened Processor
  import opened Server
  import opened ContactSync

  ghost predicate InSync(expand: Expand, l: Local, log: seq<Patch>) {
    exists hs :: Synced(expand, l, log, hs)
  }

  /** The state read back from a store that is in sync is the synced state. */
  lemma SavedStateIsSynced(expand: Expand, l: Local, log: seq<Patch>, hs: HashState)
    requires InSync(expand, l, log)
    requires if l.row.Some? then hs == l.row.value else hs == HashState(0, ZERO)
    ensures Synced(expand, l, log, hs)
  {
    EmptyHash(expand);
  }

  lemma {:induction false} ApplyAllConcat(m: Contents, a: seq<Mutation>, b: seq<Mutation>)
    ensures ApplyAll(m, a + b) == ApplyAll(ApplyAll(m, a), b)
  {
    if b == [] {
      assert a + b == a;
    } else {
      assert (a + b)[..|a + b| - 1] == a + b[..|b| - 1];
      ApplyAllConcat(m, a, b[..|b| - 1]);
    }
  }

  /** Replaying the mutations of a stretch of the log on the state before it. */
  lemma {:induction false} ReplayOfStretch(log: seq<Patch>, i: nat, n: nat)
    requires i <= n <= |log|
    ensures ApplyAll(Replay(log, i), Mutations(log, i, n)) == Replay(log, n)
  {
    if i < n {
      ReplayOfStretch(log, i, n - 1);
      ApplyAllConcat(Replay(log, i), Mutations(log, i, n - 1), log[n - 1].mutations);
    }
  }

  /** What one faithful list stands for. */
  lemma DeliveredReplays(log: seq<Patch>, from: nat, list: PatchList)
    requires from <= |log| && FaithfulList(log, from, list)
    requires list.snapshot.Some? ==> from == 0
    ensures ApplyAll(Replay(log, from), Delivered(list)) == Replay(log, Base(list, from) + |list.patches|)
  {
    var mus := Mutations(list.patches, 0, |list.patches|);
    SliceReplays(log, list.patches, Base(list, from));
    match list.snapshot
    case Some(ss) => ApplyAllConcat(map[], ss.records, mus);
    case None => NothingBefore(mus);
  }

  lemma SliceReplays(log: seq<Patch>, slice: seq<Patch>, b: nat)
    requires b + |slice| <= |log| && slice == log[b..b + |slice|]
    ensures ApplyAll(Replay(log, b), Mutations(slice, 0, |slice|)) == Replay(log, b + |slice|)
  {
    MutationsOfSlice(log, slice, b, |slice|);
    ReplayOfStretch(log, b, b + |slice|);
  }

  lemma NothingBefore(mus: seq<Mutation>)
    ensures [] + mus == mus
  {
  }

  /** The mutations handed on since a full sync began or since version `start`
      account for the contents at version `upto`; counted from a saved version
      they are the mutations of the log, each once and in order. */
  ghost predicate AccountsFor(contents: Contents, start: nat, handed: seq<Mutation>, log: seq<Patch>, upto: nat) {
    && start <= upto <= |log|
    && ApplyAll(contents, handed) == Replay(log, upto)
    && (start > 0 ==> handed == Mutations(log, start, upto))
  }

  lemma AccountsInLonger(contents: Contents, start: nat, handed: seq<Mutation>, log: seq<Patch>, longer: seq<Patch>, upto: nat)
    requires log <= longer && AccountsFor(contents, start, handed, log, upto)
    ensures AccountsFor(contents, start, handed, longer, upto)
  {
    PrefixKeeps(log, longer, start, upto);
  }

  lemma AccountsForList(
      contents: Contents, start: nat, handed: seq<Mutation>, log: seq<Patch>, upto: nat,
      list: PatchList, more: seq<Mutation>, reached: nat)
    requires AccountsFor(contents, start, handed, log, upto) && FaithfulList(log, upto, list)
    requires list.snapshot.Some? ==> upto == 0
    requires more == Delivered(list) && reached == Base(list, upto) + |list.patches|
    ensures AccountsFor(contents, start, handed + more, log, reached)
  {
    DeliveredReplays(log, upto, list);
    ApplyAllConcat(contents, handed, more);
    if start > 0 {
      HandedInOrder(start, handed, log, upto, list);
    }
  }

  lemma AccountsForAnswer(
      contents: Contents, start: nat, handed: seq<Mutation>, log: seq<Patch>, longer: seq<Patch>, upto: nat,
      list: PatchList, reached: nat)
    requires AccountsFor(contents, start, handed, log, upto) && log <= longer && FaithfulList(longer, upto, list)
    requires (list.snapshot.Some? ==> upto == 0) && reached == Base(list, upto) + |list.patches|
    ensures AccountsFor(contents, start, handed + Delivered(list), longer, reached)
  {
    AccountsInLonger(contents, start, handed, log, longer, upto);
    AccountsForList(contents, start, handed, longer, upto, list, Delivered(list), reached);
  }

  lemma HandedInOrder(start: nat, handed: seq<Mutation>, log: seq<Patch>, upto: nat, list: PatchList)
    requires start <= upto <= |log| && handed == Mutations(log, start, upto)
    requires FaithfulList(log, upto, list) && list.snapshot.None?
    ensures handed + Delivered(list) == Mutations(log, start, upto + |list.patches|)
  {
    MutationsJoin(log, start, upto, upto + |list.patches|);
    MutationsOfSlice(log, list.patches, upto, |list.patches|);
    NothingBefore(Mutations(list.patches, 0, |list.patches|));
  }

  // ----- frames sent by one call -----

  /** What happens to one info query: its frame, whether the client is back in time
      after an interruption, and then the same frame once more. */
  datatype Exchange = Exchange(first: Move, reconnects: bool, second: Move)

  datatype Queried = Queried(log: seq<Patch>, frames: seq<Frame>, reply: Reply)

  /** sendIQ with retryFrame */
  function InfoQuery(log: seq<Patch>, base: nat, patch: Patch, x: Exchange): Queried {
    var a := Send(log, base, patch, x.first);
    if !a.reply.Interrupted? then Queried(a.log, [a.frame], a.reply)
    else if !x.reconnects then Queried(a.log, [a.frame], Lost)
    else
      var b := Send(a.log, base, patch, x.second);
      Queried(b.log, [a.frame, b.frame], if b.reply.Interrupted? then Lost else b.reply)
  }

  /** One info query of a call: on what it was made and how it went. */
  datatype Asked = Asked(log: seq<Patch>, base: nat, patch: Patch, exchange: Exchange, q: Queried)

  /** The queries of one call. */
  datatype Trace = NotSent | Once(first: Asked) | Twice(first: Asked, second: Asked)

  function Count(t: Trace): nat {
    match t case NotSent => 0 case Once(_) => 1 case Twice(_, _) => 2
  }

  /** Query number i of the call went as its exchange says. */
  predicate Took(t: Trace, i: nat)
    requires i < Count(t)
  {
    var a := if i == 0 then t.first else t.second;
    a.q == InfoQuery(a.log, a.base, a.patch, a.exchange) && a.patch.version == a.base + 1 && Numbered(a.log)
  }

  predicate IsTrace(t: Trace) {
    forall i :: 0 <= i < Count(t) ==> Took(t, i)
  }

  /** The query met a conflict, and the patches of the answer can be applied. */
  ghost predicate Retries(expand: Expand, keys: set<Mac>, a: Asked) {
    && a.q.reply.Conflict? && FaithfulList(a.q.log, a.base, a.q.reply.list)
    && ListAccepted(expand, keys, a.q.log, a.base, a.q.reply.list)
  }

  /** The queries of a sendAppState call: a second one exactly after such a conflict,
      against the version that those patches lead to. */
  ghost predicate IsCall(expand: Expand, keys: set<Mac>, log: seq<Patch>, v: nat, allowRetry: bool, t: Trace) {
    && IsTrace(t) && !t.NotSent? && t.first.log == log && t.first.base == v
    && (t.Twice? <==> allowRetry && Retries(expand, keys, t.first))
    && (t.Twice? ==> t.second.log == t.first.q.log && t.second.base == v + |t.first.q.reply.list.patches|)
  }

  function FramesOf(t: Trace): seq<Frame> {
    match t
    case NotSent => []
    case Once(a) => a.q.frames
    case Twice(a, b) => a.q.frames + b.q.frames
  }

  function LastReply(t: Trace): Reply {
    match t
    case NotSent => Lost
    case Once(a) => a.q.reply
    case Twice(_, b) => b.q.reply
  }

  /** What the last query of a call found, and what it left. */
  function LastBase(t: Trace): nat {
    match t case NotSent => 0 case Once(a) => a.base case Twice(_, b) => b.base
  }

  function LastLog(t: Trace): seq<Patch> {
    match t case NotSent => [] case Once(a) => a.q.log case Twice(_, b) => b.q.log
  }

  function Joined(t: Trace, u: Trace): Trace {
    if t.Once? && u.Once? then Twice(t.first, u.first) else t
  }

  /** The frames of one info query: one, or two if the first was interrupted. At
      most one is accepted: afterwards the base version is out of date. */
  ghost predicate IQFrames(h: seq<Frame>, reply: Reply) {
    && 1 <= |h| <= 2
    && (|h| == 2 ==> h[0].interrupted && !(h[0].fate == Accepted && h[1].fate == Accepted))
    && (reply.Done? ==> h[|h| - 1] == Frame(Accepted, false))
    && (reply.Conflict? ==> h[|h| - 1] == Frame(Refused, false))
  }

  lemma InfoQueryFacts(log: seq<Patch>, base: nat, patch: Patch, x: Exchange)
    requires Numbered(log) && patch.version == base + 1
    ensures var q := InfoQuery(log, base, patch, x);
      && Numbered(q.log) && log <= q.log && IQFrames(q.frames, q.reply) && !q.reply.Interrupted?
      && (q.reply.Done? ==> |log| <= base < |q.log| && q.log[base] == patch)
      && (q.reply.Conflict? ==> FaithfulList(q.log, base, q.reply.list) && q.reply.list.snapshot.None?)
  {
    var a := Send(log, base, patch, x.first);
    SendFacts(log, base, patch, x.first);
    SendFacts(a.log, base, patch, x.second);
  }

  /** A call is accepted twice exactly if its very first frame was taken although its
      answer was cut off, and then the frame of the conflict retry was taken too. */
  ghost predicate AcceptedTwice(h: seq<Frame>) {
    |h| > 2 && h[0] == Frame(Accepted, true) && (h[2].fate == Accepted || (|h| == 4 && h[3].fate == Accepted))
  }

  /** The frames of one sendAppState call. Without the conflict retry the server
      accepts the patch at most once, with it at most twice. */
  ghost predicate SendFrames(h: seq<Frame>, allowRetry: bool, success: bool) {
    && |h| <= (if allowRetry then 4 else 2)
    && CountAccepted(h) <= (if allowRetry then 2 else 1)
    && (CountAccepted(h) == 2 <==> AcceptedTwice(h))
    && (success ==> |h| > 0)
    && (success ==> CountAccepted(h) == if allowRetry && h[0] == Frame(Accepted, true) then 2 else 1)
  }

  lemma {:induction false} CountConcat(a: seq<Frame>, b: seq<Frame>, n: nat)
    requires n <= |b|
    ensures CountFirst(a + b, |a| + n) == CountAccepted(a) + CountFirst(b, n)
  {
    if n > 0 {
      CountConcat(a, b, n - 1);
    } else {
      CountPrefix(a, b, |a|);
    }
  }

  lemma {:induction false} CountPrefix(a: seq<Frame>, b: seq<Frame>, n: nat)
    requires n <= |a|
    ensures CountFirst(a + b, n) == CountFirst(a, n)
  {
    if n > 0 { CountPrefix(a, b, n - 1); }
  }

  lemma CountShort(h: seq<Frame>)
    requires 1 <= |h| <= 2
    ensures CountAccepted(h) == (if h[0].fate == Accepted then 1 else 0) + (if |h| == 2 && h[1].fate == Accepted then 1 else 0)
  {
    assert CountFirst(h, 0) == 0;
    assert CountFirst(h, 1) == if h[0].fate == Accepted then 1 else 0;
  }

  lemma OneQuery(h: seq<Frame>, reply: Reply, allowRetry: bool, success: bool)
    requires IQFrames(h, reply) && (success ==> reply.Done?)
    ensures SendFrames(h, allowRetry, success)
  {
    CountShort(h);
  }

  lemma TwoQueries(h: seq<Frame>, reply: Reply, h': seq<Frame>, reply': Reply, success: bool)
    requires IQFrames(h, reply) && reply.Conflict? && IQFrames(h', reply') && (success ==> reply'.Done?)
    ensures SendFrames(h + h', true, success)
  {
    CountShort(h);
    CountShort(h');
    CountConcat(h, h', |h'|);
  }

  lemma CallJoined(expand: Expand, keys: set<Mac>, allowRetry: bool, t: Trace, u: Trace)
    requires IsTrace(t) && IsTrace(u) && t.Once? && !u.Twice?
    requires u.Once? <==> allowRetry && Retries(expand, keys, t.first)
    requires u.Once? ==> u.first.log == t.first.q.log && u.first.base == t.first.base + |t.first.q.reply.list.patches|
    ensures IsCall(expand, keys, t.first.log, t.first.base, allowRetry, Joined(t, u))
    ensures FramesOf(Joined(t, u)) == FramesOf(t) + FramesOf(u)
  {
    assert Took(t, 0) && (u.Once? ==> Took(u, 0));
    assert FramesOf(t) + [] == FramesOf(t);
  }

  lemma FramesInOrder(before: seq<Frame>, a: seq<Frame>, b: seq<Frame>)
    ensures before + a + b == before + (a + b)
  {
  }

  lemma OnceFacts(a: Asked)
    requires Took(Once(a), 0)
    ensures IQFrames(a.q.frames, a.q.reply)
  {
    InfoQueryFacts(a.log, a.base, a.patch, a.exchange);
  }

  /** How often the frames of one call are accepted, whatever the server, the connection
      and other devices do. */
  lemma FramesOfCall(expand: Expand, keys: set<Mac>, log: seq<Patch>, v: nat, allowRetry: bool, t: Trace)
    requires IsCall(expand, keys, log, v, allowRetry, t)
    ensures SendFrames(FramesOf(t), allowRetry, LastReply(t).Done?)
  {
    assert Took(t, 0);
    OnceFacts(t.first);
    if t.Twice? {
      assert Took(t, 1);
      OnceFacts(t.second);
      TwoQueries(t.first.q.frames, t.first.q.reply, t.second.q.frames, t.second.q.reply, t.second.q.reply.Done?);
    } else {
      OneQuery(t.first.q.frames, t.first.q.reply, allowRetry, t.first.q.reply.Done?);
    }
  }

  /** What a fetch starts from: nothing, or what is saved. */
  ghost function StartContents(fullSync: bool, l: Local): Contents {
    if fullSync then map[] else View(l.rows)
  }

  function StartVersion(fullSync: bool, l: Local): nat {
    if fullSync || l.row.None? then 0 else l.row.value.version
  }

  /** The device has dispatched one list and then the rest of the log. */
  lemma DispatchedOn(
      parse: ParseJid, d: Device, log: seq<Patch>, from: nat, list: PatchList, reached: nat, d': Device, d'': Device)
    requires FaithfulList(log, from, list) && list.snapshot.None? && reached == from + |list.patches|
    requires d' == DispatchAll(parse, d, Delivered(list))
    requires d'' == DispatchAll(parse, d', Mutations(log, reached, |log|))
    ensures d'' == DispatchAll(parse, d, Mutations(log, from, |log|))
  {
    DeliveredIsStretch(log, from, list);
    MutationsJoin(log, from, reached, |log|);
    DispatchConcat(parse, d, Delivered(list), Mutations(log, reached, |log|));
  }

  lemma DeliveredIsStretch(log: seq<Patch>, from: nat, list: PatchList)
    requires FaithfulList(log, from, list) && list.snapshot.None?
    ensures Delivered(list) == Mutations(log, from, from + |list.patches|)
  {
    MutationsOfSlice(log, list.patches, from, |list.patches|);
    NothingBefore(Mutations(list.patches, 0, |list.patches|));
  }

  /** A fetch from nothing is a full one. */
  function StartsFull(fullSync: bool, l: Local): bool {
    fullSync || StartVersion(fullSync, l) == 0
  }

  /** What a fetch goes by besides the log and the stores; `fast` is whether contacts
      are inserted in bulk. */
  datatype Fetch = Fetch(
    expand: Expand, keys: set<Mac>, parse: ParseJid, rule: KeepRule, full: bool, fast: bool, queries: seq<Query>)

  /** A point of a fetch: the log, the version reached, what was handed on, the device. */
  datatype Point = Point(log: seq<Patch>, version: nat, handed: seq<Mutation>, device: Device)

  /** The point after the first i answers. */
  function PointAfter(f: Fetch, start: Point, i: nat): (p: Point)
    requires i <= |f.queries|
    ensures start.log <= p.log && (Numbered(start.log) ==> Numbered(p.log))
  {
    if i == 0 then start
    else
      var p, q := PointAfter(f, start, i - 1), f.queries[i - 1];
      Point(Grown(p.log, q.before), Base(q.list, p.version) + |q.list.patches|, p.handed + Delivered(q.list),
            Collected(f.parse, f.rule, f.fast, p.device, Delivered(q.list)))
  }

  /** Without the bulk insert the device has dispatched all mutations in order. */
  lemma {:induction false} DispatchedInOrder(f: Fetch, start: Point, i: nat)
    requires i <= |f.queries| && !f.fast && start.handed == []
    ensures var p := PointAfter(f, start, i); p.device == DispatchAll(f.parse, start.device, p.handed)
  {
    if i > 0 {
      DispatchedInOrder(f, start, i - 1);
      DispatchConcat(f.parse, start.device, PointAfter(f, start, i - 1).handed, Delivered(f.queries[i - 1].list));
    }
  }

  /** The device after the bulk inserts of the first n answers and the dispatch of the rest of each. */
  function BulkDevice(parse: ParseJid, rule: KeepRule, d: Device, queries: seq<Query>, n: nat): Device
    requires n <= |queries|
  {
    if n == 0 then d else FastPath(parse, rule, BulkDevice(parse, rule, d, queries, n - 1), Delivered(queries[n - 1].list))
  }

  lemma {:induction false} BulkInOrder(f: Fetch, start: Point, i: nat)
    requires i <= |f.queries| && f.fast
    ensures PointAfter(f, start, i).device == BulkDevice(f.parse, f.rule, start.device, f.queries, i)
  {
    if i > 0 { BulkInOrder(f, start, i - 1); }
  }

  /** Some mutation, set or removed, names a contact. */
  predicate NamesContact(mus: seq<Mutation>) {
    exists i :: 0 <= i < |mus| && mus[i].index.kind == ContactKind && |mus[i].index.args| > 0
  }

  lemma {:induction false} EntriesIff(parse: ParseJid, mus: seq<Mutation>)
    ensures Entries(parse, mus) != [] <==> NamesContact(mus)
  {
    if mus != [] { EntriesIff(parse, mus[..|mus| - 1]); }
  }

  /** When request i of a fetch is answered, and with a list that its log allows. */
  predicate RoundAnswered(f: Fetch, start: Point, i: nat)
    requires i < |f.queries|
  {
    var p, q := PointAfter(f, start, i), f.queries[i];
    q.answered && IsAnswer(Grown(p.log, q.before), p.version, q.list)
  }

  /** When request i of a fetch is answered with a list that can be applied. */
  ghost predicate RoundApplies(f: Fetch, start: Point, i: nat)
    requires i < |f.queries|
  {
    var p, q := PointAfter(f, start, i), f.queries[i];
    var met := Grown(p.log, q.before);
    && q.answered && IsAnswer(met, p.version, q.list) && (q.list.snapshot.Some? ==> f.full && i == 0)
    && ListAccepted(f.expand, f.keys, met, p.version, q.list)
  }

  /** And its contacts can be stored. */
  ghost predicate RoundWorks(f: Fetch, start: Point, i: nat)
    requires i < |f.queries|
  {
    RoundApplies(f, start, i) && CanCollect(f.parse, f.fast, Delivered(f.queries[i].list), f.queries[i].contactsStored)
  }

  /** When fetching goes through from request i on, up to a last answer. */
  ghost predicate FetchWorks(f: Fetch, start: Point, i: nat)
    decreases |f.queries| - i
  {
    i < |f.queries| && RoundWorks(f, start, i) && (f.queries[i].list.hasMore ==> FetchWorks(f, start, i + 1))
  }

  /** The course of a fetch, written out: its points, which requests are answered, which
      answers can be applied, and which rounds work. The inputs
      determine it, so that the loop can be compared with it step by step. */
  datatype Course = Course(points: seq<Point>, answered: seq<bool>, applied: seq<bool>, rounds: seq<bool>)

  ghost predicate IsCourse(f: Fetch, start: Point, c: Course) {
    && |c.points| == |f.queries| + 1 && c.points[0] == start
    && (forall i {:trigger PointAfter(f, start, i)} :: 0 <= i < |c.points| ==> c.points[i] == PointAfter(f, start, i))
    && AreRounds(f, start, c.rounds) && |c.applied| == |c.answered| == |f.queries|
    && (forall i {:trigger RoundAnswered(f, start, i)} :: 0 <= i < |c.answered| ==> (c.answered[i] <==> RoundAnswered(f, start, i)))
    && (forall i {:trigger RoundApplies(f, start, i)} :: 0 <= i < |c.applied| ==> (c.applied[i] <==> RoundApplies(f, start, i)))
  }

  ghost predicate AreRounds(f: Fetch, start: Point, rounds: seq<bool>) {
    && |rounds| == |f.queries|
    && (forall i {:trigger RoundWorks(f, start, i)} :: 0 <= i < |rounds| ==> (rounds[i] <==> RoundWorks(f, start, i)))
  }

  predicate Goes(queries: seq<Query>, rounds: seq<bool>, i: nat)
    requires |rounds| == |queries|
    decreases |queries| - i
  {
    i < |queries| && rounds[i] && (queries[i].list.hasMore ==> Goes(queries, rounds, i + 1))
  }

  lemma {:induction false} GoesIffWorks(f: Fetch, start: Point, rounds: seq<bool>, i: nat)
    requires AreRounds(f, start, rounds)
    ensures Goes(f.queries, rounds, i) <==> FetchWorks(f, start, i)
    decreases |f.queries| - i
  {
    if i < |f.queries| {
      assert rounds[i] <==> RoundWorks(f, start, i);
      if rounds[i] { GoesIffWorks(f, start, rounds, i + 1); }
    }
  }

  lemma CourseOf(f: Fetch, start: Point) returns (c: Course)
    ensures IsCourse(f, start, c)
    ensures Goes(f.queries, c.rounds, 0) <==> FetchWorks(f, start, 0)
  {
    c := Course(seq(|f.queries| + 1, i requires 0 <= i <= |f.queries| => PointAfter(f, start, i)),
                seq(|f.queries|, i requires 0 <= i < |f.queries| => RoundAnswered(f, start, i)),
                seq(|f.queries|, i requires 0 <= i < |f.queries| => RoundApplies(f, start, i)),
                seq(|f.queries|, i requires 0 <= i < |f.queries| => RoundWorks(f, start, i)));
    GoesIffWorks(f, start, c.rounds, 0);
  }

  /** The answer of round i leads from its point to the next. */
  ghost predicate RoundLeadsOn(f: Fetch, start: Point, i: nat)
    requires i < |f.queries|
  {
    var p, t, list := PointAfter(f, start, i), PointAfter(f, start, i + 1), f.queries[i].list;
    && p.log <= t.log && FaithfulList(t.log, p.version, list) && (list.snapshot.Some? ==> p.version == 0)
    && t.version == Base(list, p.version) + |list.patches| && t.handed == p.handed + Delivered(list)
  }

  lemma WorkingRoundLeadsOn(f: Fetch, start: Point, i: nat)
    requires i < |f.queries| && RoundWorks(f, start, i) && (f.full ==> start.version == 0)
    ensures RoundLeadsOn(f, start, i)
  {
  }

  /** What the first n answers of a fetch deliver accounts for the contents they lead to. */
  lemma {:induction false} AnswersAccount(f: Fetch, start: Point, contents: Contents, n: nat)
    requires n <= |f.queries| && (forall i :: 0 <= i < n ==> RoundLeadsOn(f, start, i))
    requires AccountsFor(contents, start.version, start.handed, start.log, start.version)
    ensures var p := PointAfter(f, start, n); AccountsFor(contents, start.version, p.handed, p.log, p.version)
  {
    if n > 0 {
      AnswersAccount(f, start, contents, n - 1);
      assert RoundLeadsOn(f, start, n - 1);
      var p, t := PointAfter(f, start, n - 1), PointAfter(f, start, n);
      AccountsForAnswer(contents, start.version, p.handed, p.log, t.log, p.version, f.queries[n - 1].list, t.version);
    }
  }

  lemma PointAccounts(f: Fetch, start: Point, c: Course, contents: Contents, n: nat, longer: seq<Patch>)
    requires IsCourse(f, start, c) && n <= |f.queries| && (forall i :: 0 <= i < n ==> c.rounds[i])
    requires AccountsFor(contents, start.version, start.handed, start.log, start.version) && (f.full ==> start.version == 0)
    requires c.points[n].log <= longer
    ensures c.points[n] == PointAfter(f, start, n)
    ensures AccountsFor(contents, start.version, c.points[n].handed, longer, c.points[n].version)
  {
    forall i | 0 <= i < n ensures RoundLeadsOn(f, start, i) {
      assert RoundWorks(f, start, i);
      WorkingRoundLeadsOn(f, start, i);
    }
    AnswersAccount(f, start, contents, n);
    var p := PointAfter(f, start, n);
    AccountsInLonger(contents, start.version, p.handed, p.log, longer, p.version);
  }

  /** What a fetch has made of the device, and when the contacts are why it fails. */
  lemma DeviceSpelledOut<T>(f: Fetch, start: Point, c: Course, n: nat, r: Result<T, SyncError>)
    requires IsCourse(f, start, c) && n <= |f.queries| && start.handed == []
    requires r.Failure? ==> (r.error == ContactStoreFailed <==> n < |f.queries| && c.applied[n])
    requires n < |f.queries| && r.Failure? ==> !c.rounds[n]
    requires r.Failure? ==> (r.error == TransportFailure <==> n == |f.queries| || !c.answered[n])
    ensures r.Failure? ==> (r.error == TransportFailure <==> n == |f.queries| || !RoundAnswered(f, start, n))
    ensures !f.fast ==>
      && c.points[n].device == DispatchAll(f.parse, start.device, c.points[n].handed)
      && (r.Failure? ==> r.error != ContactStoreFailed)
    ensures f.fast ==> c.points[n].device == BulkDevice(f.parse, f.rule, start.device, f.queries, n)
    ensures f.fast ==> (r.Failure? && r.error == ContactStoreFailed <==>
      && r.Failure? && n < |f.queries| && !f.queries[n].contactsStored && NamesContact(Delivered(f.queries[n].list))
      && RoundApplies(f, start, n))
  {
    assert c.points[n] == PointAfter(f, start, n);
    if f.fast { BulkInOrder(f, start, n); } else { DispatchedInOrder(f, start, n); }
    if n < |f.queries| {
      EntriesIff(f.parse, Delivered(f.queries[n].list));
      assert (c.applied[n] <==> RoundApplies(f, start, n)) && (c.rounds[n] <==> RoundWorks(f, start, n));
      assert c.answered[n] <==> RoundAnswered(f, start, n);
    }
  }

  /** When a whole fetch succeeds: the saved version is a valid one, and there is nothing
      to do or fetching from there goes through. */
  ghost predicate FetchGoes(f: Fetch, start: Point, l: Local, fullSync: bool, onlyIfNotSynced: bool) {
    && (fullSync || l.row.None? || start.version > 0)
    && ((onlyIfNotSynced && start.version > 0) || FetchWorks(f, start, 0))
  }

  datatype Round = Round(list: PatchList, decoded: Decoded)

  /** Everything outside of the client that one sendAppState call meets. */
  datatype Outside = Outside(exchange: Exchange, macs: nat -> Mac, fetch: seq<Query>)

  /** `critical` says that the collection is the one with the contacts. */
  class SyncClient {
    const proc: Processor
    const server: Server
    const device: DeviceStore
    const parse: ParseJid
    const rule: KeepRule
    const critical: bool
    const emitOnFullSync: bool
    var latestKeyId: Option<Mac>

    constructor (proc: Processor, server: Server, device: DeviceStore, parse: ParseJid, rule: KeepRule,
                 critical: bool, emitOnFullSync: bool, latestKeyId: Option<Mac>)
      ensures this.proc == proc && this.server == server && this.device == device
      ensures this.parse == parse && this.rule == rule && this.critical == critical
      ensures this.emitOnFullSync == emitOnFullSync && this.latestKeyId == latestKeyId
    {
      this.proc, this.server, this.device := proc, server, device;
      this.parse, this.rule, this.critical := parse, rule, critical;
      this.emitOnFullSync, this.latestKeyId := emitOnFullSync, latestKeyId;
    }

    /** Contacts are inserted in bulk. */
    predicate Fast(full: bool) {
      critical && full && !emitOnFullSync
    }

    /** Answer n can be applied and names a contact that cannot be stored. */
    ghost predicate StopsAtContacts(start: Point, queries: seq<Query>, n: nat)
      reads proc
    {
      && n < |queries| && !queries[n].contactsStored && NamesContact(Delivered(queries[n].list))
      && RoundApplies(Fetch(proc.expand, proc.keys, parse, rule, true, true, queries), start, n)
    }

    /** The fetch has come to a point. */
    ghost predicate Follows(p: Point, upto: nat, handed: seq<Mutation>)
      reads device
    {
      p.version == upto && p.handed == handed && p.device == device.device
    }

    /** Where a fetch starts: from nothing, or from the saved version. */
    ghost function Start(fullSync: bool): Point
      reads proc.store, server, device
    {
      Point(server.log, StartVersion(fullSync, proc.store.Value()), [], device.device)
    }

    /** The point of a fetch after the first n answers. */
    ghost function Used(fullSync: bool, queries: seq<Query>, n: nat): Point
      requires n <= |queries|
      reads proc, proc.store, server, device
    {
      PointAfter(FetchOf(StartsFull(fullSync, proc.store.Value()), queries), Start(fullSync), n)
    }

    ghost predicate NextAnswered(fullSync: bool, queries: seq<Query>, n: nat)
      reads proc, proc.store, server, device
    {
      n < |queries| && RoundAnswered(FetchOf(StartsFull(fullSync, proc.store.Value()), queries), Start(fullSync), n)
    }

    ghost function FetchOf(full: bool, queries: seq<Query>): Fetch
      reads proc
    {
      Fetch(proc.expand, proc.keys, parse, rule, full, Fast(full), queries)
    }

    ghost predicate IsFetch(f: Fetch, full: bool, queries: seq<Query>)
      reads proc
    {
      && f.expand == proc.expand && f.keys == proc.keys && f.parse == parse && f.rule == rule
      && f.full == full && f.fast == Fast(full) && f.queries == queries
    }

    /** Why a fetch failed that had handed on everything up to version `upto`, and where
        the store is then. */
    ghost predicate Explained(e: SyncError, upto: nat, at: nat)
      reads proc, server
    {
      || (e == TransportFailure && at == upto)
      || (e == UnexpectedSnapshot && at == upto && server.served.snapshot.Some?)
      || (DecodeFailure(e)
          && FaithfulList(server.log, upto, server.served) && upto <= Base(server.served, upto)
          && ListStopsAt(proc.expand, proc.keys, server.log, upto, server.served, at, e))
      || (e == ContactStoreFailed
          && FaithfulList(server.log, upto, server.served) && upto <= Base(server.served, upto)
          && at == Base(server.served, upto) + |server.served.patches|)
    }

    /** The store after a failed or successful attempt to decode. */
    ghost predicate Left(failure: Option<SyncError>, at: HashState)
      reads proc.store, server
    {
      if failure == Some(DuplicateMacRow)
      then Torn(proc.expand, proc.store.Value(), server.log, at)
      else Synced(proc.expand, proc.store.Value(), server.log, at)
    }

    /** What a round brings that went through from version `from`. */
    ghost predicate Answered(round: Round, from: nat, list: PatchList, at: HashState)
      reads server
    {
      && round.list == list && server.served == list && FaithfulList(server.log, from, list)
      && (list.snapshot.Some? ==> from == 0)
      && round.decoded.state == at && at.version == Base(list, from) + |list.patches|
      && round.decoded.mutations == Delivered(list)
      && (!list.hasMore ==> at.version == |server.log|)
    }

    /** One request and its answer; `works` is whether that can be applied. */
    method FetchAnswer(
        state: HashState, wantSnapshot: bool, q: Query, ghost f: Fetch, ghost start: Point, ghost i: nat, ghost works: bool)
      returns (r: Result<Round, SyncError>, ghost at: HashState)
      requires i < |f.queries| && f.queries[i] == q && f.expand == proc.expand && f.keys == proc.keys
      requires Numbered(server.log) && Synced(proc.expand, proc.store.Value(), server.log, state)
      requires wantSnapshot == (f.full && i == 0)
      requires wantSnapshot ==> state == HashState(0, ZERO) && proc.store.Value() == Local(None, [])
      requires server.log == PointAfter(f, start, i).log && state.version == PointAfter(f, start, i).version
      requires works <==> RoundApplies(f, start, i)
      modifies proc.store, server
      ensures server.log == Grown(old(server.log), q.before) && server.frames == old(server.frames)
      ensures state.version <= at.version <= |server.log|
      ensures Left(if r.Failure? then Some(r.error) else None, at)
      ensures r.Failure? ==> Explained(r.error, state.version, at.version) && r.error != ContactStoreFailed
      ensures r.Failure? ==> (r.error == TransportFailure <==> !(q.answered && IsAnswer(server.log, state.version, q.list)))
      ensures (r.Success? <==> works) && (r.Success? ==> Answered(r.value, state.version, q.list, at))
      ensures old(server.stalls) <= server.stalls
      ensures r.Success? ==>
        server.stalls == old(server.stalls) + (if q.list.hasMore && at.version <= state.version then 1 else 0)
    {
      var answer := server.FetchPatches(state.version, q);
      at := state;
      SyncedWithLonger(proc.expand, proc.store.Value(), old(server.log), server.log, state);
      if answer.Failure? {
        return Failure(answer.error), at;
      }
      var list := answer.value;
      if !wantSnapshot && list.snapshot.Some? {
        return Failure(UnexpectedSnapshot), at;
      } else if list.snapshot.Some? && state != HashState(0, ZERO) {
        assert false; // the check of line 79 never fires
      }
      var decoded;
      decoded, at := proc.DecodePatches(list, state, server.log);
      if decoded.Failure? {
        return Failure(decoded.error), at;
      }
      return Success(Round(list, decoded.value)), at;
    }

    /** Event collection for the mutations of one answer. */
    method Collect(mus: seq<Mutation>, fast: bool, stored: bool) returns (ok: bool)
      modifies device
      ensures ok <==> CanCollect(parse, fast, mus, stored)
      ensures device.device == if ok then Collected(parse, rule, fast, old(device.device), mus) else old(device.device)
    {
      var a := new Mutation[|mus|](i requires 0 <= i < |mus| => mus[i]);
      assert a[..|mus|] == mus;
      ok := device.CollectEvents(parse, rule, a, |mus|, fast, stored);
    }

    /** The body of the loop of fetchAppState: the answer and its event collection. */
    method FetchRound(state: HashState, wantSnapshot: bool, full: bool, queries: seq<Query>, i: nat,
                      ghost f: Fetch, ghost start: Point, ghost c: Course)
      returns (r: Result<Round, SyncError>, ghost at: HashState)
      requires i < |queries| && IsFetch(f, full, queries) && IsCourse(f, start, c)
      requires server.log == c.points[i].log && state.version == c.points[i].version && device.device == c.points[i].device
      requires Numbered(server.log) && Synced(proc.expand, proc.store.Value(), server.log, state)
      requires wantSnapshot == (full && i == 0)
      requires wantSnapshot ==> state == HashState(0, ZERO) && proc.store.Value() == Local(None, [])
      modifies proc.store, server, device
      ensures server.log == c.points[i + 1].log && Numbered(server.log) && old(server.log) <= server.log
      ensures server.frames == old(server.frames)
      ensures state.version <= at.version <= |server.log|
      ensures Left(if r.Failure? then Some(r.error) else None, at)
      ensures r.Failure? ==> Explained(r.error, state.version, at.version) && device.device == c.points[i].device
      ensures r.Failure? ==> (r.error == ContactStoreFailed <==> c.applied[i])
      ensures r.Failure? ==> (r.error == TransportFailure <==> !c.answered[i])
      ensures r.Success? <==> c.rounds[i]
      ensures r.Success? ==>
        && r.value.list == queries[i].list && r.value.decoded.state == at
        && at.version == c.points[i + 1].version && device.device == c.points[i + 1].device
        && c.points[i + 1].handed == c.points[i].handed + r.value.decoded.mutations
        && (!queries[i].list.hasMore ==> at.version == |server.log|)
      ensures old(server.stalls) <= server.stalls
      ensures r.Success? ==>
        server.stalls == old(server.stalls) + (if queries[i].list.hasMore && at.version <= state.version then 1 else 0)
    {
      ghost var works := RoundApplies(f, start, i);
      assert PointAfter(f, start, i) == c.points[i] && PointAfter(f, start, i + 1) == c.points[i + 1];
      assert (c.applied[i] <==> RoundApplies(f, start, i)) && (c.rounds[i] <==> RoundWorks(f, start, i));
      assert c.answered[i] <==> RoundAnswered(f, start, i);
      r, at := FetchAnswer(state, wantSnapshot, queries[i], f, start, i, works);
      if r.Success? {
        var ok := Collect(r.value.decoded.mutations, Fast(full), queries[i].contactsStored);
        if !ok {
          return Failure(ContactStoreFailed), at;
        }
      }
    }

    /** The loop of fetchAppState, from a saved state. `handed` are the mutations that
        went through event collection, of `used` answers, `upto` the log version they
        reach, `at` the state the store has reached. */
    method FetchLoop(saved: HashState, full: bool, queries: seq<Query>, ghost f: Fetch, ghost start: Point, ghost c: Course)
      returns (r: Result<bool, SyncError>, handed: seq<Mutation>, used: nat, ghost upto: nat, ghost at: HashState)
      requires IsFetch(f, full, queries) && IsCourse(f, start, c)
      requires start == Point(server.log, saved.version, [], device.device)
      requires Numbered(server.log) && Synced(proc.expand, proc.store.Value(), server.log, saved)
      requires full ==> saved == HashState(0, ZERO) && proc.store.Value() == Local(None, [])
      modifies proc.store, server, device
      ensures Numbered(server.log) && old(server.log) <= server.log && server.frames == old(server.frames)
      ensures r.Success? ==> r.value && at.version == |server.log| == upto
      ensures r.Success? <==> Goes(queries, c.rounds, 0)
      ensures Left(if r.Failure? then Some(r.error) else None, at)
      ensures upto <= at.version <= |server.log|
      ensures r.Failure? ==> Explained(r.error, upto, at.version)
      ensures used <= |queries|
      ensures r.Failure? ==> (r.error == ContactStoreFailed <==> used < |queries| && c.applied[used])
      ensures r.Failure? ==> (r.error == TransportFailure <==> used == |queries| || !c.answered[used])
      ensures used < |queries| && r.Failure? ==> !c.rounds[used]
      ensures c.points[used].log <= server.log && forall i :: 0 <= i < used ==> c.rounds[i]
      ensures upto == c.points[used].version && handed == c.points[used].handed && device.device == c.points[used].device
      ensures used <= at.version - saved.version + 1 + (server.stalls - old(server.stalls))
    {
      var state := saved;
      var hasMore, wantSnapshot := true, full;
      handed, used, upto, at := [], 0, state.version, state;
      ghost var log := server.log;
      while hasMore
        invariant Numbered(server.log) && log <= server.log && server.frames == old(server.frames)
        invariant used <= |queries| && at == state && upto == state.version <= |server.log|
        invariant server.log == c.points[used].log && state.version == c.points[used].version
        invariant handed == c.points[used].handed && device.device == c.points[used].device
        invariant Synced(proc.expand, proc.store.Value(), server.log, state)
        invariant wantSnapshot == (full && used == 0)
        invariant wantSnapshot ==> state == HashState(0, ZERO) && proc.store.Value() == Local(None, [])
        invariant forall i :: 0 <= i < used ==> c.rounds[i]
        invariant !hasMore ==> state.version == |server.log|
        invariant Goes(queries, c.rounds, 0) <==> (hasMore ==> Goes(queries, c.rounds, used))
        invariant used <= state.version - saved.version + (server.stalls - old(server.stalls)) + (if hasMore then 0 else 1)
        decreases hasMore, |queries| - used
      {
        if used == |queries| {
          return Failure(TransportFailure), handed, used, upto, at;
        }
        var round;
        round, at := FetchRound(state, wantSnapshot, full, queries, used, f, start, c);
        if round.Failure? {
          return Failure(round.error), handed, used, upto, at;
        }
        wantSnapshot := false;
        hasMore := round.value.list.hasMore;
        state := round.value.decoded.state;
        handed := handed + round.value.decoded.mutations;
        used, upto := used + 1, state.version;
      }
      return Success(true), handed, used, upto, at;
    }

    /** When a failure leaves mutations that were stored and are not handed on: if a part
        of the refused answer had been stored, or if all of it was and its contacts could
        not be. */
    ghost predicate Unhanded(e: SyncError, upto: nat)
      reads proc, server
    {
      && FaithfulList(server.log, upto, server.served)
      && ((DecodeFailure(e) && PartlyStored(proc.expand, proc.keys, server.log, upto, server.served, e))
          || (e == ContactStoreFailed && Base(server.served, upto) + |server.served.patches| > upto))
    }

    lemma UnhandedIff(e: SyncError, upto: nat, at: nat)
      requires Explained(e, upto, at)
      ensures upto < at <==> Unhanded(e, upto)
    {
      if DecodeFailure(e) { StoppedBehind(proc.expand, proc.keys, server.log, upto, server.served, at, e); }
    }

    /** fetchAppState. The result is whether the server was asked. */
    method FetchAppState(fullSync: bool, onlyIfNotSynced: bool, queries: seq<Query>)
      returns (r: Result<bool, SyncError>, events: seq<Mutation>, handed: seq<Mutation>, used: nat,
               ghost upto: nat, ghost at: HashState)
      requires Numbered(server.log)
      requires fullSync || InSync(proc.expand, proc.store.Value(), server.log)
      modifies proc.store, server, device
      ensures Numbered(server.log) && old(server.log) <= server.log && server.frames == old(server.frames)
      // success without contacting the server: nothing happened
      ensures r.Success? && !r.value ==>
        && onlyIfNotSynced && !fullSync && used == 0
        && proc.store.Value() == old(proc.store.Value()) && server.log == old(server.log)
      // when it succeeds: there is nothing to do, or every answer up to the last can be applied
      ensures r.Success? <==> old(FetchGoes(FetchOf(StartsFull(fullSync, proc.store.Value()), queries), Start(fullSync),
                                            proc.store.Value(), fullSync, onlyIfNotSynced))
      // convergence: the store holds the replay of the whole log
      ensures r.Success? && r.value ==> at.version == |server.log| == upto
      // in any case it holds the replay of a prefix, except after a patch that sets an index twice
      ensures Left(if r.Failure? then Some(r.error) else None, at)
      // the mutations handed on account for the contents of a prefix that may be shorter
      ensures upto <= at.version <= |server.log|
      ensures AccountsFor(StartContents(fullSync, old(proc.store.Value())), StartVersion(fullSync, old(proc.store.Value())),
                          handed, server.log, upto)
      // they are those of the answers that were used, and event collection has put them on the device
      ensures used <= |queries| && Follows(old(Used(fullSync, queries, used)), upto, handed)
      ensures used <= at.version - StartVersion(fullSync, old(proc.store.Value())) + 1 + (server.stalls - old(server.stalls))
      // contacts are only inserted in bulk in a full sync of their collection without events for it
      ensures old(!critical || emitOnFullSync || (!fullSync && proc.store.row.Some?)) ==>
        && (r.Failure? ==> r.error != ContactStoreFailed)
        && device.device == DispatchAll(parse, old(device.device), handed)
      ensures old(critical && !emitOnFullSync && (fullSync || proc.store.row.None?)) ==>
        && device.device == BulkDevice(parse, rule, old(device.device), queries, used)
        && (r == Failure(ContactStoreFailed) <==>
              r.Failure? && StopsAtContacts(old(Start(fullSync)), queries, used))
      // a failure returns no events, not even those of the answers that were applied
      ensures events == if r.Failure? || (StartsFull(fullSync, old(proc.store.Value())) && !emitOnFullSync) then [] else handed
      // where a failure stopped, and when mutations that were stored are never handed on
      ensures r.Failure? ==> Explained(r.error, upto, at.version) || (r.error == InvalidSavedVersion && upto == at.version)
      ensures r.Failure? ==> (upto < at.version <==> Unhanded(r.error, upto))
      // a failed request is reported exactly if there is no answer to the next one
      ensures r.Failure? && r.error != InvalidSavedVersion ==>
        (r.error == TransportFailure <==> used == |queries| || !old(NextAnswered(fullSync, queries, used)))
    {
      ghost var l := proc.store.Value();
      ghost var contents, full0 := StartContents(fullSync, l), StartsFull(fullSync, l);
      ghost var f, begin := FetchOf(full0, queries), Start(fullSync);
      ghost var c := CourseOf(f, begin);
      if fullSync {
        proc.store.DeleteVersion();
        EmptyHash(proc.expand);
        assert Synced(proc.expand, proc.store.Value(), server.log, HashState(0, ZERO));
      }
      ghost var start := if proc.store.row.Some? then proc.store.row.value else HashState(0, ZERO);
      SavedStateIsSynced(proc.expand, proc.store.Value(), server.log, start);
      var saved := proc.store.GetVersion();
      if saved.Failure? {
        return Failure(saved.error), [], [], 0, start.version, start;
      }
      var full := fullSync;
      if saved.value.version == 0 {
        full := true;
      } else if onlyIfNotSynced {
        return Success(false), [], [], 0, start.version, start;
      }
      r, handed, used, upto, at := FetchSaved(saved.value, full, queries, f, begin, c, contents);
      events := if r.Failure? || (full && !emitOnFullSync) then [] else handed;
    }

    /** fetchAppState from a saved state on, with what its rounds add up to. */
    method FetchSaved(saved: HashState, full: bool, queries: seq<Query>,
                      ghost f: Fetch, ghost start: Point, ghost c: Course, ghost contents: Contents)
      returns (r: Result<bool, SyncError>, handed: seq<Mutation>, used: nat, ghost upto: nat, ghost at: HashState)
      requires IsFetch(f, full, queries) && IsCourse(f, start, c)
      requires start == Point(server.log, saved.version, [], device.device)
      requires Numbered(server.log) && Synced(proc.expand, proc.store.Value(), server.log, saved)
      requires full ==> saved == HashState(0, ZERO) && proc.store.Value() == Local(None, [])
      requires AccountsFor(contents, start.version, [], start.log, start.version)
      modifies proc.store, server, device
      ensures Numbered(server.log) && old(server.log) <= server.log && server.frames == old(server.frames)
      ensures r.Success? ==> r.value && at.version == |server.log| == upto
      ensures r.Success? <==> Goes(queries, c.rounds, 0)
      ensures Left(if r.Failure? then Some(r.error) else None, at)
      ensures upto <= at.version <= |server.log|
      ensures r.Failure? ==> Explained(r.error, upto, at.version) && (upto < at.version <==> Unhanded(r.error, upto))
      ensures AccountsFor(contents, start.version, handed, server.log, upto)
      ensures used <= |queries| && Follows(PointAfter(f, start, used), upto, handed)
      ensures used <= at.version - saved.version + 1 + (server.stalls - old(server.stalls))
      ensures !f.fast ==>
        (r.Failure? ==> r.error != ContactStoreFailed) && device.device == DispatchAll(parse, start.device, handed)
      ensures f.fast ==> device.device == BulkDevice(parse, rule, start.device, queries, used)
      ensures r.Failure? ==> (r.error == TransportFailure <==> used == |queries| || !RoundAnswered(f, start, used))
      ensures f.fast ==> (r == Failure(ContactStoreFailed) <==> r.Failure? && StopsAtContacts(start, queries, used))
    {
      r, handed, used, upto, at := FetchLoop(saved, full, queries, f, start, c);
      PointAccounts(f, start, c, contents, used, server.log);
      DeviceSpelledOut(f, start, c, used, r);
      if r.Failure? { UnhandedIff(r.error, upto, at.version); }
    }

    /** The patch at this position of the log sets what was asked for. */
    ghost predicate InLog(position: nat, infos: seq<MutationInfo>)
      reads server
    {
      position < |server.log| && Carries(server.log[position].mutations, server.log[position].keyId, infos)
    }

    /** sendIQ with retryFrame: a frame whose answer was cut off by the end of the
        stream is sent once more after the reconnection. */
    method SendIQ(base: nat, patch: Patch, x: Exchange) returns (reply: Reply, ghost t: Trace)
      requires Numbered(server.log) && patch.version == base + 1
      modifies server`log, server`frames
      ensures IsTrace(t) && t.Once? && t.first == Asked(old(server.log), base, patch, x, t.first.q)
      ensures server.log == t.first.q.log && server.frames == old(server.frames) + t.first.q.frames && reply == t.first.q.reply
      ensures Numbered(server.log) && old(server.log) <= server.log && IQFrames(t.first.q.frames, reply)
      ensures reply.Done? ==> |old(server.log)| <= base < |server.log| && server.log[base] == patch
      ensures reply.Conflict? ==> FaithfulList(server.log, base, reply.list) && reply.list.snapshot.None?
    {
      InfoQueryFacts(server.log, base, patch, x);
      t := Once(Asked(server.log, base, patch, x, InfoQuery(server.log, base, patch, x)));
      reply := server.Transmit(base, patch, x.first);
      if reply.Interrupted? {
        if !x.reconnects {
          return Lost, t;
        }
        reply := server.Transmit(base, patch, x.second);
        if reply.Interrupted? {
          return Lost, t;
        }
      }
    }

    /** A saved version can be read and the latest key is known. */
    ghost predicate CanSend()
      reads this, proc, proc.store
    {
      && (proc.store.row.Some? ==> proc.store.row.value.version != 0)
      && latestKeyId.Some? && latestKeyId.value in proc.keys
    }

    /** What is reported if nothing can be sent. */
    function WhyNotSent(): SyncError
      reads this, proc, proc.store
    {
      if proc.store.row.Some? && proc.store.row.value.version == 0 then InvalidSavedVersion
      else if latestKeyId.None? then NoAppStateKeys
      else KeyNotFound
    }

    function Saved(): HashState
      reads proc.store
    {
      if proc.store.row.Some? then proc.store.row.value else HashState(0, ZERO)
    }

    /** The patch sets what was asked for, encoded against the saved state. */
    ghost predicate IsOwn(infos: seq<MutationInfo>, patch: Patch)
      reads this, proc, proc.store
    {
      && latestKeyId == Some(patch.keyId) && Carries(patch.mutations, patch.keyId, infos)
      && EncodedFrom(proc.expand, Saved(), View(proc.store.rows), patch)
    }

    /** The patch itself. */
    ghost function Own(infos: seq<MutationInfo>, macs: nat -> Mac): Patch
      requires latestKeyId.Some?
      reads this, proc, proc.store
    {
      OwnPatch(proc.expand, latestKeyId.value, Saved(), View(proc.store.rows), infos, macs)
    }

    /** The first half of sendAppState: encode against the saved state and send. */
    method SendOnce(infos: seq<MutationInfo>, x: Exchange, macs: nat -> Mac)
      returns (r: Result<Reply, SyncError>, state: HashState, ghost t: Trace)
      requires Numbered(server.log) && InSync(proc.expand, proc.store.Value(), server.log)
      modifies server`log, server`frames
      ensures Numbered(server.log) && old(server.log) <= server.log && server.frames == old(server.frames) + FramesOf(t)
      ensures Synced(proc.expand, proc.store.Value(), server.log, state) && state == old(Saved())
      ensures CanSend() == old(CanSend()) == r.Success?
      ensures r.Failure? ==> t == NotSent && r.error == old(WhyNotSent())
      ensures r.Success? ==>
        && IsTrace(t) && t.Once? && t.first.log == old(server.log) && t.first.base == state.version && t.first.exchange == x
        && t.first.q.log == server.log && t.first.q.reply == r.value
        && old(IsOwn(infos, t.first.patch))
        && t.first.patch == old(Own(infos, macs))
      ensures r.Success? && r.value.Conflict? ==>
        FaithfulList(server.log, state.version, r.value.list) && r.value.list.snapshot.None?
      ensures r.Success? && r.value.Done? ==> |old(server.log)| <= state.version && InLog(state.version, infos)
    {
      state := Saved();
      SavedStateIsSynced(proc.expand, proc.store.Value(), server.log, state);
      var saved := proc.store.GetVersion();
      if saved.Failure? {
        return Failure(saved.error), state, NotSent;
      }
      if latestKeyId.None? {
        return Failure(NoAppStateKeys), state, NotSent;
      }
      var encoded := proc.EncodePatch(latestKeyId.value, state, infos, macs);
      if encoded.Failure? {
        return Failure(encoded.error), state, NotSent;
      }
      var reply;
      reply, t := SendIQ(state.version, encoded.value, x);
      SyncedWithLonger(proc.expand, proc.store.Value(), old(server.log), server.log, state);
      return Success(reply), state, t;
    }

    /** Fetching goes through from a log and a saved version on, with a device as it is then. */
    ghost predicate GoesFrom(log: seq<Patch>, version: nat, d: Device, queries: seq<Query>)
      reads proc
    {
      FetchWorks(Fetch(proc.expand, proc.keys, parse, rule, version == 0, critical && !emitOnFullSync && version == 0, queries),
                 Point(log, version, [], d), 0)
    }

    /** The list is refused for this reason, with the store at a version. */
    ghost predicate Refuses(log: seq<Patch>, from: nat, list: PatchList, at: nat, e: SyncError)
      reads proc
    {
      FaithfulList(log, from, list) && ListStopsAt(proc.expand, proc.keys, log, from, list, at, e)
    }

    /** The device after the conflict list of a call, if there was one. */
    ghost function DeviceBeforeFetch(d: Device, t: Trace): Device {
      if t.Twice? && t.first.q.reply.Conflict? then DispatchAll(parse, d, Delivered(t.first.q.reply.list)) else d
    }

    /** The device has dispatched the log from a saved version on, in order. */
    ghost predicate Dispatched(d: Device, from: nat)
      reads server, device
    {
      0 < from <= |server.log| ==> device.device == DispatchAll(parse, d, Mutations(server.log, from, |server.log|))
    }

    /** sendAppState. On success `r` is the position the patch has in the log. */
    method SendAppState(infos: seq<MutationInfo>, allowRetry: bool, o: Outside, retry: Outside)
      returns (r: Result<nat, SyncError>, ghost at: HashState, ghost t: Trace)
      requires Numbered(server.log) && InSync(proc.expand, proc.store.Value(), server.log)
      modifies proc.store, server, device
      decreases allowRetry, 2
      ensures Numbered(server.log) && old(server.log) <= server.log && server.frames == old(server.frames) + FramesOf(t)
      // the queries, on every path; FramesOfCall says how often their frames are accepted
      ensures !old(CanSend()) ==> t == NotSent && r == Failure(
        if old(proc.store.row).Some? && old(proc.store.row).value.version == 0 then InvalidSavedVersion
        else if old(latestKeyId).None? then NoAppStateKeys else KeyNotFound)
      ensures old(CanSend()) ==>
        && IsCall(proc.expand, proc.keys, old(server.log), old(Saved()).version, allowRetry, t)
        && t.first.patch == old(Own(infos, o.macs))
        && old(IsOwn(infos, t.first.patch))
        && t.first.exchange == o.exchange && (t.Twice? ==> t.second.exchange == retry.exchange)
        && (r.Success? ==> LastReply(t).Done?)
      // when it succeeds: the last query was accepted and answered, and the fetch that follows goes through
      ensures r.Success? <==>
        && old((proc.store.row.Some? ==> proc.store.row.value.version > 0) && latestKeyId.Some? && latestKeyId.value in proc.keys)
        && LastReply(t).Done?
        && GoesFrom(LastLog(t), LastBase(t), DeviceBeforeFetch(old(device.device), t), if t.Twice? then retry.fetch else o.fetch)
      ensures r.Success? ==> r.value == LastBase(t)
      ensures t.Once? && t.first.q.reply.Conflict? && allowRetry ==>
        r.Failure? && Refuses(t.first.q.log, t.first.base, t.first.q.reply.list, at.version, r.error)
      ensures !t.NotSent? && LastReply(t).Lost? ==> r == Failure(TransportFailure)
      ensures !t.NotSent? && (LastReply(t).Rejected? || (LastReply(t).Conflict? && (t.Twice? || !allowRetry))) ==>
        r == Failure(UpdateRejected)
      // success: the patch is in the log, and the store holds the replay of the whole log
      ensures r.Success? ==>
        && at.version == |server.log| && |old(server.log)| <= r.value && InLog(r.value, infos)
      // and the device has dispatched everything since the saved version, once and in order
      ensures r.Success? ==> Dispatched(old(device.device), old(Saved()).version)
      ensures Left(if r.Failure? then Some(r.error) else None, at)
    {
      var reply, state;
      reply, state, t := SendOnce(infos, o.exchange, o.macs);
      at := state;
      if reply.Failure? {
        return Failure(reply.error), at, t;
      }
      ghost var u;
      r, at, u := FinishCall(reply.value, state, infos, allowRetry, o.fetch, retry);
      CallJoined(proc.expand, proc.keys, allowRetry, t, u);
      FramesInOrder(old(server.frames), FramesOf(t), FramesOf(u));
      t := Joined(t, u);
    }

    /** What sendAppState does about the reply. */
    method FinishCall(
        reply: Reply, state: HashState, infos: seq<MutationInfo>, allowRetry: bool, fetch: seq<Query>, retry: Outside)
      returns (r: Result<nat, SyncError>, ghost at: HashState, ghost t: Trace)
      requires Numbered(server.log) && Synced(proc.expand, proc.store.Value(), server.log, state) && CanSend()
      requires reply.Done? ==> InLog(state.version, infos)
      requires Saved().version == state.version
      requires reply.Conflict? ==> FaithfulList(server.log, state.version, reply.list) && reply.list.snapshot.None?
      modifies proc.store, server, device
      decreases allowRetry, 1
      ensures Numbered(server.log) && old(server.log) <= server.log && server.frames == old(server.frames) + FramesOf(t)
      ensures !t.Twice? && IsTrace(t)
      ensures t.Once? <==>
        (allowRetry && reply.Conflict? && ListAccepted(proc.expand, proc.keys, old(server.log), state.version, reply.list))
      ensures t.Once? ==>
        t.first.log == old(server.log) && t.first.base == state.version + |reply.list.patches| && t.first.exchange == retry.exchange
      ensures t.NotSent? ==>
        (r.Success? <==> reply.Done? && GoesFrom(old(server.log), state.version, old(device.device), fetch))
      ensures t.Once? ==>
        (r.Success? <==> t.first.q.reply.Done? && GoesFrom(t.first.q.log, t.first.base,
                           DispatchAll(parse, old(device.device), Delivered(reply.list)), retry.fetch))
      ensures r.Success? && t.Once? ==> r.value == t.first.base
      ensures reply.Conflict? && allowRetry && t.NotSent? ==>
        r.Failure? && ListStopsAt(proc.expand, proc.keys, old(server.log), state.version, reply.list, at.version, r.error)
      ensures reply.Lost? ==> r == Failure(TransportFailure)
      ensures reply.Rejected? || (reply.Conflict? && !allowRetry) ==> r == Failure(UpdateRejected)
      ensures t.Once? ==>
        && (t.first.q.reply.Lost? ==> r == Failure(TransportFailure))
        && (t.first.q.reply.Rejected? || t.first.q.reply.Conflict? ==> r == Failure(UpdateRejected))
      ensures r.Success? ==>
        && at.version == |server.log| && InLog(r.value, infos)
        && if t.NotSent? then reply.Done? && r.value == state.version
           else t.first.q.reply.Done? && |old(server.log)| <= r.value
      ensures r.Success? ==> Dispatched(old(device.device), state.version)
      ensures Left(if r.Failure? then Some(r.error) else None, at)
    {
      t, at := NotSent, state;
      if reply.Done? {
        r, at := FetchAfterSend(state.version, infos, fetch);
      } else if reply.Conflict? && allowRetry {
        r, at, t := RetryAfterConflict(reply.list, state, infos, retry);
      } else {
        r := Failure(if reply.Lost? then TransportFailure else UpdateRejected);
      }
    }

    /** applyAppStatePatches for a list without a snapshot, outside of a full sync. */
    method ApplyConflict(list: PatchList, state: HashState) returns (r: Result<bool, SyncError>, ghost at: HashState)
      requires Numbered(server.log) && Synced(proc.expand, proc.store.Value(), server.log, state)
      requires FaithfulList(server.log, state.version, list) && list.snapshot.None? && CanSend()
      modifies proc.store, device
      ensures r.Success? <==> ListAccepted(proc.expand, proc.keys, server.log, state.version, list)
      ensures r.Failure? ==> ListStopsAt(proc.expand, proc.keys, server.log, state.version, list, at.version, r.error)
      ensures r.Success? ==> at.version == state.version + |list.patches| == Saved().version && CanSend()
      ensures device.device == if r.Success? then DispatchAll(parse, old(device.device), Delivered(list)) else old(device.device)
      ensures Left(if r.Failure? then Some(r.error) else None, at)
    {
      var decoded;
      decoded, at := proc.DecodePatches(list, state, server.log);
      if decoded.Failure? {
        return Failure(decoded.error), at;
      }
      var ok := Collect(decoded.value.mutations, false, true);
      return Success(true), at;
    }

    /** The branch for code 409: apply the conflicting patches and send again. */
    method RetryAfterConflict(list: PatchList, state: HashState, infos: seq<MutationInfo>, o: Outside)
      returns (r: Result<nat, SyncError>, ghost at: HashState, ghost t: Trace)
      requires Numbered(server.log) && Synced(proc.expand, proc.store.Value(), server.log, state)
      requires FaithfulList(server.log, state.version, list) && list.snapshot.None? && CanSend()
      modifies proc.store, server, device
      decreases false, 3
      ensures Numbered(server.log) && old(server.log) <= server.log && server.frames == old(server.frames) + FramesOf(t)
      ensures t.NotSent? <==> !ListAccepted(proc.expand, proc.keys, old(server.log), state.version, list)
      ensures t.NotSent? ==>
        r.Failure? && ListStopsAt(proc.expand, proc.keys, old(server.log), state.version, list, at.version, r.error)
      ensures !t.NotSent? ==>
        && t.Once? && IsTrace(t) && t.first.log == old(server.log) && t.first.base == state.version + |list.patches|
        && t.first.exchange == o.exchange && (r.Success? ==> t.first.q.reply.Done?)
        && (r.Success? <==> t.first.q.reply.Done? && GoesFrom(t.first.q.log, t.first.base,
                              DispatchAll(parse, old(device.device), Delivered(list)), o.fetch))
        && (r.Success? ==> r.value == t.first.base)
        && (t.first.q.reply.Lost? ==> r == Failure(TransportFailure))
        && (t.first.q.reply.Rejected? || t.first.q.reply.Conflict? ==> r == Failure(UpdateRejected))
      ensures r.Success? ==>
        && at.version == |server.log| && |old(server.log)| <= r.value && InLog(r.value, infos)
      ensures r.Success? ==> Dispatched(old(device.device), state.version)
      ensures Left(if r.Failure? then Some(r.error) else None, at)
    {
      var applied;
      applied, at := ApplyConflict(list, state);
      if applied.Failure? {
        return Failure(applied.error), at, NotSent;
      }
      ghost var log, d := server.log, device.device;
      ghost var reached := at.version;
      r, at, t := SendAppState(infos, false, o, o);
      if r.Success? && state.version > 0 {
        FaithfulInLonger(log, server.log, state.version, list);
        DispatchedOn(parse, old(device.device), server.log, state.version, list, reached, d, device.device);
      }
    }

    /** The second half of sendAppState once the server has taken the patch. */
    method FetchAfterSend(position: nat, ghost infos: seq<MutationInfo>, queries: seq<Query>)
      returns (r: Result<nat, SyncError>, ghost at: HashState)
      requires Numbered(server.log) && InSync(proc.expand, proc.store.Value(), server.log) && InLog(position, infos)
      requires proc.store.row.Some? ==> proc.store.row.value.version > 0
      modifies proc.store, server, device
      ensures Numbered(server.log) && old(server.log) <= server.log && server.frames == old(server.frames)
      ensures r.Success? <==> GoesFrom(old(server.log), old(Saved()).version, old(device.device), queries)
      ensures r.Success? ==> r.value == position && at.version == |server.log| && InLog(position, infos)
      ensures r.Success? ==> Dispatched(old(device.device), old(Saved()).version)
      ensures Left(if r.Failure? then Some(r.error) else None, at)
    {
      var fetched, events, handed, used;
      ghost var f, start := FetchOf(StartsFull(false, proc.store.Value()), queries), Start(false);
      ghost var upto;
      fetched, events, handed, used, upto, at := FetchAppState(false, false, queries);
      if fetched.Failure? {
        return Failure(fetched.error), at;
      }
      if start.version > 0 { DispatchedInOrder(f, start, used); }
      return Success(position), at;
    }
  }

  // ----- some runs -----

  /** A fetch that brings exactly the own patch. */
  lemma OwnPatchIsFetched(
      f: Fetch, l: Local, log: seq<Patch>, hs: HashState, infos: seq<MutationInfo>, macs: nat -> Mac, keyId: Mac, d: Device)
    requires Numbered(log) && Synced(f.expand, l, log, hs) && hs.version == |log| && DistinctInfos(infos) && keyId in f.keys
    requires var p := OwnPatch(f.expand, keyId, hs, View(l.rows), infos, macs);
      f.queries == [Query([], true, PatchList(false, [p], None), true)]
    ensures var p := OwnPatch(f.expand, keyId, hs, View(l.rows), infos, macs);
      FetchWorks(f, Point(log + [p], |log|, [], d), 0)
  {
    var p := OwnPatch(f.expand, keyId, hs, View(l.rows), infos, macs);
    var grown, list := log + [p], PatchList(false, [p], None);
    OwnPatchAcceptedIff(f.expand, f.keys, l, log, hs, p, infos);
    NothingAppended(grown);
    assert grown[|log|..|log| + 1] == [p];
    assert FaithfulList(grown, |log|, list) && IsAnswer(grown, |log|, list);
    assert AllAccepted(f.expand, f.keys, grown, |log|, |log| + 1);
    assert PointAfter(f, Point(grown, |log|, [], d), 0) == Point(grown, |log|, [], d);
    assert RoundApplies(f, Point(grown, |log|, [], d), 0);
  }

  /** The ordinary run: the patch is taken at once and fetched back, and the call succeeds
      with the position behind the log. */
  method SentAndFetched(client: SyncClient, infos: seq<MutationInfo>, macs: nat -> Mac, p: Patch) returns (r: Result<nat, SyncError>)
    requires Numbered(client.server.log) && InSync(client.proc.expand, client.proc.store.Value(), client.server.log)
    requires client.CanSend() && client.Saved().version == |client.server.log| && DistinctInfos(infos)
    requires p == client.Own(infos, macs)
    modifies client.proc.store, client.server, client.device
    ensures r == Success(|old(client.server.log)|) && client.InLog(r.value, infos)
  {
    ghost var log, l, hs, d := client.server.log, client.proc.store.Value(), client.Saved(), client.device.device;
    ghost var keyId := client.latestKeyId.value;
    var queries := [Query([], true, PatchList(false, [p], None), true)];
    ghost var f := Fetch(client.proc.expand, client.proc.keys, client.parse, client.rule, |log| == 0,
      client.critical && !client.emitOnFullSync && |log| == 0, queries);
    SavedStateIsSynced(client.proc.expand, l, log, hs);
    OwnPatchIsFetched(f, l, log, hs, infos, macs, keyId, d);
    var o := Outside(Exchange(TAKEN, false, TAKEN), macs, queries);
    ghost var at, t;
    r, at, t := client.SendAppState(infos, false, o, o);
    assert Took(t, 0);
    TakenAtOnce(log, t.first.patch, o.exchange);
  }

  /** What a failed fetch has stored but not handed on, the next ordinary fetch does not
      hand on either: it goes on behind it. */
  method SkippedForGood(client: SyncClient, fullSync: bool, queries: seq<Query>, later: seq<Query>)
    returns (r: Result<bool, SyncError>, ghost upto: nat, ghost at: HashState,
             again: Result<bool, SyncError>, handed: seq<Mutation>)
    requires Numbered(client.server.log)
    requires fullSync || InSync(client.proc.expand, client.proc.store.Value(), client.server.log)
    modifies client.proc.store, client.server, client.device
    ensures r.Failure? && r.error != DuplicateMacRow && upto < at.version && again.Success? ==>
      at.version <= |client.server.log| && handed == Mutations(client.server.log, at.version, |client.server.log|)
  {
    var events, used;
    r, events, handed, used, upto, at := client.FetchAppState(fullSync, false, queries);
    again := Success(false);
    if r.Failure? && r.error != DuplicateMacRow {
      ghost var upto', at';
      again, events, handed, used, upto', at' := client.FetchAppState(false, false, later);
    }
  }


  /** Taken, but the answer is cut off; refused, with the one patch that is new; taken. */
  const CUT_OFF := Move([], true, false, true, false, None, false, [])
  const REFUSED := Move([], true, false, false, true, Some(1), false, [])
  const TAKEN := Move([], true, false, false, true, None, false, [])

  lemma NothingAppended(log: seq<Patch>)
    ensures Grown(log, []) == log
  {
    assert log + [] == log;
  }

  lemma CutOffThenRefused(log: seq<Patch>, patch: Patch)
    ensures InfoQuery(log, |log|, patch, Exchange(CUT_OFF, true, REFUSED)) ==
      Queried(log + [patch], [Frame(Accepted, true), Frame(Refused, false)], Conflict(PatchList(false, [patch], None)))
  {
    NothingAppended(log);
    NothingAppended(log + [patch]);
    assert Send(log, |log|, patch, CUT_OFF) == Sent(log + [patch], Frame(Accepted, true), Interrupted);
    assert (log + [patch])[|log|..|log| + 1] == [patch];
  }

  lemma TakenAtOnce(log: seq<Patch>, patch: Patch, x: Exchange)
    requires x.first == TAKEN
    ensures InfoQuery(log, |log|, patch, x) == Queried(log + [patch], [Frame(Accepted, false)], Done)
  {
    NothingAppended(log);
    NothingAppended(log + [patch]);
  }

  lemma OwnPatchRetries(
      expand: Expand, keys: set<Mac>, l: Local, log: seq<Patch>, hs: HashState, infos: seq<MutationInfo>, a: Asked)
    requires Synced(expand, l, log, hs) && hs.version == |log| && DistinctInfos(infos)
    requires a.patch.keyId in keys && Carries(a.patch.mutations, a.patch.keyId, infos)
    requires EncodedFrom(expand, hs, View(l.rows), a.patch)
    requires a.base == |log| && a.q.log == log + [a.patch] && a.q.reply == Conflict(PatchList(false, [a.patch], None))
    ensures Retries(expand, keys, a)
  {
    OwnPatchAcceptedIff(expand, keys, l, log, hs, a.patch, infos);
    var list := a.q.reply.list;
    assert FaithfulList(a.q.log, |log|, list);
    assert AllAccepted(expand, keys, a.q.log, |log|, |log| + 1);
  }

  lemma FramesOfTwice(expand: Expand, keys: set<Mac>, log: seq<Patch>, t: Trace)
    requires IsCall(expand, keys, log, |log|, true, t) && t.first.exchange == Exchange(CUT_OFF, true, REFUSED)
    requires Retries(expand, keys, t.first) && t.second.exchange.first == TAKEN
    ensures FramesOf(t) == [Frame(Accepted, true), Frame(Refused, false), Frame(Accepted, false)]
  {
    assert Took(t, 0) && Took(t, 1);
    CutOffThenRefused(log, t.first.patch);
    TakenAtOnce(log + [t.first.patch], t.second.patch, t.second.exchange);
  }

  lemma TwiceAccepted(
      expand: Expand, keys: set<Mac>, l: Local, log: seq<Patch>, hs: HashState, infos: seq<MutationInfo>, t: Trace)
    requires Synced(expand, l, log, hs) && hs.version == |log| && DistinctInfos(infos)
    requires IsCall(expand, keys, log, |log|, true, t) && t.first.exchange == Exchange(CUT_OFF, true, REFUSED)
    requires t.first.patch.keyId in keys && Carries(t.first.patch.mutations, t.first.patch.keyId, infos)
    requires EncodedFrom(expand, hs, View(l.rows), t.first.patch)
    requires t.Twice? ==> t.second.exchange.first == TAKEN
    ensures FramesOf(t) == [Frame(Accepted, true), Frame(Refused, false), Frame(Accepted, false)]
    ensures CountAccepted(FramesOf(t)) == 2
  {
    assert Took(t, 0);
    CutOffThenRefused(log, t.first.patch);
    OwnPatchRetries(expand, keys, l, log, hs, infos, t.first);
    FramesOfTwice(expand, keys, log, t);
    FramesOfCall(expand, keys, log, |log|, true, t);
  }

  /** The run that makes a call accepted twice: the patch is taken, the stream ends before
      the answer, the frame that is sent again meets the conflict with the patch itself,
      which is then applied, encoded once more and taken once more. */
  method SentTwice(client: SyncClient, infos: seq<MutationInfo>, macs: nat -> Mac) returns (ghost t: Trace)
    requires Numbered(client.server.log) && InSync(client.proc.expand, client.proc.store.Value(), client.server.log)
    requires client.CanSend() && client.Saved().version == |client.server.log| && DistinctInfos(infos)
    modifies client.proc.store, client.server, client.device
    ensures client.server.frames == old(client.server.frames) + FramesOf(t)
    ensures FramesOf(t) == [Frame(Accepted, true), Frame(Refused, false), Frame(Accepted, false)]
    ensures CountAccepted(FramesOf(t)) == 2
  {
    ghost var log, l, hs := client.server.log, client.proc.store.Value(), client.Saved();
    SavedStateIsSynced(client.proc.expand, l, log, hs);
    var r;
    ghost var at;
    r, at, t := client.SendAppState(infos, true,
      Outside(Exchange(CUT_OFF, true, REFUSED), macs, []), Outside(Exchange(TAKEN, false, TAKEN), macs, []));
    TwiceAccepted(client.proc.expand, client.proc.keys, l, log, hs, infos, t);
  }
}
