/** The handler queue of client.go as a transition system: handleFrame puts nodes
    into a buffered channel, or hands them to a goroutine of their own if it is full,
    and every connection runs a handlerQueueLoop that takes them out again. */
module NodeQueue {

  const CAPACITY: nat := 2048
  const TICKS: nat := 10

  /** What a decrypted frame turns out to be. */
  datatype Frame = StreamEnd | Response | ForHandler(node: nat) | Unhandled

  datatype Handler = Handler(node: nat, done: bool)

  /** A loop waits in its outer select, or in the inner one for a handler. */
  datatype Loop = Idle | Waiting(handler: nat, ticks: nat) | Exited

  /** `accepted` has the nodes for handlers in arrival order and `handlers` the ones
      taken out of the queue in that order. `overflowed` says that the queue was
      found full, `overran` that a handler was still running after its last tick. */
  datatype State = State(
    accepted: seq<nat>, queue: seq<nat>, spilled: seq<nat>, dropped: seq<nat>,
    handlers: seq<Handler>, loops: seq<Loop>, cancelled: bool, overflowed: bool, overran: bool)

  datatype Step =
    | Receive(frame: Frame, drop: bool)
    | SpillPushes(i: nat)
    | SpillGivesUp(i: nat)
    | Cancel
    | LoopStarts
    | LoopTakes(l: nat)
    | LoopExits(l: nat)
    | HandlerEnds(h: nat)
    | LoopSeesEnd(l: nat)
    | LoopTicks(l: nat)

  function Without(s: seq<nat>, i: nat): seq<nat>
    requires i < |s|
  {
    s[..i] + s[i + 1..]
  }

  /** `drop` is the choice of the select once the context is done. */
  function HandleFrame(s: State, frame: Frame, drop: bool): State {
    if !frame.ForHandler? then s
    else
      var t := s.(accepted := s.accepted + [frame.node]);
      if s.cancelled && drop then t.(dropped := s.dropped + [frame.node])
      else if |s.queue| < CAPACITY then t.(queue := s.queue + [frame.node])
      else if s.cancelled then t.(dropped := s.dropped + [frame.node])
      else t.(spilled := s.spilled + [frame.node], overflowed := true)
  }

  function Tick(s: State, l: nat): State
    requires l < |s.loops| && s.loops[l].Waiting?
  {
    var w := s.loops[l];
    if w.ticks + 1 < TICKS then s.(loops := s.loops[l := w.(ticks := w.ticks + 1)])
    else s.(loops := s.loops[l := Idle],
            overran := s.overran || (w.handler < |s.handlers| && !s.handlers[w.handler].done))
  }

  function Take(s: State, step: Step): State {
    match step
    case Receive(frame, drop) => HandleFrame(s, frame, drop)
    case SpillPushes(i) =>
      if i < |s.spilled| && |s.queue| < CAPACITY
      then s.(spilled := Without(s.spilled, i), queue := s.queue + [s.spilled[i]]) else s
    case SpillGivesUp(i) =>
      if i < |s.spilled| && s.cancelled
      then s.(spilled := Without(s.spilled, i), dropped := s.dropped + [s.spilled[i]]) else s
    case Cancel => s.(cancelled := true)
    case LoopStarts => s.(loops := s.loops + [Idle])
    case LoopTakes(l) =>
      if l < |s.loops| && s.loops[l].Idle? && |s.queue| > 0
      then s.(queue := s.queue[1..], handlers := s.handlers + [Handler(s.queue[0], false)],
              loops := s.loops[l := Waiting(|s.handlers|, 0)]) else s
    case LoopExits(l) => if l < |s.loops| && s.loops[l].Idle? then s.(loops := s.loops[l := Exited]) else s
    case HandlerEnds(h) =>
      if h < |s.handlers| then s.(handlers := s.handlers[h := s.handlers[h].(done := true)]) else s
    case LoopSeesEnd(l) =>
      if l < |s.loops| && s.loops[l].Waiting? && s.loops[l].handler < |s.handlers| && s.handlers[s.loops[l].handler].done
      then s.(loops := s.loops[l := Idle]) else s
    case LoopTicks(l) => if l < |s.loops| && s.loops[l].Waiting? then Tick(s, l) else s
  }

  /** states[i] is the state before steps[i]. */
  datatype Run = Run(states: seq<State>, steps: seq<Step>)

  predicate Took(r: Run, i: nat)
    requires i < |r.steps| && |r.states| == |r.steps| + 1
  {
    r.states[i + 1] == Take(r.states[i], r.steps[i])
  }

  predicate IsRun(r: Run) {
    && |r.states| == |r.steps| + 1
    && r.states[0] == State([], [], [], [], [], [], false, false, false)
    && (forall i :: 0 <= i < |r.steps| ==> Took(r, i))
  }

  function Nodes(hs: seq<Handler>): (ns: seq<nat>)
    ensures |ns| == |hs|
    ensures forall i :: 0 <= i < |hs| ==> ns[i] == hs[i].node
  {
    seq(|hs|, i requires 0 <= i < |hs| => hs[i].node)
  }

  // ----- what arrives -----

  /** The nodes for handlers that some steps receive. */
  function Received(steps: seq<Step>, n: nat): seq<nat>
    requires n <= |steps|
  {
    if n == 0 then []
    else if steps[n - 1].Receive? && steps[n - 1].frame.ForHandler?
    then Received(steps, n - 1) + [steps[n - 1].frame.node]
    else Received(steps, n - 1)
  }

  lemma {:induction false} AcceptedAreReceived(r: Run, n: nat)
    requires IsRun(r) && n <= |r.steps|
    ensures r.states[n].accepted == Received(r.steps, n)
  {
    if n > 0 {
      assert Took(r, n - 1);
      AcceptedAreReceived(r, n - 1);
    }
  }

  /** Where a received node goes: into the queue if there is room and the select does not
      prefer the end of the context, out of it only after that end, and else to a goroutine. */
  lemma ReceivedGoesTo(r: Run, n: nat, node: nat, drop: bool)
    requires IsRun(r) && n < |r.steps| && r.steps[n] == Receive(ForHandler(node), drop)
    ensures var s, t := r.states[n], r.states[n + 1];
      && (t.queue == s.queue + [node] <==> |s.queue| < 2048 && !(s.cancelled && drop))
      && (t.dropped == s.dropped + [node] <==> s.cancelled && (drop || |s.queue| >= 2048))
      && (t.spilled == s.spilled + [node] <==> !s.cancelled && |s.queue| >= 2048)
      && (t.overflowed <==> s.overflowed || (!s.cancelled && |s.queue| >= 2048))
      && t.handlers == s.handlers && t.loops == s.loops
  {
    assert Took(r, n);
    assert |r.states[n].queue + [node]| != |r.states[n].queue|;
    assert |r.states[n].dropped + [node]| != |r.states[n].dropped|;
    assert |r.states[n].spilled + [node]| != |r.states[n].spilled|;
  }

  /** An idle loop takes the first node of the queue and starts to wait for its handler. */
  lemma LoopStartsHandler(r: Run, n: nat, l: nat)
    requires IsRun(r) && n < |r.steps| && r.steps[n] == LoopTakes(l) && l < |r.states[n].loops|
    ensures var s, t := r.states[n], r.states[n + 1];
      if s.loops[l].Idle? && s.queue != [] then
        && l < |t.loops| && t.loops[l] == Waiting(|s.handlers|, 0) && s.queue == [s.queue[0]] + t.queue
        && t.handlers == s.handlers + [Handler(s.queue[0], false)]
      else t == s
  {
    assert Took(r, n);
  }

  /** A loop waits for its handler for ten ticks and no longer. */
  lemma {:induction false} LoopsWaitTenTicks(r: Run, n: nat, l: nat)
    requires IsRun(r) && n <= |r.steps| && l < |r.states[n].loops| && r.states[n].loops[l].Waiting?
    ensures r.states[n].loops[l].ticks < 10
  {
    if n > 0 {
      assert Took(r, n - 1);
      var s := r.states[n - 1];
      if l < |s.loops| && s.loops[l].Waiting? { LoopsWaitTenTicks(r, n - 1, l); }
      TicksBounded(s, r.steps[n - 1], l);
    }
  }

  lemma TicksBounded(s: State, step: Step, l: nat)
    requires l < |s.loops| && s.loops[l].Waiting? ==> s.loops[l].ticks < 10
    ensures var t := Take(s, step); l < |t.loops| && t.loops[l].Waiting? ==> t.loops[l].ticks < 10
  {
  }

  /** It gives up exactly at the tenth one, and has overrun if the handler is still at work;
      it also stops waiting when it sees the end of the handler. */
  lemma LoopGivesUp(r: Run, n: nat, l: nat)
    requires IsRun(r) && n < |r.steps| && l < |r.states[n].loops| && r.states[n].loops[l].Waiting?
    ensures var s, t := r.states[n], r.states[n + 1];
      var w := s.loops[l];
      && l < |t.loops|
      && (r.steps[n] == LoopTicks(l) && w.ticks < 9 ==> t.loops[l] == Waiting(w.handler, w.ticks + 1) && t.overran == s.overran)
      && (r.steps[n] == LoopTicks(l) && w.ticks >= 9 ==> t.loops[l] == Idle)
      && (r.steps[n] == LoopTicks(l) && w.ticks >= 9 && w.handler < |s.handlers| ==>
            (t.overran <==> s.overran || !s.handlers[w.handler].done))
      && (t.loops[l] == Idle && r.steps[n] != LoopTicks(l) ==>
            r.steps[n] == LoopSeesEnd(l) && w.handler < |s.handlers| && s.handlers[w.handler].done)
      && (r.steps[n] == LoopSeesEnd(l) && w.handler < |s.handlers| && s.handlers[w.handler].done ==> t.loops[l] == Idle)
      && (t.loops[l] != w ==> r.steps[n] == LoopTicks(l) || r.steps[n] == LoopSeesEnd(l))
  {
    assert Took(r, n);
  }

  // ----- no node is lost or handled twice -----

  ghost function Everywhere(s: State): multiset<nat> {
    multiset(Nodes(s.handlers)) + multiset(s.queue) + multiset(s.spilled) + multiset(s.dropped)
  }

  ghost predicate Conserved(s: State) {
    multiset(s.accepted) == Everywhere(s) && (!s.cancelled ==> s.dropped == []) && |s.queue| <= CAPACITY
  }

  lemma ReceiveConserves(s: State, frame: Frame, drop: bool)
    requires Conserved(s)
    ensures Conserved(HandleFrame(s, frame, drop))
  {
  }

  lemma Removed(s: seq<nat>, i: nat)
    requires i < |s|
    ensures multiset(s) == multiset(Without(s, i)) + multiset{s[i]}
  {
    assert s == s[..i] + [s[i]] + s[i + 1..];
  }

  lemma PushConserves(s: State, i: nat)
    requires Conserved(s)
    ensures Conserved(Take(s, SpillPushes(i)))
  {
    if i < |s.spilled| && |s.queue| < CAPACITY {
      Removed(s.spilled, i);
      assert multiset(s.queue + [s.spilled[i]]) == multiset(s.queue) + multiset{s.spilled[i]};
    }
  }

  lemma GiveUpConserves(s: State, i: nat)
    requires Conserved(s)
    ensures Conserved(Take(s, SpillGivesUp(i)))
  {
    if i < |s.spilled| && s.cancelled {
      Removed(s.spilled, i);
      assert multiset(s.dropped + [s.spilled[i]]) == multiset(s.dropped) + multiset{s.spilled[i]};
    }
  }

  lemma HeadMoves(hs: seq<Handler>, q: seq<nat>)
    requires |q| > 0
    ensures multiset(Nodes(hs + [Handler(q[0], false)])) + multiset(q[1..]) == multiset(Nodes(hs)) + multiset(q)
  {
    assert Nodes(hs + [Handler(q[0], false)]) == Nodes(hs) + [q[0]];
    assert q == [q[0]] + q[1..];
  }

  lemma TakenConserves(s: State, l: nat)
    requires Conserved(s)
    ensures Conserved(Take(s, LoopTakes(l)))
  {
    if l < |s.loops| && s.loops[l].Idle? && |s.queue| > 0 { HeadMoves(s.handlers, s.queue); }
  }

  lemma EndedConserves(s: State, h: nat)
    requires Conserved(s)
    ensures Conserved(Take(s, HandlerEnds(h)))
  {
    assert Nodes(Take(s, HandlerEnds(h)).handlers) == Nodes(s.handlers);
  }

  lemma LoopsMoveNothing(s: State, step: Step)
    requires step.Cancel? || step.LoopStarts? || step.LoopExits? || step.LoopSeesEnd? || step.LoopTicks?
    ensures var t := Take(s, step);
      t == s.(cancelled := t.cancelled, loops := t.loops, overran := t.overran) && (s.cancelled ==> t.cancelled)
  {
  }

  lemma StepConserves(s: State, step: Step)
    requires Conserved(s)
    ensures Conserved(Take(s, step))
  {
    match step
    case Receive(frame, drop) => ReceiveConserves(s, frame, drop);
    case SpillPushes(i) => PushConserves(s, i);
    case SpillGivesUp(i) => GiveUpConserves(s, i);
    case LoopTakes(l) => TakenConserves(s, l);
    case HandlerEnds(h) => EndedConserves(s, h);
    case _ => LoopsMoveNothing(s, step);
  }

  lemma {:induction false} RunConserves(r: Run, n: nat)
    requires IsRun(r) && n <= |r.steps|
    ensures Conserved(r.states[n])
  {
    if n > 0 {
      RunConserves(r, n - 1);
      assert Took(r, n - 1);
      StepConserves(r.states[n - 1], r.steps[n - 1]);
    }
  }

  /** At any time the accepted nodes are the handled, the queued, the spilled and the
      dropped ones, and nothing is dropped before the context is cancelled. */
  lemma NodesAreConserved(r: Run, n: nat)
    requires IsRun(r) && n <= |r.steps|
    ensures var s := r.states[n];
      && multiset(s.accepted) == multiset(Nodes(s.handlers)) + multiset(s.queue) + multiset(s.spilled) + multiset(s.dropped)
      && (!s.cancelled ==> s.dropped == []) && |s.queue| <= CAPACITY
  {
    RunConserves(r, n);
  }

  // ----- order -----

  ghost predicate Ordered(s: State) {
    s.spilled == [] && s.accepted == Nodes(s.handlers) + s.queue
  }

  lemma StepKeepsOrder(s: State, step: Step)
    requires Ordered(s) && !Take(s, step).cancelled && !Take(s, step).overflowed
    ensures Ordered(Take(s, step))
  {
    var t := Take(s, step);
    match step
    case LoopTakes(l) =>
      if t != s {
        assert Nodes(t.handlers) == Nodes(s.handlers) + [s.queue[0]];
        assert s.queue == [s.queue[0]] + t.queue;
      }
    case HandlerEnds(h) => assert Nodes(t.handlers) == Nodes(s.handlers);
    case _ =>
  }

  /** As long as the queue was never found full, handlers are started in exactly the
      order of arrival, by however many loops. */
  lemma {:induction false} StartedInArrivalOrder(r: Run, n: nat)
    requires IsRun(r) && n <= |r.steps| && !r.states[n].overflowed && !r.states[n].cancelled
    ensures r.states[n].spilled == [] && r.states[n].accepted == Nodes(r.states[n].handlers) + r.states[n].queue
  {
    if n > 0 {
      assert Took(r, n - 1);
      assert !r.states[n - 1].overflowed && !r.states[n - 1].cancelled;
      StartedInArrivalOrder(r, n - 1);
      StepKeepsOrder(r.states[n - 1], r.steps[n - 1]);
    }
  }

  // ----- one at a time -----

  ghost predicate Awaited(s: State, h: nat) {
    exists l :: 0 <= l < |s.loops| && s.loops[l].Waiting? && s.loops[l].handler == h
  }

  /** Every handler that still runs has a loop waiting for it, and a single loop waits
      for the last one. */
  ghost predicate Attended(s: State) {
    && (forall h :: 0 <= h < |s.handlers| && !s.handlers[h].done ==> Awaited(s, h))
    && (|s.loops| == 1 && s.loops[0].Waiting? ==> s.loops[0].handler + 1 == |s.handlers|)
  }

  lemma AwaitedStill(s: State, step: Step, h: nat)
    requires !Take(s, step).overran && h < |s.handlers| && Awaited(s, h)
    requires h < |Take(s, step).handlers| && !Take(s, step).handlers[h].done
    ensures Awaited(Take(s, step), h)
  {
    var l :| 0 <= l < |s.loops| && s.loops[l].Waiting? && s.loops[l].handler == h;
    var t := Take(s, step);
    assert t.loops[l].Waiting? && t.loops[l].handler == h;
  }

  lemma StepLast(s: State, step: Step)
    requires Attended(s)
    ensures var t := Take(s, step); |t.loops| == 1 && t.loops[0].Waiting? ==> t.loops[0].handler + 1 == |t.handlers|
  {
  }

  lemma StepHandlers(s: State, step: Step, h: nat)
    requires h < |Take(s, step).handlers| && !Take(s, step).handlers[h].done
    ensures h < |s.handlers| ==> !s.handlers[h].done
    ensures h >= |s.handlers| ==> Awaited(Take(s, step), h)
  {
    if h >= |s.handlers| {
      assert Take(s, step).loops[step.l].handler == h;
    }
  }

  lemma StepAttends(s: State, step: Step)
    requires Attended(s) && !Take(s, step).overran
    ensures Attended(Take(s, step))
  {
    var t := Take(s, step);
    StepLast(s, step);
    forall h | 0 <= h < |t.handlers| && !t.handlers[h].done ensures Awaited(t, h) {
      StepHandlers(s, step, h);
      if h < |s.handlers| { AwaitedStill(s, step, h); }
    }
  }

  lemma {:induction false} HandlersAreAttended(r: Run, n: nat)
    requires IsRun(r) && n <= |r.steps| && !r.states[n].overran
    ensures Attended(r.states[n])
  {
    if n > 0 {
      assert Took(r, n - 1);
      assert !r.states[n - 1].overran;
      HandlersAreAttended(r, n - 1);
      StepAttends(r.states[n - 1], r.steps[n - 1]);
    }
  }

  /** Within one connection, if no handler outlived its ten ticks, a handler is only
      started when all the ones before it have ended. */
  lemma OneAtATime(r: Run, n: nat, h: nat)
    requires IsRun(r) && n <= |r.steps| && !r.states[n].overran && |r.states[n].loops| <= 1
    requires h + 1 < |r.states[n].handlers|
    ensures r.states[n].handlers[h].done
  {
    HandlersAreAttended(r, n);
  }

  function OverlapState(
      accepted: seq<nat>, queue: seq<nat>, handlers: seq<Handler>, loops: seq<Loop>): State
  {
    State(accepted, queue, [], [], handlers, loops, false, false, false)
  }

  function OverlapSteps(): seq<Step> {
    [LoopStarts, Receive(ForHandler(1), false), LoopTakes(0), LoopStarts, Receive(ForHandler(2), false), LoopTakes(1)]
  }

  function OverlapStates(): seq<State> {
    [OverlapState([], [], [], []), OverlapState([], [], [], [Idle]), OverlapState([1], [1], [], [Idle]),
     OverlapState([1], [], [Handler(1, false)], [Waiting(0, 0)]),
     OverlapState([1], [], [Handler(1, false)], [Waiting(0, 0), Idle]),
     OverlapState([1, 2], [2], [Handler(1, false)], [Waiting(0, 0), Idle]),
     OverlapState([1, 2], [], [Handler(1, false), Handler(2, false)], [Waiting(0, 0), Waiting(1, 0)])]
  }

  lemma OverlapBegins(i: nat)
    requires i < 3
    ensures OverlapStates()[i + 1] == Take(OverlapStates()[i], OverlapSteps()[i])
  {
  }

  lemma OverlapEnds(i: nat)
    requires 3 <= i < 6
    ensures OverlapStates()[i + 1] == Take(OverlapStates()[i], OverlapSteps()[i])
  {
  }

  /** The loop of the connection before may still be waiting for its handler: then two
      handlers run at the same time. */
  lemma ConnectionsOverlap() returns (r: Run)
    ensures IsRun(r)
    ensures var s := r.states[|r.steps|];
      !s.overran && !s.overflowed && s.handlers == [Handler(1, false), Handler(2, false)]
  {
    r := Run(OverlapStates(), OverlapSteps());
    forall i | 0 <= i < 6 ensures Took(r, i) {
      if i < 3 { OverlapBegins(i); } else { OverlapEnds(i); }
    }
  }
}
