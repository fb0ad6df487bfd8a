/** What every step of the connection state machine changes, field by field and in terms
    of the states before and after it: which sockets open and close, which closes are
    reported, which loops begin and end, and what the flags become. */
module ConnectionLaws {
  import opened Wrappers
  import opened Connection
  import opened ConnectionRuns

  predicate CurrentIsOpen(s: State) {
    s.current.Some? && s.current.value < |s.sockets| && s.sockets[s.current.value].open
  }

  /** A connect that gets as far as dialling. */
  predicate Dials(s: State, step: Step) {
    (step.Connect? || step.InitialConnect? || (step.LoopConnects? && s.loops > 0)) && !s.deleted && !CurrentIsOpen(s)
  }

  /** The step closes this socket: the peer, a reset, or a disconnect does. */
  predicate Closes(s: State, step: Step, id: nat) {
    || step == RemoteClose(id)
    || ((step.ResetConnection? || step.Disconnect? || step.KeepAliveDisconnect?) && s.current == Some(id))
  }

  ghost predicate SocketsLaw(s: State, step: Step, t: State) {
    && (forall id :: 0 <= id < |s.sockets| && id < |t.sockets| ==> (t.sockets[id].open <==> s.sockets[id].open && !Closes(s, step, id)))
    && if Dials(s, step) && step.dial.DialOpens? then
         && |t.sockets| == |s.sockets| + 1 && t.current == Some(|s.sockets|)
         && t.sockets[|s.sockets|] == Socket(!step.dial.early, false, true, step.dial.early, s.history.now)
       else
         && |t.sockets| == |s.sockets|
         && t.current == (if Dials(s, step) || Drops(step) || Lands(s, step) then None else s.current)
  }

  /** `rest` is without callback k. */
  ghost predicate LacksOnly(cs: seq<Callback>, k: nat, rest: seq<Callback>) {
    k < |cs| && k <= |rest| && cs == rest[..k] + [cs[k]] + rest[k..]
  }

  /** A close by the peer or by ResetConnection is reported, one by a disconnect is not. */
  ghost predicate ReportsLaw(s: State, step: Step, t: State) {
    match step
    case RemoteClose(id) =>
      t.callbacks == s.callbacks + (if id < |s.sockets| && s.sockets[id].open then [Callback(id, true, false)] else [])
    case ResetConnection =>
      t.callbacks == s.callbacks + (if CurrentIsOpen(s) then [Callback(s.current.value, false, false)] else [])
    case CallbackStops(k) =>
      t.callbacks == if k < |s.callbacks| then s.callbacks[k := Callback(s.callbacks[k].id, s.callbacks[k].remote, true)] else s.callbacks
    case CallbackLocks(k) =>
      if k < |s.callbacks| && s.callbacks[k].stopped
      then LacksOnly(s.callbacks, k, t.callbacks)
      else t.callbacks == s.callbacks
    case _ => t.callbacks == s.callbacks
  }

  /** What begins a reconnect loop: a first connect whose dial fails and may be tried again,
      a keepalive reset, or the report of a close that was not expected and was the peer's
      or forced; if auto-reconnect is enabled. */
  predicate BeginsLoop(s: State, step: Step) {
    s.canReconnect &&
    match step
    case InitialConnect(dial, retryable) => Dials(s, step) && dial == DialFails && retryable
    case KeepAliveReset => s.resets > 0
    case CallbackLocks(k) =>
      && k < |s.callbacks| && s.callbacks[k].stopped && s.current == Some(s.callbacks[k].id)
      && !s.expected && (s.force || s.callbacks[k].remote)
    case _ => false
  }

  /** What ends one: after its connect there is a new socket, or there was one open already,
      or a disconnect is expected, or the hook says no; or it is cancelled while waiting. */
  predicate EndsLoop(s: State, step: Step, t: State) {
    s.loops > 0 &&
    match step
    case LoopConnects(_, goOn) => |t.sockets| > |s.sockets| || (CurrentIsOpen(s) && !s.deleted) || t.expected || !goOn
    case LoopCancels => s.expected
    case _ => false
  }

  /** A loop ends after a connect if there is a new socket or there was an open one, if a
      disconnect is expected, or if the hook says no. */
  lemma LoopEndsIff(s: State, dial: Dial, goOn: bool)
    requires SocketsOk(s)
    ensures var after := UnlockedConnect(s, dial).0;
      LoopEnds(after, UnlockedConnect(s, dial).1, goOn) <==>
        || |after.sockets| > |s.sockets| || (!s.deleted && s.current.Some? && s.sockets[s.current.value].open)
        || after.expected || !goOn
  {
  }

  ghost predicate LoopsLaw(s: State, step: Step, t: State) {
    t.loops == s.loops + (if BeginsLoop(s, step) then 1 else 0) - (if EndsLoop(s, step, t) then 1 else 0)
  }

  ghost predicate FlagsLaw(s: State, step: Step, t: State) {
    var cleared := Dials(s, step) || (step.KeepAliveReset? && s.resets > 0);
    && (t.expected <==>
          step.Disconnect? || step.KeepAliveDisconnect? || step.ExpectDisconnect? || (s.expected && !cleared))
    && (t.force <==>
          step.ResetConnection? || (s.force && !cleared && !Expects(step) && !(Lands(s, step) && !s.expected)))
  }

  ghost predicate Law(s: State, step: Step, t: State) {
    SocketsLaw(s, step, t) && ReportsLaw(s, step, t) && LoopsLaw(s, step, t) && FlagsLaw(s, step, t)
  }

  lemma ConnectLaw(s: State, step: Step)
    requires Inv(s) && step.Connect?
    ensures Law(s, step, Take(s, step))
  {
  }

  lemma InitialConnectLaw(s: State, step: Step)
    requires Inv(s) && step.InitialConnect?
    ensures Law(s, step, Take(s, step))
  {
  }

  lemma LoopConnectLaw(s: State, step: Step)
    requires Inv(s) && step.LoopConnects?
    ensures Law(s, step, Take(s, step))
  {
  }

  lemma DropLaw(s: State, step: Step)
    requires Inv(s) && Drops(step)
    ensures Law(s, step, Take(s, step))
  {
  }

  lemma ResetLaw(s: State, step: Step)
    requires Inv(s) && step.ResetConnection?
    ensures Law(s, step, Take(s, step))
  {
  }

  lemma RemoteCloseLaw(s: State, step: Step)
    requires Inv(s) && step.RemoteClose?
    ensures Law(s, step, Take(s, step))
  {
  }

  lemma CallbackStopsLaw(s: State, step: Step)
    requires Inv(s) && step.CallbackStops?
    ensures Law(s, step, Take(s, step))
  {
  }

  lemma RemovedLacksOnly(cs: seq<Callback>, k: nat)
    requires k < |cs|
    ensures LacksOnly(cs, k, RemoveAt(cs, k))
  {
    var rest := RemoveAt(cs, k);
    assert rest[..k] == cs[..k] && rest[k..] == cs[k + 1..];
  }

  lemma LandedLaw(s: State, step: Step, cs: seq<Callback>)
    requires Lands(s, step) && LacksOnly(s.callbacks, step.k, cs)
    ensures Law(s, step, OnDisconnect(s.(callbacks := cs), s.callbacks[step.k]))
  {
  }

  lemma IgnoredLaw(s: State, step: Step, cs: seq<Callback>)
    requires step.CallbackLocks? && !Lands(s, step)
    requires if step.k < |s.callbacks| && s.callbacks[step.k].stopped then LacksOnly(s.callbacks, step.k, cs) else cs == s.callbacks
    ensures Law(s, step, s.(callbacks := cs))
  {
  }

  lemma CallbackLocksLaw(s: State, step: Step)
    requires Inv(s) && step.CallbackLocks?
    ensures Law(s, step, Take(s, step))
  {
    if step.k < |s.callbacks| && s.callbacks[step.k].stopped {
      RemovedLacksOnly(s.callbacks, step.k);
      var cs := RemoveAt(s.callbacks, step.k);
      if Lands(s, step) { LandedLaw(s, step, cs); } else { IgnoredLaw(s, step, cs); }
    } else {
      IgnoredLaw(s, step, s.callbacks);
    }
  }

  lemma FlagsOnlyLaw(s: State, step: Step)
    requires Inv(s) && (step.ExpectDisconnect? || step.KeepAliveReset? || step.LoopCancels? || step.DeleteStore? || step.Configure?)
    ensures Law(s, step, Take(s, step))
  {
  }

  /** Every step of every state that a run can reach obeys the laws. */
  lemma StepsObey(s: State, step: Step)
    requires Inv(s)
    ensures Law(s, step, Take(s, step))
  {
    if step.Connect? { ConnectLaw(s, step); }
    else if step.InitialConnect? { InitialConnectLaw(s, step); }
    else if step.LoopConnects? { LoopConnectLaw(s, step); }
    else if Drops(step) { DropLaw(s, step); }
    else if step.ResetConnection? { ResetLaw(s, step); }
    else if step.RemoteClose? { RemoteCloseLaw(s, step); }
    else if step.CallbackStops? { CallbackStopsLaw(s, step); }
    else if step.CallbackLocks? { CallbackLocksLaw(s, step); }
    else { FlagsOnlyLaw(s, step); }
  }

  lemma RunsObey(r: Run, n: nat)
    requires IsRun(r) && n < |r.steps|
    ensures Law(r.states[n], r.steps[n], r.states[n + 1])
  {
    RunKeeps(r, n);
    assert Took(r, n);
    StepsObey(r.states[n], r.steps[n]);
    TickedLaw(r.states[n], r.steps[n], Take(r.states[n], r.steps[n]));
  }

  lemma TickedLaw(s: State, step: Step, t: State)
    requires Law(s, step, t)
    ensures Law(s, step, Tick(t))
  {
  }
}
