/** Whole runs of the connection state machine: every interleaving of the steps of
    Connection from the state of a new client. The times in its history are tied
    to the steps that were taken, and the properties of client.go:550-583 are
    stated about those steps. Step number m happens at time m + 1. */
module ConnectionRuns {
  import opened Wrappers
  import opened Connection

  /** states[i] is the state before steps[i]. */
  datatype Run = Run(states: seq<State>, steps: seq<Step>)

  ghost predicate Took(r: Run, i: nat)
    requires i < |r.steps| && |r.states| == |r.steps| + 1
  {
    Ready(r.states[i]) ==> r.states[i + 1] == Tick(Take(r.states[i], r.steps[i]))
  }

  ghost predicate IsRun(r: Run) {
    && |r.states| == |r.steps| + 1 && r.states[0] == INIT
    && (forall i :: 0 <= i < |r.steps| ==> Took(r, i))
  }

  predicate Expects(step: Step) {
    step.Disconnect? || step.KeepAliveDisconnect? || step.ExpectDisconnect?
  }

  /** The steps that drop the current socket. */
  predicate Drops(step: Step) {
    step.Disconnect? || step.KeepAliveDisconnect?
  }

  /** The steps that may open one. */
  predicate Opens(step: Step) {
    step.Connect? || step.InitialConnect? || step.LoopConnects?
  }

  /** A keepalive reset has a keepalive disconnect to follow. */
  predicate Resets(s: State, step: Step) {
    step.KeepAliveReset? && s.resets > 0
  }

  /** An onDisconnect goroutine finds its socket still to be the current one. */
  predicate Lands(s: State, step: Step) {
    && step.CallbackLocks? && step.k < |s.callbacks| && s.callbacks[step.k].stopped
    && s.current == Some(s.callbacks[step.k].id)
  }

  /** The condition under which it starts a reconnect. */
  predicate Reconnects(s: State, step: Step) {
    Lands(s, step) && !s.expected && (s.force || s.callbacks[step.k].remote)
  }

  // ----- what one step does -----

  /** No socket opens again, and a new one is numbered next and dated now. */
  ghost predicate SocketsGrow(s: State, t: State) {
    && |s.sockets| <= |t.sockets| <= |s.sockets| + 1
    && (forall id :: 0 <= id < |s.sockets| ==>
          && t.sockets[id].connectedAt == s.sockets[id].connectedAt && t.sockets[id].early == s.sockets[id].early
          && (t.sockets[id].open ==> s.sockets[id].open))
    && (|t.sockets| > |s.sockets| ==>
          var sock := t.sockets[|s.sockets|];
          !s.deleted && sock.connectedAt == s.history.now && sock.open == !sock.early)
  }

  /** Only the close of an open socket adds a callback. */
  ghost predicate ReportsFollow(s: State, t: State) {
    forall j :: 0 <= j < |t.callbacks| ==>
      var id := t.callbacks[j].id;
      (exists k :: 0 <= k < |s.callbacks| && s.callbacks[k].id == id) || (id < |s.sockets| && s.sockets[id].open)
  }

  ghost predicate CurrentFollows(s: State, step: Step, t: State) {
    if Opens(step) then
      t.current == s.current || t.current == None || (t.current == Some(|s.sockets|) && |t.sockets| > |s.sockets|)
    else
      |t.sockets| == |s.sockets| && t.current == (if Drops(step) || Lands(s, step) then None else s.current)
  }

  ghost predicate LoopsFollow(s: State, step: Step, t: State) {
    var starts := step.InitialConnect? || Resets(s, step) || Reconnects(s, step);
    t.loops <= s.loops + (if starts && s.canReconnect then 1 else 0)
  }

  ghost predicate StoreFollows(s: State, step: Step, t: State) {
    && t.deleted == (s.deleted || step.DeleteStore?)
    && t.canReconnect == (if step.Configure? then step.can && !s.deleted else s.canReconnect && !step.DeleteStore?)
  }

  ghost function Recorded(s: State, step: Step): History {
    var h := s.history;
    h.(now := h.now + 1,
       expectAt := if Expects(step) then h.now else h.expectAt,
       keepAliveAt := if Resets(s, step) then h.now else h.keepAliveAt,
       resetAt := if step.ResetConnection? then h.now else h.resetAt,
       starts := h.starts + Started(s, step))
  }

  ghost function Started(s: State, step: Step): seq<Start> {
    if Reconnects(s, step)
    then
      var c, h := s.callbacks[step.k], s.history;
      [Start(h.now, c.id, c.remote, h.expectAt, h.keepAliveAt, h.resetAt)]
    else []
  }

  function ResetsAfter(s: State, step: Step): nat {
    if step.KeepAliveDisconnect? then s.resets + 1
    else if Resets(s, step) then s.resets - 1
    else s.resets
  }

  ghost predicate Grows(s: State, step: Step, t: State) {
    && SocketsGrow(s, t) && ReportsFollow(s, t) && CurrentFollows(s, step, t) && LoopsFollow(s, step, t)
    && StoreFollows(s, step, t) && t.history == Recorded(s, step) && t.resets == ResetsAfter(s, step)
  }

  lemma CloseGrows(s: State, id: nat, remote: bool)
    requires id < |s.sockets|
    ensures var t := Close(s, id, remote);
      SocketsGrow(s, t) && ReportsFollow(s, t) && OnlyCloses(s, t)
  {
  }

  lemma StopGrows(s: State, id: nat, disconnect: bool, allowOnDisconnect: bool)
    requires id < |s.sockets|
    ensures var t := Stop(s, id, disconnect, allowOnDisconnect);
      SocketsGrow(s, t) && ReportsFollow(s, t) && OnlyCloses(s, t) && (!disconnect ==> t.callbacks == s.callbacks)
  {
    var sock := s.sockets[id];
    if !sock.destroyed {
      CloseGrows(s.(sockets := s.sockets[id := sock.(destroyed := true, notify := sock.notify && allowOnDisconnect)]), id, false);
    }
  }

  lemma DropGrows(s: State)
    requires SocketsOk(s)
    ensures var t := UnlockedDisconnect(s);
      && SocketsGrow(s, t) && ReportsFollow(s, t) && |t.sockets| == |s.sockets|
      && t == s.(sockets := t.sockets, callbacks := t.callbacks, current := None)
  {
    if s.current.Some? { StopGrows(s, s.current.value, true, false); }
  }

  lemma ConnectGrows(s: State, dial: Dial)
    requires SocketsOk(s)
    ensures var t := UnlockedConnect(s, dial).0;
      && SocketsGrow(s, t) && ReportsFollow(s, t) && t == s.(sockets := t.sockets, callbacks := t.callbacks, current := t.current,
                                                             expected := t.expected, force := t.force)
      && (t.current == s.current || t.current == None || (t.current == Some(|s.sockets|) && |t.sockets| > |s.sockets|))
  {
    DropGrows(s);
  }

  /** What comes after the connect: loops, and the clock. */
  lemma OpenedGrows(s: State, step: Step, u: State, loops: nat)
    requires Opens(step) && SocketsGrow(s, u) && ReportsFollow(s, u)
    requires u.history == s.history && u.resets == s.resets && u.deleted == s.deleted && u.canReconnect == s.canReconnect
    requires u.current == s.current || u.current == None || (u.current == Some(|s.sockets|) && |u.sockets| > |s.sockets|)
    requires loops <= s.loops + (if step.InitialConnect? && s.canReconnect then 1 else 0)
    ensures Grows(s, step, Tick(u.(loops := loops)))
  {
  }

  lemma OpenStepGrows(s: State, step: Step)
    requires Inv(s) && Opens(step)
    ensures Grows(s, step, Tick(Take(s, step)))
  {
    if step.LoopConnects? && s.loops == 0 {
      RenamedFollows(s, s.callbacks);
      OpenedGrows(s, step, s, s.loops);
    } else {
      ConnectGrows(s, step.dial);
      OpenedGrows(s, step, UnlockedConnect(s, step.dial).0, Take(s, step).loops);
    }
  }

  lemma DropStepGrows(s: State, step: Step)
    requires Inv(s) && Drops(step)
    ensures Grows(s, step, Tick(Take(s, step)))
  {
    DropGrows(Expect(s));
  }

  lemma CloseStepGrows(s: State, step: Step)
    requires Inv(s) && step.RemoteClose?
    ensures Grows(s, step, Tick(Take(s, step)))
  {
    if step.id < |s.sockets| { CloseGrows(s, step.id, true); }
  }

  lemma ForceStepGrows(s: State, step: Step)
    requires Inv(s) && step.ResetConnection?
    ensures Grows(s, step, Tick(Take(s, step)))
  {
    if s.current.Some? {
      StopGrows(s.(force := true, history := s.history.(resetAt := s.history.now)), s.current.value, true, true);
    }
  }

  lemma StopStepGrows(s: State, step: Step)
    requires Inv(s) && step.CallbackStops?
    ensures Grows(s, step, Tick(Take(s, step)))
  {
    if step.k < |s.callbacks| {
      StopOneGrows(s, step.k);
    } else {
      RenamedFollows(s, s.callbacks);
      StoppedGrows(s, step, s, s.callbacks);
    }
  }

  lemma StopOneGrows(s: State, k: nat)
    requires Inv(s) && k < |s.callbacks|
    ensures Grows(s, CallbackStops(k), Tick(Take(s, CallbackStops(k))))
  {
    var c := s.callbacks[k];
    var cs := s.callbacks[k := c.(stopped := true)];
    StopGrows(s, c.id, false, false);
    RenamedFollows(s, cs);
    StoppedGrows(s, CallbackStops(k), Stop(s, c.id, false, false), cs);
  }

  lemma StoppedGrows(s: State, step: Step, u: State, cs: seq<Callback>)
    requires step.CallbackStops? && SocketsGrow(s, u) && OnlyCloses(s, u) && ReportsFollow(s, s.(callbacks := cs))
    ensures Grows(s, step, Tick(u.(callbacks := cs)))
  {
  }

  lemma RenamedFollows(s: State, cs: seq<Callback>)
    requires |cs| == |s.callbacks| && forall j :: 0 <= j < |cs| ==> cs[j].id == s.callbacks[j].id
    ensures ReportsFollow(s, s.(callbacks := cs))
  {
  }

  lemma RemovedFollows(s: State, k: nat)
    requires k < |s.callbacks|
    ensures ReportsFollow(s, s.(callbacks := RemoveAt(s.callbacks, k)))
  {
    RemovedAt(s.callbacks, k);
  }

  lemma LockedGrows(s: State, step: Step, cs: seq<Callback>)
    requires Lands(s, step) && ReportsFollow(s, s.(callbacks := cs))
    ensures Grows(s, step, Tick(OnDisconnect(s.(callbacks := cs), s.callbacks[step.k])))
  {
  }

  lemma IgnoredGrows(s: State, step: Step, cs: seq<Callback>)
    requires step.CallbackLocks? && !Lands(s, step) && ReportsFollow(s, s.(callbacks := cs))
    ensures Grows(s, step, Tick(s.(callbacks := cs)))
  {
  }

  lemma LocksStepGrows(s: State, step: Step)
    requires Inv(s) && step.CallbackLocks?
    ensures Grows(s, step, Tick(Take(s, step)))
  {
    if step.k < |s.callbacks| && s.callbacks[step.k].stopped {
      RemovedFollows(s, step.k);
      var cs := RemoveAt(s.callbacks, step.k);
      if Lands(s, step) { LockedGrows(s, step, cs); } else { IgnoredGrows(s, step, cs); }
    } else {
      RenamedFollows(s, s.callbacks);
      IgnoredGrows(s, step, s.callbacks);
    }
  }

  lemma ClearStepGrows(s: State, step: Step)
    requires Inv(s) && step.KeepAliveReset?
    ensures Grows(s, step, Tick(Take(s, step)))
  {
    RenamedFollows(s, s.callbacks);
  }

  lemma FlagStepGrows(s: State, step: Step)
    requires Inv(s) && (step.ExpectDisconnect? || step.LoopCancels? || step.DeleteStore? || step.Configure?)
    ensures Grows(s, step, Tick(Take(s, step)))
  {
    RenamedFollows(s, s.callbacks);
  }

  lemma StepGrows(s: State, step: Step)
    requires Inv(s)
    ensures Grows(s, step, Tick(Take(s, step)))
  {
    if Opens(step) { OpenStepGrows(s, step); }
    else if Drops(step) { DropStepGrows(s, step); }
    else if step.CallbackStops? { StopStepGrows(s, step); }
    else if step.CallbackLocks? { LocksStepGrows(s, step); }
    else if step.RemoteClose? { CloseStepGrows(s, step); }
    else if step.ResetConnection? { ForceStepGrows(s, step); }
    else if step.KeepAliveReset? { ClearStepGrows(s, step); }
    else { FlagStepGrows(s, step); }
  }

  // ----- every state of a run -----

  /** The invariant holds in every state of every run. */
  lemma {:induction false} RunKeeps(r: Run, n: nat)
    requires IsRun(r) && n <= |r.steps|
    ensures Inv(r.states[n])
  {
    if n > 0 {
      RunKeeps(r, n - 1);
      assert Took(r, n - 1);
      StepKeeps(r.states[n - 1], r.steps[n - 1]);
    }
  }

  lemma RunGrows(r: Run, n: nat)
    requires IsRun(r) && n < |r.steps|
    ensures Inv(r.states[n]) && Inv(r.states[n + 1])
    ensures Grows(r.states[n], r.steps[n], r.states[n + 1])
  {
    RunKeeps(r, n);
    assert Took(r, n);
    StepKeeps(r.states[n], r.steps[n]);
    StepGrows(r.states[n], r.steps[n]);
  }

  lemma {:induction false} TimesAreSteps(r: Run, n: nat)
    requires IsRun(r) && n <= |r.steps|
    ensures var h := r.states[n].history;
      && h.now == n + 1 && h.expectAt <= n && h.keepAliveAt <= n && h.resetAt <= n
      && (h.expectAt > 0 ==> Expects(r.steps[h.expectAt - 1]))
      && (h.keepAliveAt > 0 ==> Resets(r.states[h.keepAliveAt - 1], r.steps[h.keepAliveAt - 1]))
      && (h.resetAt > 0 ==> r.steps[h.resetAt - 1].ResetConnection?)
      && (forall m :: 0 <= m < n && Expects(r.steps[m]) ==> m < h.expectAt)
      && (forall m :: 0 <= m < n && Resets(r.states[m], r.steps[m]) ==> m < h.keepAliveAt)
      && (forall m :: 0 <= m < n && r.steps[m].ResetConnection? ==> m < h.resetAt)
  {
    if n > 0 {
      TimesAreSteps(r, n - 1);
      RunGrows(r, n - 1);
    }
  }

  /** Sockets are numbered in the order of the steps that opened them. */
  lemma {:induction false} SocketsAreSteps(r: Run, n: nat, id: nat)
    requires IsRun(r) && n <= |r.steps| && id < |r.states[n].sockets|
    ensures var at := r.states[n].sockets[id].connectedAt;
      && 1 <= at <= n && Opens(r.steps[at - 1])
      && |r.states[at - 1].sockets| == id && |r.states[at].sockets| == id + 1
      && r.states[at].sockets[id].connectedAt == at
  {
    if n > 0 {
      RunGrows(r, n - 1);
      TimesAreSteps(r, n - 1);
      if id < |r.states[n - 1].sockets| { SocketsAreSteps(r, n - 1, id); }
    }
  }

  lemma {:induction false} StartsAreSteps(r: Run, n: nat, i: nat)
    requires IsRun(r) && n <= |r.steps| && i < |r.states[n].history.starts|
    ensures var st := r.states[n].history.starts[i];
      && 1 <= st.at <= n
      && Reconnects(r.states[st.at - 1], r.steps[st.at - 1])
      && Started(r.states[st.at - 1], r.steps[st.at - 1]) == [st]
  {
    if n > 0 {
      RunGrows(r, n - 1);
      TimesAreSteps(r, n - 1);
      if i < |r.states[n - 1].history.starts| { StartsAreSteps(r, n - 1, i); }
    }
  }

  /** A current socket has been current since it was connected, and nothing dropped it. */
  lemma {:induction false} CurrentSince(r: Run, n: nat, id: nat, m: nat)
    requires IsRun(r) && n <= |r.steps| && r.states[n].current == Some(id)
    ensures id < |r.states[n].sockets|
    ensures r.states[n].sockets[id].connectedAt <= m <= n ==>
      && r.states[m].current == Some(id) && id < |r.states[m].sockets|
      && r.states[m].sockets[id].connectedAt == r.states[n].sockets[id].connectedAt
      && (m < n ==> !Drops(r.steps[m]) && !Lands(r.states[m], r.steps[m]))
  {
    RunKeeps(r, n);
    if n > 0 {
      RunGrows(r, n - 1);
      TimesAreSteps(r, n - 1);
      var s, t := r.states[n - 1], r.states[n];
      if s.current == Some(id) {
        CurrentSince(r, n - 1, id, m);
        assert t.sockets[id].connectedAt == s.sockets[id].connectedAt;
      } else {
        assert id == |s.sockets| && t.sockets[id].connectedAt == n;
      }
    }
  }

  // ----- the properties -----

  /** At any time only the current socket can be open. */
  lemma OneOpenSocket(r: Run, n: nat, id: nat)
    requires IsRun(r) && n <= |r.steps| && id < |r.states[n].sockets| && r.states[n].sockets[id].open
    ensures r.states[n].current == Some(id)
    ensures forall x :: 0 <= x < |r.states[n].sockets| && r.states[n].sockets[x].open ==> x == id
  {
    RunKeeps(r, n);
  }

  /** A socket that was closed never opens again. */
  lemma {:induction false} ClosedForever(r: Run, n: nat, m: nat, id: nat)
    requires IsRun(r) && n <= m <= |r.steps| && id < |r.states[n].sockets| && !r.states[n].sockets[id].open
    ensures id < |r.states[m].sockets| && !r.states[m].sockets[id].open
    decreases m
  {
    if n < m {
      ClosedForever(r, n, m - 1, id);
      RunGrows(r, m - 1);
    }
  }

  /** A reconnect is started at most once for a socket, and while it is the current one. */
  lemma ReconnectsOncePerSocket(r: Run, n: nat, i: nat, j: nat)
    requires IsRun(r) && n <= |r.steps|
    requires i < |r.states[n].history.starts| && j < |r.states[n].history.starts|
    ensures var st := r.states[n].history.starts[i];
      && 1 <= st.at <= n && r.states[st.at - 1].current == Some(st.id)
      && (i != j ==> r.states[n].history.starts[j].id != st.id)
  {
    RunKeeps(r, n);
    StartsAreSteps(r, n, i);
  }

  /** Exactly when an onDisconnect goroutine starts a reconnect, whatever came between its
      stop and its lock: its socket is still current and, since that was connected and since
      the last keepalive reset, no disconnect was expected, and the close was the peer's or
      ResetConnection was called. Whenever its socket is current, it is dropped. */
  lemma ReconnectsExactly(r: Run, n: nat)
    requires IsRun(r) && n < |r.steps| && r.steps[n].CallbackLocks?
    requires r.steps[n].k < |r.states[n].callbacks| && r.states[n].callbacks[r.steps[n].k].stopped
    ensures var s, t, c := r.states[n], r.states[n + 1], r.states[n].callbacks[r.steps[n].k];
      && c.id < |s.sockets|
      && t.current == (if s.current == Some(c.id) then None else s.current)
      && |t.history.starts| - |s.history.starts| == (if Unexpected(r, n, c) then 1 else 0)
      && t.loops - s.loops == (if Unexpected(r, n, c) && s.canReconnect then 1 else 0)
      && t.sockets == s.sockets && t.callbacks == RemoveAt(s.callbacks, r.steps[n].k)
  {
    RunKeeps(r, n);
    assert Took(r, n);
    var s := r.states[n];
    var c := s.callbacks[r.steps[n].k];
    if s.current == Some(c.id) { ExpectedSince(r, n, c.id); }
  }

  /** The last time at which connecting the socket or a keepalive reset cleared the flags. */
  function ClearedAt(s: State, id: nat): nat
    requires id < |s.sockets|
  {
    Max(s.sockets[id].connectedAt, s.history.keepAliveAt)
  }

  ghost predicate Unexpected(r: Run, n: nat, c: Callback)
    requires n <= |r.steps| && |r.states| == |r.steps| + 1 && c.id < |r.states[n].sockets|
  {
    && r.states[n].current == Some(c.id)
    && (forall m :: ClearedAt(r.states[n], c.id) <= m < n ==> !Expects(r.steps[m]))
    && (c.remote || exists m :: ClearedAt(r.states[n], c.id) <= m < n && r.steps[m].ResetConnection?)
  }

  /** What the flags say of the current socket, in terms of the steps. */
  lemma ExpectedSince(r: Run, n: nat, id: nat)
    requires IsRun(r) && n <= |r.steps| && r.states[n].current == Some(id)
    ensures id < |r.states[n].sockets|
    ensures r.states[n].expected <==> exists m :: ClearedAt(r.states[n], id) <= m < n && Expects(r.steps[m])
    ensures !r.states[n].expected ==>
      (r.states[n].force <==> exists m :: ClearedAt(r.states[n], id) <= m < n && r.steps[m].ResetConnection?)
  {
    RunKeeps(r, n);
    TimesAreSteps(r, n);
    var s := r.states[n];
    if s.expected { assert Expects(r.steps[s.history.expectAt - 1]); }
    if s.force { assert r.steps[s.history.resetAt - 1].ResetConnection?; }
  }

  /** Once Disconnect was called, no socket that was connected before is reconnected for. */
  lemma NoReconnectAfterDisconnect(r: Run, m: nat, n: nat, i: nat)
    requires IsRun(r) && m < n <= |r.steps| && Drops(r.steps[m])
    requires i < |r.states[n].history.starts|
    ensures var st := r.states[n].history.starts[i];
      st.id < |r.states[m].sockets| ==> st.at <= m
  {
    StartsAreSteps(r, n, i);
    var st := r.states[n].history.starts[i];
    if st.id < |r.states[m].sockets| && st.at > m {
      CurrentSince(r, st.at - 1, st.id, m);
      SocketsAreSteps(r, m, st.id);
      SocketsAreSteps(r, st.at - 1, st.id);
      SameSocket(r, m, st.at - 1, st.id);
    }
  }

  lemma {:induction false} SameSocket(r: Run, m: nat, n: nat, id: nat)
    requires IsRun(r) && m <= n <= |r.steps| && id < |r.states[m].sockets|
    ensures id < |r.states[n].sockets|
    ensures r.states[n].sockets[id].connectedAt == r.states[m].sockets[id].connectedAt
    ensures r.states[n].sockets[id].early == r.states[m].sockets[id].early
    decreases n
  {
    if m < n {
      SameSocket(r, m, n - 1, id);
      RunGrows(r, n - 1);
    }
  }

  // ----- expected disconnects and the keepalive -----

  lemma {:induction false} PendingResets(r: Run, n: nat)
    requires IsRun(r) && n <= |r.steps| && r.states[n].resets > 0
    ensures exists d :: 0 <= d < n && r.steps[d].KeepAliveDisconnect?
  {
    RunGrows(r, n - 1);
    if r.steps[n - 1].KeepAliveDisconnect? {
    } else {
      PendingResets(r, n - 1);
    }
  }

  lemma {:induction false} ResetsRunOut(r: Run, a: nat, n: nat)
    requires IsRun(r) && a <= n <= |r.steps|
    requires forall m :: a <= m < n ==> !r.steps[m].KeepAliveDisconnect?
    ensures r.states[n].resets <= r.states[a].resets
    decreases n
  {
    if a < n {
      ResetsRunOut(r, a, n - 1);
      RunGrows(r, n - 1);
    }
  }

  /** A keepalive reset while a socket is current follows a keepalive disconnect from
      before that socket was connected. */
  lemma ResetsAreLate(r: Run, n: nat, id: nat, k: nat)
    requires IsRun(r) && n <= |r.steps| && r.states[n].current == Some(id)
    requires id < |r.states[n].sockets| && r.states[n].sockets[id].connectedAt <= k < n
    requires Resets(r.states[k], r.steps[k])
    ensures exists d :: 0 <= d < r.states[n].sockets[id].connectedAt - 1 && r.steps[d].KeepAliveDisconnect?
  {
    var at := r.states[n].sockets[id].connectedAt;
    SocketsAreSteps(r, n, id);
    forall m | at <= m < k ensures !r.steps[m].KeepAliveDisconnect? {
      CurrentSince(r, n, id, m);
    }
    ResetsRunOut(r, at, k);
    PendingResets(r, at);
    var d :| 0 <= d < at && r.steps[d].KeepAliveDisconnect?;
    assert d != at - 1;
  }

  /** Between the connect of a socket and a reconnect for it nothing dropped it, and a
      disconnect that was expected in between was taken back by a keepalive reset, which
      belongs to a keepalive disconnect from before the connect. */
  lemma ReconnectsAreUnexpected(r: Run, n: nat, i: nat, m: nat)
    requires IsRun(r) && n <= |r.steps| && i < |r.states[n].history.starts|
    ensures var st := r.states[n].history.starts[i];
      && st.id < |r.states[n].sockets| && 1 <= st.at <= n
      && var at := r.states[n].sockets[st.id].connectedAt;
      at <= m < st.at - 1 && Expects(r.steps[m]) ==>
        && r.steps[m].ExpectDisconnect?
        && (exists k :: m < k < st.at - 1 && Resets(r.states[k], r.steps[k]))
        && (exists d :: 0 <= d < at - 1 && r.steps[d].KeepAliveDisconnect?)
  {
    StartsAreSteps(r, n, i);
    RunKeeps(r, n);
    var st := r.states[n].history.starts[i];
    var end := st.at - 1;
    CurrentSince(r, end, st.id, m);
    SameSocket(r, end, n, st.id);
    var at := r.states[n].sockets[st.id].connectedAt;
    if at <= m < end && Expects(r.steps[m]) {
      ExpectedSince(r, end, st.id);
      TimesAreSteps(r, end);
      var k := r.states[end].history.keepAliveAt - 1;
      assert m < k;
      assert Resets(r.states[k], r.steps[k]);
      ResetsAreLate(r, end, st.id, k);
    }
  }

  /** The keepalive clears the flags after somebody connected again and expected a
      disconnect, and so there is a reconnect for the new socket when it is closed. */
  lemma ExpectationIsTakenBack() returns (r: Run)
    ensures IsRun(r) && r.steps == LateReset()
    ensures r.states[|r.steps|].history.starts == [Start(8, 1, true, 4, 5, 0)]
  {
    r := Run(LateStates(), LateReset());
    forall i | 0 <= i < |r.steps| ensures Took(r, i) {
      if i < 4 { LateStep(i); } else { LaterStep(i); }
    }
  }

  function LateReset(): seq<Step> {
    [Connect(DialOpens(false)), KeepAliveDisconnect, Connect(DialOpens(false)), ExpectDisconnect, KeepAliveReset,
     RemoteClose(1), CallbackStops(0), CallbackLocks(0)]
  }

  function LateState(sockets: seq<Socket>, current: Option<nat>, expected: bool, cs: seq<Callback>, resets: nat, h: History): State {
    State(sockets, current, expected, false, cs, 0, false, false, resets, h)
  }

  function LateStates(): seq<State> {
    var a, b := Socket(false, true, false, false, 1), Socket(true, false, true, false, 3);
    var closed := b.(open := false);
    [INIT,
     LateState([a.(open := true, destroyed := false, notify := true)], Some(0), false, [], 0, History(2, 0, 0, 0, [])),
     LateState([a], None, true, [], 1, History(3, 2, 0, 0, [])),
     LateState([a, b], Some(1), false, [], 1, History(4, 2, 0, 0, [])),
     LateState([a, b], Some(1), true, [], 1, History(5, 4, 0, 0, [])),
     LateState([a, b], Some(1), false, [], 0, History(6, 4, 5, 0, [])),
     LateState([a, closed], Some(1), false, [Callback(1, true, false)], 0, History(7, 4, 5, 0, [])),
     LateState([a, closed.(destroyed := true, notify := false)], Some(1), false, [Callback(1, true, true)], 0,
               History(8, 4, 5, 0, [])),
     LateState([a, closed.(destroyed := true, notify := false)], None, false, [], 0,
               History(9, 4, 5, 0, [Start(8, 1, true, 4, 5, 0)]))]
  }

  lemma LateStep(i: nat)
    requires i < 4
    ensures Ready(LateStates()[i]) && LateStates()[i + 1] == Tick(Take(LateStates()[i], LateReset()[i]))
  {
  }

  lemma LaterStep(i: nat)
    requires 4 <= i < 8
    ensures Ready(LateStates()[i]) && LateStates()[i + 1] == Tick(Take(LateStates()[i], LateReset()[i]))
  {
  }

  /** A reconnect after a local close answers a ResetConnection made after that very
      socket was connected: one made with no socket cannot cause it. */
  lemma ForcedByReset(r: Run, n: nat, i: nat)
    requires IsRun(r) && n <= |r.steps| && i < |r.states[n].history.starts| && !r.states[n].history.starts[i].remote
    ensures var st := r.states[n].history.starts[i];
      && st.id < |r.states[n].sockets| && st.at <= n
      && exists k :: r.states[n].sockets[st.id].connectedAt <= k < st.at - 1 && r.steps[k].ResetConnection?
  {
    StartsAreSteps(r, n, i);
    RunKeeps(r, n);
    var st := r.states[n].history.starts[i];
    ExpectedSince(r, st.at - 1, st.id);
    SameSocket(r, st.at - 1, n, st.id);
  }

  // ----- sockets that the peer closes too early -----

  /** A socket that the peer closed before its callback was installed is never reported,
      and no reconnect is ever started for it. */
  lemma {:induction false} EarlyIsNeverReported(r: Run, n: nat, id: nat)
    requires IsRun(r) && n <= |r.steps| && id < |r.states[n].sockets| && r.states[n].sockets[id].early
    ensures !r.states[n].sockets[id].open && !Pending(r.states[n], id)
    ensures forall i :: 0 <= i < |r.states[n].history.starts| ==> r.states[n].history.starts[i].id != id
  {
    RunGrows(r, n - 1);
    var s := r.states[n - 1];
    if id < |s.sockets| { EarlyIsNeverReported(r, n - 1, id); }
    if Reconnects(s, r.steps[n - 1]) {
      assert Pending(s, s.callbacks[r.steps[n - 1].k].id);
    }
  }

  /** A closed current socket has its report on the way exactly if the peer did not close
      it before the callback was installed. */
  lemma ReportIsComing(r: Run, n: nat)
    requires IsRun(r) && n <= |r.steps| && r.states[n].current.Some?
    ensures var s := r.states[n];
      && s.current.value < |s.sockets|
      && (!s.sockets[s.current.value].open ==>
            (Pending(s, s.current.value) <==> !s.sockets[s.current.value].early))
  {
    RunKeeps(r, n);
    var s := r.states[n];
    if s.sockets[s.current.value].early { EarlyIsNeverReported(r, n, s.current.value); }
  }

  /** While nobody connects or disconnects, a socket that was closed too early stays
      current, and no reconnect is started except by a keepalive reset from earlier:
      ResetConnection does nothing. */
  lemma {:induction false} EarlyStaysCurrent(r: Run, m: nat, n: nat, id: nat)
    requires IsRun(r) && m <= n <= |r.steps|
    requires r.states[m].current == Some(id) && id < |r.states[m].sockets| && r.states[m].sockets[id].early
    requires forall i :: m <= i < n ==> !Opens(r.steps[i]) && !Drops(r.steps[i])
    ensures r.states[n].current == Some(id) && id < |r.states[n].sockets| && !r.states[n].sockets[id].open
    ensures r.states[n].history.starts == r.states[m].history.starts
    ensures (forall i :: m <= i < n ==> !Resets(r.states[i], r.steps[i])) ==> r.states[n].loops <= r.states[m].loops
    decreases n
  {
    SameSocket(r, m, n, id);
    EarlyIsNeverReported(r, n, id);
    if m < n {
      EarlyStaysCurrent(r, m, n - 1, id);
      SameSocket(r, m, n - 1, id);
      EarlyIsNeverReported(r, n - 1, id);
      RunGrows(r, n - 1);
      assert !Lands(r.states[n - 1], r.steps[n - 1]);
    }
  }

  /** Once the device was deleted no socket is ever opened again, and no reconnect
      loop is started. */
  lemma {:induction false} NoSocketAfterDelete(r: Run, m: nat, n: nat)
    requires IsRun(r) && m < n <= |r.steps| && r.steps[m].DeleteStore?
    ensures r.states[n].deleted && !r.states[n].canReconnect
    ensures |r.states[n].sockets| == |r.states[m].sockets| && r.states[n].loops <= r.states[m].loops
    decreases n
  {
    RunGrows(r, n - 1);
    if m < n - 1 { NoSocketAfterDelete(r, m, n - 1); }
  }
}
