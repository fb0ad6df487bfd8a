/** The handlers of connectionevents.go as steps of the connection state machine,
    and what each of them makes of the close that follows. */
module ConnectionEvents {
  import opened Wrappers
  import opened Connection
  import opened ConnectionClient
  import opened ConnectionRuns

  datatype Conflict = NoConflict | DeviceRemoved | Replaced

  datatype StreamError = StreamError(code: nat, conflict: Conflict)

  /** `refreshCat` is None for a missing RefreshCAT function, and otherwise whether it
      succeeds; `canDelete` is whether the database lets the device be deleted. */
  datatype Setup = Setup(disableLoginAutoReconnect: bool, refreshCat: Option<bool>, canDelete: bool)

  function DeleteIf(can: bool): seq<Step> {
    if can then [DeleteStore] else []
  }

  function RefreshSteps(works: bool): seq<Step> {
    if works then [] else [ExpectDisconnect]
  }

  function StreamErrorSteps(e: StreamError, u: Setup): seq<Step> {
    if e.code == 515 then []
    else if e.code == 401 && e.conflict == DeviceRemoved then [ExpectDisconnect] + DeleteIf(u.canDelete)
    else if e.conflict == Replaced then [ExpectDisconnect]
    else if e.code == 503 then []
    else if u.refreshCat.Some? && (e.code == 413 || e.code == 414) then RefreshSteps(u.refreshCat.value)
    else []
  }

  predicate IsLoggedOut(reason: nat) {
    reason == 401 || reason == 403 || reason == 406
  }

  /** None if the handler calls a RefreshCAT function that is not there. */
  function ConnectFailureSteps(reason: nat, u: Setup): Option<seq<Step>> {
    if reason == 503 || reason == 500 then Some([])
    else if reason == 414 || reason == 413 then
      if u.refreshCat.None? then None else Some(RefreshSteps(u.refreshCat.value))
    else Some([ExpectDisconnect] + if IsLoggedOut(reason) then DeleteIf(u.canDelete) else [])
  }

  // ----- the handlers -----

  /** The device was removed: no reconnect, and the store is deleted if it can be. */
  method LogOut(cli: Client, canDelete: bool)
    requires Inv(cli.Now())
    modifies cli
    ensures Inv(cli.Now()) && cli.Now() == After(old(cli.Now()), [ExpectDisconnect] + DeleteIf(canDelete))
    ensures cli.isLoggedIn == old(cli.isLoggedIn)
  {
    ghost var s := cli.Now();
    AfterOne(s, ExpectDisconnect);
    AfterTwo(s, ExpectDisconnect, DeleteStore);
    assert [ExpectDisconnect] + [DeleteStore] == [ExpectDisconnect, DeleteStore];
    assert [ExpectDisconnect] + [] == [ExpectDisconnect];
    cli.ExpectStep();
    if canDelete {
      cli.DeleteStep();
    }
  }

  /** The answer says whether a goroutine restarts the connection. */
  method HandleStreamError(cli: Client, e: StreamError, u: Setup) returns (restart: bool)
    requires Inv(cli.Now())
    modifies cli
    ensures Inv(cli.Now()) && cli.Now() == After(old(cli.Now()), StreamErrorSteps(e, u))
    ensures !cli.isLoggedIn
    ensures restart <==> e.code == 515 && !u.disableLoginAutoReconnect
    ensures SameConnection(cli.Now(), old(cli.Now()))
    ensures cli.storeDeleted <==> old(cli.storeDeleted) || (e.code == 401 && e.conflict == DeviceRemoved && u.canDelete)
    ensures cli.expectedDisconnect <==>
      || old(cli.expectedDisconnect)
      || (e.code == 401 && e.conflict == DeviceRemoved)
      || (e.code != 515 && e.conflict == Replaced)
      || ((e.code == 413 || e.code == 414) && e.conflict != Replaced && u.refreshCat == Some(false))
  {
    StreamErrorEffects(cli.Now(), e, u);
    AfterOne(cli.Now(), ExpectDisconnect);
    cli.isLoggedIn := false;
    restart := false;
    if e.code == 515 {
      restart := !u.disableLoginAutoReconnect;
    } else if e.code == 401 && e.conflict == DeviceRemoved {
      LogOut(cli, u.canDelete);
    } else if e.conflict == Replaced {
      cli.ExpectStep();
    } else if e.code == 503 {
    } else if u.refreshCat.Some? && (e.code == 413 || e.code == 414) {
      if !u.refreshCat.value {
        cli.ExpectStep();
      }
    }
  }

  method HandleConnectFailure(cli: Client, reason: nat, u: Setup) returns (panics: bool)
    requires Inv(cli.Now())
    modifies cli
    ensures Inv(cli.Now()) && (panics <==> ConnectFailureSteps(reason, u).None?)
    ensures cli.Now() == if panics then old(cli.Now()) else After(old(cli.Now()), ConnectFailureSteps(reason, u).value)
    ensures panics <==> (reason == 413 || reason == 414) && u.refreshCat.None?
    ensures SameConnection(cli.Now(), old(cli.Now()))
    ensures cli.storeDeleted <==>
      old(cli.storeDeleted) || ((reason == 401 || reason == 403 || reason == 406) && u.canDelete)
    ensures !panics ==> (cli.expectedDisconnect <==>
      || old(cli.expectedDisconnect)
      || (reason != 500 && reason != 503 && reason != 413 && reason != 414)
      || ((reason == 413 || reason == 414) && u.refreshCat == Some(false)))
  {
    ghost var s := cli.Now();
    if ConnectFailureSteps(reason, u).Some? { ConnectFailureEffects(s, reason, u); }
    AfterOne(s, ExpectDisconnect);
    AfterTwo(s, ExpectDisconnect, DeleteStore);
    assert [ExpectDisconnect] + [DeleteStore] == [ExpectDisconnect, DeleteStore];
    panics := false;
    var catExpired := reason == 414 || reason == 413;
    if !(reason == 503 || reason == 500) && !catExpired {
      cli.ExpectStep();
    }
    if IsLoggedOut(reason) {
      if u.canDelete {
        cli.DeleteStep();
      }
    } else if catExpired {
      if u.refreshCat.None? {
        return true;
      } else if !u.refreshCat.value {
        cli.ExpectStep();
      }
    }
  }

  method HandleConnectSuccess(cli: Client)
    modifies cli
    ensures cli.Now() == old(cli.Now()) && cli.isLoggedIn && cli.autoReconnectErrors == 0
  {
    cli.autoReconnectErrors := 0;
    cli.isLoggedIn := true;
  }

  /** The goroutine that a stream error 515 starts; `between` is what other goroutines do
      between its two calls. It connects once and leaves it at that, so if the dial fails
      the client has no socket and nothing tries again. */
  method Restart(cli: Client, between: seq<Step>, dial: Dial) returns (err: ConnectResult)
    requires Inv(cli.Now())
    modifies cli
    ensures Inv(cli.Now())
    ensures cli.Now() == After(After(old(cli.Now()), [Step.Disconnect] + between), [Step.Connect(dial)])
    ensures Answers(After(old(cli.Now()), [Step.Disconnect] + between), dial, err, cli.Now())
    ensures between == [] ==> cli.reconnectLoops == old(cli.reconnectLoops) && (err != Connected ==> cli.socket == None)
  {
    ghost var s := cli.Now();
    AfterOne(s, Step.Disconnect);
    AfterAppend(s, [Step.Disconnect], between);
    cli.Disconnect();
    cli.Meanwhile(between);
    ghost var mid := cli.Now();
    AfterOne(mid, Step.Connect(dial));
    ConnectAnswers(mid, dial);
    if between == [] { DisconnectDrops(s); }
    err := cli.Connect(dial);
  }

  /** What a connect from a state returns and leaves. */
  ghost predicate Answers(s: State, dial: Dial, err: ConnectResult, t: State) {
    && (err == DeviceDeleted <==> s.deleted)
    && (err == AlreadyConnected <==> !s.deleted && s.current.Some? && s.current.value < |s.sockets| && s.sockets[s.current.value].open)
    && (err == Connected ==> t.current == Some(|s.sockets|) && dial.DialOpens?)
    && (err == DialFailed ==> t.current == None && dial == DialFails)
    && (err == DeviceDeleted || err == AlreadyConnected ==> t.current == s.current)
    && t.loops == s.loops
  }

  lemma ConnectAnswers(s: State, dial: Dial)
    requires Inv(s)
    ensures Answers(s, dial, UnlockedConnect(s, dial).1, Tick(Take(s, Step.Connect(dial))))
  {
    DropGrows(s);
  }

  lemma DisconnectDrops(s: State)
    requires Inv(s)
    ensures var t := Tick(Take(s, Step.Disconnect)); t.current == None && t.loops == s.loops
  {
    DropGrows(Expect(s));
  }

  // ----- what follows -----

  /** A socket that the peer closes is reported, and the report starts a reconnect
      unless the disconnect is expected. */
  lemma CloseIsReported(s: State, id: nat)
    requires Inv(s) && s.current == Some(id) && s.sockets[id].open
    ensures var k := |s.callbacks|;
      var t := After(s, [RemoteClose(id), CallbackStops(k), CallbackLocks(k)]);
      && t.current == None
      && |t.history.starts| == |s.history.starts| + (if s.expected then 0 else 1)
      && t.loops == s.loops + (if !s.expected && s.canReconnect then 1 else 0)
  {
    var k := |s.callbacks|;
    var a := Tick(Take(s, RemoteClose(id)));
    StepKeeps(s, RemoteClose(id));
    assert a.callbacks == s.callbacks + [Callback(id, true, false)];
    ReportIsHandled(a, k);
    ThreeSteps(s, RemoteClose(id), CallbackStops(k), CallbackLocks(k));
  }

  lemma ReportStops(s: State, k: nat)
    requires Inv(s) && k < |s.callbacks|
    ensures var t := Take(s, CallbackStops(k));
      && t.current == s.current && t.expected == s.expected && t.force == s.force
      && t.canReconnect == s.canReconnect && t.loops == s.loops && t.history == s.history
      && t.callbacks == s.callbacks[k := s.callbacks[k].(stopped := true)]
  {
    QuietStop(s, s.callbacks[k].id);
  }

  lemma QuietStop(s: State, id: nat)
    requires id < |s.sockets|
    ensures var t := Stop(s, id, false, false);
      && t.current == s.current && t.expected == s.expected && t.force == s.force
      && t.canReconnect == s.canReconnect && t.loops == s.loops && t.history == s.history && t.callbacks == s.callbacks
  {
  }

  /** When the callback of the current socket has run, the client has no socket, and
      it started a reconnect exactly if none of the exceptions applied. */
  lemma ReportIsHandled(s: State, k: nat)
    requires Inv(s) && k < |s.callbacks| && s.current == Some(s.callbacks[k].id)
    ensures Inv(Tick(Take(s, CallbackStops(k))))
    ensures var t := Take(Tick(Take(s, CallbackStops(k))), CallbackLocks(k));
      var starts := !s.expected && (s.force || s.callbacks[k].remote);
      && t.current == None
      && |t.history.starts| == |s.history.starts| + (if starts then 1 else 0)
      && t.loops == s.loops + (if starts && s.canReconnect then 1 else 0)
  {
    StepKeeps(s, CallbackStops(k));
    ReportStops(s, k);
    ReportLocks(Tick(Take(s, CallbackStops(k))), k);
  }

  lemma ReportLocks(s: State, k: nat)
    requires Lands(s, CallbackLocks(k)) && Inv(s)
    ensures var t := Take(s, CallbackLocks(k));
      var starts := !s.expected && (s.force || s.callbacks[k].remote);
      && t.current == None
      && |t.history.starts| == |s.history.starts| + (if starts then 1 else 0)
      && t.loops == s.loops + (if starts && s.canReconnect then 1 else 0)
  {
  }

  lemma ThreeSteps(s: State, a: Step, b: Step, c: Step)
    requires Inv(s) && Inv(Tick(Take(s, a))) && Inv(Tick(Take(Tick(Take(s, a)), b)))
    ensures After(s, [a, b, c]) == Tick(Take(Tick(Take(Tick(Take(s, a)), b)), c))
  {
    assert [a, b, c][1..] == [b, c];
    AfterTwo(Tick(Take(s, a)), b, c);
  }

  /** Sockets, reports and loops are the same. */
  predicate SameConnection(s: State, t: State) {
    s.sockets == t.sockets && s.current == t.current && s.callbacks == t.callbacks && s.loops == t.loops
  }

  /** The steps of a handler change nothing about sockets and reports; they end with an
      expected disconnect exactly if there are any, or it was expected before. */
  lemma HandlerSteps(s: State, steps: seq<Step>)
    requires Inv(s) && (steps == [] || steps == [ExpectDisconnect] || steps == [ExpectDisconnect, DeleteStore])
    ensures var t := After(s, steps);
      && t.sockets == s.sockets && t.current == s.current && t.callbacks == s.callbacks
      && t.history.starts == s.history.starts && t.expected == (s.expected || steps != [])
      && t.deleted == (s.deleted || steps == [ExpectDisconnect, DeleteStore]) && SameConnection(t, s)
  {
    AfterOne(s, ExpectDisconnect);
    AfterTwo(s, ExpectDisconnect, DeleteStore);
  }

  lemma StreamErrorEffects(s: State, e: StreamError, u: Setup)
    requires Inv(s)
    ensures var t := After(s, StreamErrorSteps(e, u));
      && SameConnection(t, s)
      && (t.deleted <==> s.deleted || (e.code == 401 && e.conflict == DeviceRemoved && u.canDelete))
      && (t.expected <==>
            || s.expected
            || (e.code == 401 && e.conflict == DeviceRemoved)
            || (e.code != 515 && e.conflict == Replaced)
            || ((e.code == 413 || e.code == 414) && e.conflict != Replaced && u.refreshCat == Some(false)))
  {
    HandlerSteps(s, StreamErrorSteps(e, u));
  }

  lemma ConnectFailureEffects(s: State, reason: nat, u: Setup)
    requires Inv(s) && ConnectFailureSteps(reason, u).Some?
    ensures var t := After(s, ConnectFailureSteps(reason, u).value);
      && SameConnection(t, s)
      && (t.deleted <==> s.deleted || ((reason == 401 || reason == 403 || reason == 406) && u.canDelete))
      && (t.expected <==>
            || s.expected
            || (reason != 500 && reason != 503 && reason != 413 && reason != 414)
            || ((reason == 413 || reason == 414) && u.refreshCat == Some(false)))
  {
    HandlerSteps(s, ConnectFailureSteps(reason, u).value);
  }

  /** If the server closes the connection after a stream error, the client reconnects
      by itself, except after 401 with a removed device, a replaced stream, or a token
      that could not be refreshed. */
  lemma ReconnectAfterStreamError(s: State, id: nat, e: StreamError, u: Setup)
    requires Inv(s) && s.current == Some(id) && s.sockets[id].open && !s.expected
    ensures var t, k := After(s, StreamErrorSteps(e, u)), |s.callbacks|;
      && Inv(t)
      && |After(t, [RemoteClose(id), CallbackStops(k), CallbackLocks(k)]).history.starts| == |s.history.starts| +
         if e.code == 515 then 1
         else if (e.code == 401 && e.conflict == DeviceRemoved) || e.conflict == Replaced then 0
         else if (e.code == 413 || e.code == 414) && u.refreshCat == Some(false) then 0
         else 1
  {
    HandlerSteps(s, StreamErrorSteps(e, u));
    CloseIsReported(After(s, StreamErrorSteps(e, u)), id);
  }

  ghost predicate NobodyExpects(r: Run, from: nat, n: nat)
    requires n <= |r.steps|
  {
    forall j :: from <= j < n ==> !Expects(r.steps[j])
  }

  /** In every run: when the report of a close by the peer takes the lock, after a stream
      error was handled at step m, it starts a reconnect exactly if the handler expected no
      disconnect and nobody else did, and its socket is still current. After code 515 the
      Disconnect of the restart is such an expectation, and drops the socket. */
  lemma StreamErrorInRuns(r: Run, m: nat, n: nat, e: StreamError, u: Setup)
    requires IsRun(r) && m <= n < |r.steps| && r.steps[n].CallbackLocks? && r.steps[n].k < |r.states[n].callbacks|
    requires var c := r.states[n].callbacks[r.steps[n].k];
      c.stopped && c.remote && c.id < |r.states[n].sockets| && ClearedAt(r.states[n], c.id) <= m
    requires StreamErrorSteps(e, u) != [] ==> m < n && r.steps[m] == ExpectDisconnect
    ensures var s, t, c := r.states[n], r.states[n + 1], r.states[n].callbacks[r.steps[n].k];
      |t.history.starts| == |s.history.starts| +
        if s.current == Some(c.id) && StreamErrorSteps(e, u) == [] && NobodyExpects(r, ClearedAt(s, c.id), n) then 1 else 0
  {
    ReconnectsExactly(r, n);
  }

  /** After a connect failure it does so only for the reasons 500 and 503, and for 413
      and 414 if the token was refreshed. */
  lemma ReconnectAfterConnectFailure(s: State, id: nat, reason: nat, u: Setup)
    requires Inv(s) && s.current == Some(id) && s.sockets[id].open && !s.expected
    requires ConnectFailureSteps(reason, u).Some?
    ensures var t, k := After(s, ConnectFailureSteps(reason, u).value), |s.callbacks|;
      && Inv(t)
      && |After(t, [RemoteClose(id), CallbackStops(k), CallbackLocks(k)]).history.starts| == |s.history.starts| +
         if reason == 500 || reason == 503 || ((reason == 413 || reason == 414) && u.refreshCat == Some(true)) then 1 else 0
  {
    HandlerSteps(s, ConnectFailureSteps(reason, u).value);
    CloseIsReported(After(s, ConnectFailureSteps(reason, u).value), id);
  }
}
