/** The connection life cycle of client.go, connectionevents.go and keepalive.go as
    a transition system. A step is a region under the socket lock, or a change of
    the atomic flags or of a socket outside of it. Sockets are numbered in the
    order in which they become the client's socket. */
module Connection {
  import opened Wrappers

  /** NoiseSocket and FrameSocket: `open` is conn != nil, `notify` is OnDisconnect != nil,
      `early` says that the peer closed it before OnDisconnect was installed. */
  datatype Socket = Socket(open: bool, destroyed: bool, notify: bool, early: bool, connectedAt: nat)

  /** An onDisconnect goroutine; `stopped` once it has called Stop. */
  datatype Callback = Callback(id: nat, remote: bool, stopped: bool)

  /** A reconnect loop started by onDisconnect, with the times of the last
      expectDisconnect, keepalive reset and ResetConnection before it. */
  datatype Start = Start(at: nat, id: nat, remote: bool, expectAt: nat, keepAliveAt: nat, resetAt: nat)

  datatype History = History(now: nat, expectAt: nat, keepAliveAt: nat, resetAt: nat, starts: seq<Start>)

  /** `canReconnect` says that auto-reconnect is enabled and the device is paired;
      `resets` counts the keepalive loops between their Disconnect and their reset. */
  datatype State = State(
    sockets: seq<Socket>, current: Option<nat>, expected: bool, force: bool,
    callbacks: seq<Callback>, loops: nat, deleted: bool, canReconnect: bool, resets: nat, history: History)

  datatype Dial = DialFails | DialOpens(early: bool)

  datatype ConnectResult = DeviceDeleted | AlreadyConnected | DialFailed | Connected

  datatype Step =
    | Connect(dial: Dial)
    | InitialConnect(dial: Dial, retryable: bool)
    | Disconnect
    | ResetConnection
    | ExpectDisconnect
    | RemoteClose(id: nat)
    | CallbackStops(k: nat)
    | CallbackLocks(k: nat)
    | KeepAliveDisconnect
    | KeepAliveReset
    | LoopConnects(dial: Dial, goOn: bool)
    | LoopCancels
    | DeleteStore
    | Configure(can: bool)

  // ----- sockets -----

  /** FrameSocket.Close */
  function Close(s: State, id: nat, remote: bool): State
    requires id < |s.sockets|
  {
    var sock := s.sockets[id];
    if !sock.open then s
    else
      var closed := s.(sockets := s.sockets[id := sock.(open := false)]);
      if sock.notify then closed.(callbacks := s.callbacks + [Callback(id, remote, false)]) else closed
  }

  /** NoiseSocket.Stop */
  function Stop(s: State, id: nat, disconnect: bool, allowOnDisconnect: bool): State
    requires id < |s.sockets|
  {
    var sock := s.sockets[id];
    if sock.destroyed then s
    else
      var stopped := s.(sockets := s.sockets[id := sock.(destroyed := true, notify := sock.notify && allowOnDisconnect)]);
      if disconnect then Close(stopped, id, false) else stopped
  }

  // ----- regions under the lock -----

  function UnlockedDisconnect(s: State): State
    requires s.current.Some? ==> s.current.value < |s.sockets|
  {
    if s.current.Some? then Stop(s, s.current.value, true, false).(current := None) else s
  }

  function UnlockedConnect(s: State, dial: Dial): (State, ConnectResult)
    requires s.current.Some? ==> s.current.value < |s.sockets|
  {
    if s.deleted then (s, DeviceDeleted)
    else if s.current.Some? && s.sockets[s.current.value].open then (s, AlreadyConnected)
    else
      var dropped := UnlockedDisconnect(s).(expected := false, force := false);
      match dial
      case DialFails => (dropped, DialFailed)
      case DialOpens(early) =>
        (dropped.(sockets := dropped.sockets + [Socket(!early, false, true, early, s.history.now)],
                  current := Some(|dropped.sockets|)), Connected)
  }

  function StartLoop(s: State): State {
    if s.canReconnect then s.(loops := s.loops + 1) else s
  }

  function Expect(s: State): State {
    s.(force := false, expected := true, history := s.history.(expectAt := s.history.now))
  }

  /** The locked part of onDisconnect. The force flag is only swapped if the
      disconnect was not expected. */
  function OnDisconnect(s: State, c: Callback): State {
    if s.current != Some(c.id) then s
    else
      var cleared := s.(current := None);
      if s.expected then cleared
      else
        var swapped := cleared.(force := false);
        if s.force || c.remote
        then
          var h := s.history;
          StartLoop(swapped.(history := h.(starts := h.starts + [Start(h.now, c.id, c.remote, h.expectAt, h.keepAliveAt, h.resetAt)])))
        else swapped
  }

  /** The exits of autoReconnect after its connect. */
  predicate LoopEnds(after: State, r: ConnectResult, goOn: bool) {
    r == Connected || r == AlreadyConnected || after.expected || !goOn
  }

  function RemoveAt<T>(cs: seq<T>, k: nat): seq<T>
    requires k < |cs|
  {
    cs[..k] + cs[k + 1..]
  }

  // ----- steps and runs -----

  /** The numbers in the state are those of sockets. */
  predicate Ready(s: State) {
    && (s.current.Some? ==> s.current.value < |s.sockets|)
    && (forall k :: 0 <= k < |s.callbacks| ==> s.callbacks[k].id < |s.sockets|)
  }

  function Take(s: State, step: Step): State
    requires Ready(s)
  {
    match step
    case Connect(dial) => UnlockedConnect(s, dial).0
    case InitialConnect(dial, retryable) =>
      var (after, r) := UnlockedConnect(s, dial);
      if r == DialFailed && retryable then StartLoop(after) else after
    case Disconnect => UnlockedDisconnect(Expect(s))
    case ResetConnection =>
      var forced := s.(force := true, history := s.history.(resetAt := s.history.now));
      if s.current.Some? then Stop(forced, s.current.value, true, true) else forced
    case ExpectDisconnect => Expect(s)
    case RemoteClose(id) => if id < |s.sockets| then Close(s, id, true) else s
    case CallbackStops(k) =>
      if k >= |s.callbacks| then s
      else
        var c := s.callbacks[k];
        Stop(s, c.id, false, false).(callbacks := s.callbacks[k := c.(stopped := true)])
    case CallbackLocks(k) =>
      if k >= |s.callbacks| || !s.callbacks[k].stopped then s
      else OnDisconnect(s.(callbacks := RemoveAt(s.callbacks, k)), s.callbacks[k])
    case KeepAliveDisconnect => UnlockedDisconnect(Expect(s)).(resets := s.resets + 1)
    case KeepAliveReset =>
      if s.resets == 0 then s
      else
        StartLoop(s.(resets := s.resets - 1, force := false, expected := false,
                     history := s.history.(keepAliveAt := s.history.now)))
    case LoopConnects(dial, goOn) =>
      if s.loops == 0 then s
      else
        var (after, r) := UnlockedConnect(s, dial);
        after.(loops := if LoopEnds(after, r, goOn) then s.loops - 1 else s.loops)
    case LoopCancels => if s.loops > 0 && s.expected then s.(loops := s.loops - 1) else s
    case DeleteStore => s.(deleted := true, canReconnect := false)
    case Configure(can) => s.(canReconnect := can && !s.deleted)
  }

  function Tick(s: State): State {
    s.(history := s.history.(now := s.history.now + 1))
  }

  const INIT := State([], None, false, false, [], 0, false, false, 0, History(1, 0, 0, 0, []))

  // ----- the invariant -----

  ghost predicate Pending(s: State, id: nat) {
    exists k :: 0 <= k < |s.callbacks| && s.callbacks[k].id == id
  }

  function Max(a: nat, b: nat): nat {
    if a < b then b else a
  }

  ghost predicate SocketsOk(s: State) {
    && (s.current.Some? ==> s.current.value < |s.sockets|)
    && (forall id :: 0 <= id < |s.sockets| && s.sockets[id].open ==>
          s.current == Some(id) && !s.sockets[id].destroyed && s.sockets[id].notify)
    && (forall id :: 0 <= id < |s.sockets| ==> s.sockets[id].connectedAt < s.history.now)
  }

  ghost predicate CallbacksOk(s: State) {
    && (forall k :: 0 <= k < |s.callbacks| ==> s.callbacks[k].id < |s.sockets| && !s.sockets[s.callbacks[k].id].open)
    && (forall j, k :: 0 <= j < k < |s.callbacks| ==> s.callbacks[j].id != s.callbacks[k].id)
  }

  /** A current socket that is closed has a callback on its way, except if it was
      closed before the callback was installed. */
  ghost predicate NotLost(s: State) {
    (s.current.Some? && s.current.value < |s.sockets|
     && !s.sockets[s.current.value].open && !s.sockets[s.current.value].early)
    ==> Pending(s, s.current.value)
  }

  /** What is recorded about a start is true of the socket it was for. */
  ghost predicate StartOk(s: State, st: Start) {
    && st.id < |s.sockets|
    && st.expectAt <= Max(s.sockets[st.id].connectedAt, st.keepAliveAt)
    && (!st.remote ==> st.resetAt > s.sockets[st.id].connectedAt)
  }

  ghost predicate StartsOk(s: State) {
    && (forall i :: 0 <= i < |s.history.starts| ==> StartOk(s, s.history.starts[i]))
    && (forall i :: 0 <= i < |s.history.starts| ==>
          var id := s.history.starts[i].id;
          id < |s.sockets| && !s.sockets[id].open && s.current != Some(id) && !Pending(s, id))
    && (forall i, j :: 0 <= i < j < |s.history.starts| ==> s.history.starts[i].id != s.history.starts[j].id)
  }

  /** For the current socket the flags say what happened since it was connected. */
  ghost predicate FlagsOk(s: State) {
    var h := s.history;
    && h.expectAt < h.now && h.keepAliveAt < h.now && h.resetAt < h.now
    && (s.current.Some? && s.current.value < |s.sockets| ==>
          var at := s.sockets[s.current.value].connectedAt;
          && (s.expected <==> h.expectAt > Max(at, h.keepAliveAt))
          && (s.force <==> h.resetAt > Max(at, Max(h.expectAt, h.keepAliveAt))))
  }

  ghost predicate Inv(s: State) {
    SocketsOk(s) && CallbacksOk(s) && NotLost(s) && StartsOk(s) && FlagsOk(s)
  }

  /** The parts that closing a socket can affect. */
  ghost predicate Shape(s: State) {
    SocketsOk(s) && CallbacksOk(s) && StartsOk(s)
  }

  /** `t` is `s` except for sockets that were closed and callbacks that were added. */
  ghost predicate OnlyCloses(s: State, t: State) {
    && |t.sockets| == |s.sockets|
    && t == s.(sockets := t.sockets, callbacks := t.callbacks)
    && (forall x :: 0 <= x < |s.sockets| ==> t.sockets[x].connectedAt == s.sockets[x].connectedAt)
  }

  // ----- steps keep the invariant -----

  lemma SilencedKeeps(s: State, id: nat, sock: Socket)
    requires Shape(s) && id < |s.sockets|
    requires !sock.open && sock.connectedAt == s.sockets[id].connectedAt
    ensures Shape(s.(sockets := s.sockets[id := sock]))
    ensures OnlyCloses(s, s.(sockets := s.sockets[id := sock]))
  {
    var t := s.(sockets := s.sockets[id := sock]);
    forall x ensures Pending(t, x) <==> Pending(s, x) {}
  }

  lemma Announced(s: State, c: Callback, x: nat)
    ensures Pending(s.(callbacks := s.callbacks + [c]), x) <==> (Pending(s, x) || x == c.id)
  {
    var t := s.(callbacks := s.callbacks + [c]);
    assert t.callbacks[|s.callbacks|] == c;
    if Pending(s, x) {
      var k :| 0 <= k < |s.callbacks| && s.callbacks[k].id == x;
      assert t.callbacks[k].id == x;
    }
  }

  lemma AnnouncedKeeps(s: State, c: Callback)
    requires Shape(s) && c.id < |s.sockets| && !s.sockets[c.id].open
    requires !Pending(s, c.id) && forall i :: 0 <= i < |s.history.starts| ==> s.history.starts[i].id != c.id
    ensures Shape(s.(callbacks := s.callbacks + [c]))
  {
    forall x ensures Pending(s.(callbacks := s.callbacks + [c]), x) <==> (Pending(s, x) || x == c.id) {
      Announced(s, c, x);
    }
  }

  lemma CloseKeeps(s: State, id: nat, remote: bool)
    requires Shape(s) && id < |s.sockets|
    ensures Shape(Close(s, id, remote)) && OnlyCloses(s, Close(s, id, remote))
    ensures !Close(s, id, remote).sockets[id].open
  {
    var sock := s.sockets[id];
    if sock.open {
      var closed := s.(sockets := s.sockets[id := sock.(open := false)]);
      SilencedKeeps(s, id, sock.(open := false));
      assert !Pending(closed, id);
      AnnouncedKeeps(closed, Callback(id, remote, false));
    }
  }

  lemma CloseReports(s: State, id: nat, remote: bool)
    requires SocketsOk(s) && id < |s.sockets| && NotLost(s)
    ensures NotLost(Close(s, id, remote))
  {
    var sock := s.sockets[id];
    if sock.open {
      var closed := s.(sockets := s.sockets[id := sock.(open := false)]);
      Announced(closed, Callback(id, remote, false), id);
    }
  }

  /** Stopping is closing, with or without a report, and then marking the socket. */
  lemma StopIsClose(s: State, id: nat, disconnect: bool, allowOnDisconnect: bool)
    requires id < |s.sockets| && !s.sockets[id].destroyed
    requires disconnect || !s.sockets[id].open
    ensures
      var sock := s.sockets[id];
      var c := if sock.open && allowOnDisconnect then Close(s, id, false) else s;
      var stopped := sock.(open := false, destroyed := true, notify := sock.notify && allowOnDisconnect);
      Stop(s, id, disconnect, allowOnDisconnect) == c.(sockets := c.sockets[id := stopped])
  {
  }

  lemma StopKeeps(s: State, id: nat, disconnect: bool, allowOnDisconnect: bool)
    requires Shape(s) && id < |s.sockets|
    requires disconnect || !s.sockets[id].open
    ensures Shape(Stop(s, id, disconnect, allowOnDisconnect))
    ensures OnlyCloses(s, Stop(s, id, disconnect, allowOnDisconnect))
    ensures !Stop(s, id, disconnect, allowOnDisconnect).sockets[id].open
  {
    var sock := s.sockets[id];
    if !sock.destroyed {
      StopIsClose(s, id, disconnect, allowOnDisconnect);
      CloseKeeps(s, id, false);
      var stopped := sock.(open := false, destroyed := true, notify := sock.notify && allowOnDisconnect);
      if sock.open && allowOnDisconnect {
        SilencedKeeps(Close(s, id, false), id, stopped);
      } else {
        SilencedKeeps(s, id, stopped);
      }
    }
  }

  /** A stop loses no report, except where it takes the callback out of the current socket. */
  lemma StopReports(s: State, id: nat, disconnect: bool, allowOnDisconnect: bool)
    requires SocketsOk(s) && id < |s.sockets| && NotLost(s)
    requires allowOnDisconnect || s.current != Some(id) || !s.sockets[id].open
    ensures NotLost(Stop(s, id, disconnect, allowOnDisconnect))
  {
    var sock := s.sockets[id];
    if !sock.destroyed {
      var stopped := s.(sockets := s.sockets[id := sock.(destroyed := true, notify := sock.notify && allowOnDisconnect)]);
      forall x ensures Pending(stopped, x) <==> Pending(s, x) {}
      if disconnect && sock.open {
        Announced(stopped.(sockets := stopped.sockets[id := stopped.sockets[id].(open := false)]), Callback(id, false, false), id);
      }
    }
  }

  /** Without a current socket the flags mean nothing. */
  lemma ClearedKeeps(s: State)
    requires Shape(s)
    requires s.current.Some? ==> !s.sockets[s.current.value].open
    ensures Shape(s.(current := None)) && NotLost(s.(current := None))
  {
    var t := s.(current := None);
    forall x ensures Pending(t, x) <==> Pending(s, x) {}
  }

  /** Flags, loops, the clock and the times do not matter for the sockets. */
  ghost predicate SameSockets(s: State, t: State) {
    && t.sockets == s.sockets && t.current == s.current && t.callbacks == s.callbacks
    && t.history.starts == s.history.starts && t.history.now >= s.history.now
  }

  lemma FlagsKeepShape(s: State, t: State)
    requires SameSockets(s, t)
    ensures Shape(s) ==> Shape(t)
    ensures NotLost(s) ==> NotLost(t)
  {
    forall x ensures Pending(t, x) <==> Pending(s, x) {}
  }

  /** A step that only closes sockets leaves the flags of the current one as they were. */
  lemma FlagsTicked(s: State, t: State)
    requires Inv(s) && Shape(t) && NotLost(t)
    requires |t.sockets| == |s.sockets| && t.current == s.current && t.expected == s.expected && t.force == s.force
    requires t.history == s.history
    requires forall x :: 0 <= x < |s.sockets| ==> t.sockets[x].connectedAt == s.sockets[x].connectedAt
    ensures Inv(Tick(t))
  {
    FlagsKeepShape(t, Tick(t));
  }

  lemma UnlockedDisconnectKeeps(s: State)
    requires Shape(s)
    ensures Shape(UnlockedDisconnect(s)) && NotLost(UnlockedDisconnect(s))
    ensures var t := UnlockedDisconnect(s); t == s.(sockets := t.sockets, callbacks := t.callbacks, current := None)
    ensures |UnlockedDisconnect(s).sockets| == |s.sockets|
  {
    if s.current.Some? {
      var id := s.current.value;
      StopKeeps(s, id, true, false);
      ClearedKeeps(Stop(s, id, true, false));
    }
  }

  /** The new socket is the only open one. */
  lemma OpenedKeeps(s: State, early: bool)
    requires Shape(s) && s.current == None && !s.expected && !s.force
    requires s.history.expectAt < s.history.now && s.history.keepAliveAt < s.history.now && s.history.resetAt < s.history.now
    ensures Inv(Tick(s.(sockets := s.sockets + [Socket(!early, false, true, early, s.history.now)],
                        current := Some(|s.sockets|))))
  {
    var t := s.(sockets := s.sockets + [Socket(!early, false, true, early, s.history.now)], current := Some(|s.sockets|));
    forall x ensures Pending(Tick(t), x) <==> Pending(s, x) {}
  }

  lemma UnlockedConnectKeeps(s: State, dial: Dial)
    requires Inv(s)
    ensures Inv(Tick(UnlockedConnect(s, dial).0))
    ensures UnlockedConnect(s, dial).1 == DialFailed ==> !UnlockedConnect(s, dial).0.expected
  {
    FlagsKeepShape(s, Tick(s));
    if !s.deleted && !(s.current.Some? && s.sockets[s.current.value].open) {
      UnlockedDisconnectKeeps(s);
      var dropped := UnlockedDisconnect(s).(expected := false, force := false);
      FlagsKeepShape(UnlockedDisconnect(s), dropped);
      FlagsKeepShape(dropped, Tick(dropped));
      if dial.DialOpens? { OpenedKeeps(dropped, dial.early); }
    }
  }

  lemma LoopsKeep(s: State, loops: nat)
    requires Inv(Tick(s))
    ensures Inv(Tick(s.(loops := loops)))
  {
    FlagsKeepShape(Tick(s), Tick(s.(loops := loops)));
  }

  lemma ExpectKeeps(s: State)
    requires Inv(s)
    ensures Inv(Tick(Expect(s))) && Shape(Expect(s))
  {
    FlagsKeepShape(s, Expect(s));
    FlagsKeepShape(s, Tick(Expect(s)));
  }

  lemma DisconnectKeeps(s: State)
    requires Inv(s)
    ensures Inv(Tick(Take(s, Disconnect)))
  {
    ExpectKeeps(s);
    UnlockedDisconnectKeeps(Expect(s));
    FlagsKeepShape(UnlockedDisconnect(Expect(s)), Tick(UnlockedDisconnect(Expect(s))));
  }

  lemma KeepAliveDisconnectKeeps(s: State)
    requires Inv(s)
    ensures Inv(Tick(Take(s, KeepAliveDisconnect)))
  {
    DisconnectKeeps(s);
    FlagsKeepShape(Tick(Take(s, Disconnect)), Tick(Take(s, KeepAliveDisconnect)));
  }

  lemma ResetKeeps(s: State)
    requires Inv(s)
    ensures Inv(Tick(Take(s, ResetConnection)))
  {
    var forced := s.(force := true, history := s.history.(resetAt := s.history.now));
    FlagsKeepShape(s, forced);
    if s.current.Some? {
      StopKeeps(forced, s.current.value, true, true);
      StopReports(forced, s.current.value, true, true);
    }
    FlagsKeepShape(Take(s, ResetConnection), Tick(Take(s, ResetConnection)));
  }

  lemma RemoteCloseKeeps(s: State, id: nat)
    requires Inv(s)
    ensures Inv(Tick(Take(s, RemoteClose(id))))
  {
    if id < |s.sockets| {
      CloseKeeps(s, id, true);
      CloseReports(s, id, true);
    }
    FlagsKeepShape(Take(s, RemoteClose(id)), Tick(Take(s, RemoteClose(id))));
  }

  lemma RenamedKeeps(s: State, k: nat, c: Callback)
    requires k < |s.callbacks| && c.id == s.callbacks[k].id
    ensures Shape(s) ==> Shape(s.(callbacks := s.callbacks[k := c]))
    ensures NotLost(s) ==> NotLost(s.(callbacks := s.callbacks[k := c]))
  {
    var t := s.(callbacks := s.callbacks[k := c]);
    forall x ensures Pending(t, x) <==> Pending(s, x) {
      if Pending(s, x) {
        var j :| 0 <= j < |s.callbacks| && s.callbacks[j].id == x;
        assert t.callbacks[j].id == x;
      }
      if Pending(t, x) {
        var j :| 0 <= j < |t.callbacks| && t.callbacks[j].id == x;
        assert s.callbacks[j].id == x;
      }
    }
  }

  lemma CallbackStopsKeeps(s: State, k: nat)
    requires Inv(s)
    ensures Inv(Tick(Take(s, CallbackStops(k))))
  {
    var t := Take(s, CallbackStops(k));
    if k < |s.callbacks| {
      var id := s.callbacks[k].id;
      var stopped := Stop(s, id, false, false);
      StopKeeps(s, id, false, false);
      StopReports(s, id, false, false);
      RenamedKeeps(stopped, k, s.callbacks[k].(stopped := true));
      assert stopped.callbacks == s.callbacks;
      assert t == stopped.(callbacks := stopped.callbacks[k := s.callbacks[k].(stopped := true)]);
      FlagsTicked(s, t);
    } else {
      FlagsTicked(s, t);
    }
  }

  lemma RemovedAt<T>(cs: seq<T>, k: nat)
    requires k < |cs|
    ensures |RemoveAt(cs, k)| == |cs| - 1
    ensures forall j :: 0 <= j < k ==> RemoveAt(cs, k)[j] == cs[j]
    ensures forall j :: k <= j < |cs| - 1 ==> RemoveAt(cs, k)[j] == cs[j + 1]
  {
  }

  lemma RemovedCallback(s: State, k: nat, x: nat)
    requires CallbacksOk(s) && k < |s.callbacks|
    ensures Pending(s.(callbacks := RemoveAt(s.callbacks, k)), x) <==> (Pending(s, x) && x != s.callbacks[k].id)
  {
    RemovedAt(s.callbacks, k);
    var t := s.(callbacks := RemoveAt(s.callbacks, k));
    if Pending(s, x) && x != s.callbacks[k].id {
      var j :| 0 <= j < |s.callbacks| && s.callbacks[j].id == x;
      assert t.callbacks[if j < k then j else j - 1].id == x;
    }
    if Pending(t, x) {
      var j :| 0 <= j < |t.callbacks| && t.callbacks[j].id == x;
      assert s.callbacks[if j < k then j else j + 1].id == x;
    }
  }

  lemma RemovedKeeps(s: State, k: nat)
    requires Shape(s) && k < |s.callbacks|
    ensures Shape(s.(callbacks := RemoveAt(s.callbacks, k)))
    ensures !Pending(s.(callbacks := RemoveAt(s.callbacks, k)), s.callbacks[k].id)
    ensures NotLost(s) && s.current != Some(s.callbacks[k].id) ==> NotLost(s.(callbacks := RemoveAt(s.callbacks, k)))
  {
    RemovedAt(s.callbacks, k);
    forall x
      ensures Pending(s.(callbacks := RemoveAt(s.callbacks, k)), x) <==> (Pending(s, x) && x != s.callbacks[k].id)
    {
      RemovedCallback(s, k, x);
    }
  }

  /** A start is recorded for a socket that never had one. */
  lemma StartedKeeps(s: State, st: Start)
    requires Shape(s) && StartOk(s, st)
    requires !s.sockets[st.id].open && s.current != Some(st.id) && !Pending(s, st.id)
    requires forall i :: 0 <= i < |s.history.starts| ==> s.history.starts[i].id != st.id
    ensures Shape(s.(history := s.history.(starts := s.history.starts + [st])))
  {
    var t := s.(history := s.history.(starts := s.history.starts + [st]));
    forall x ensures Pending(t, x) <==> Pending(s, x) {}
    forall i | 0 <= i < |t.history.starts| ensures StartOk(t, t.history.starts[i]) {
      if i < |s.history.starts| { assert StartOk(s, s.history.starts[i]); }
    }
  }

  lemma OnDisconnectKeeps(s: State, c: Callback)
    requires Shape(s) && FlagsOk(s) && c.id < |s.sockets| && !s.sockets[c.id].open && !Pending(s, c.id)
    requires s.current != Some(c.id) ==> NotLost(s)
    requires forall i :: 0 <= i < |s.history.starts| ==> s.history.starts[i].id != c.id
    ensures Inv(Tick(OnDisconnect(s, c)))
  {
    var t := OnDisconnect(s, c);
    if s.current == Some(c.id) {
      ClearedKeeps(s);
      var h := s.history;
      if !s.expected && (s.force || c.remote) {
        StartedKeeps(s.(current := None), Start(h.now, c.id, c.remote, h.expectAt, h.keepAliveAt, h.resetAt));
        FlagsKeepShape(s.(current := None, history := t.history), Tick(t));
      } else {
        FlagsKeepShape(s.(current := None), Tick(t));
      }
    } else {
      FlagsKeepShape(s, Tick(s));
    }
  }

  lemma CallbackLocksKeeps(s: State, k: nat)
    requires Inv(s)
    ensures Inv(Tick(Take(s, CallbackLocks(k))))
  {
    if k < |s.callbacks| && s.callbacks[k].stopped {
      var c := s.callbacks[k];
      assert Pending(s, c.id);
      RemovedKeeps(s, k);
      OnDisconnectKeeps(s.(callbacks := RemoveAt(s.callbacks, k)), c);
    } else {
      FlagsKeepShape(s, Tick(s));
    }
  }

  lemma InitialConnectKeeps(s: State, dial: Dial, retryable: bool)
    requires Inv(s)
    ensures Inv(Tick(Take(s, InitialConnect(dial, retryable))))
  {
    UnlockedConnectKeeps(s, dial);
    var after := UnlockedConnect(s, dial).0;
    LoopsKeep(after, after.loops + 1);
  }

  lemma LoopConnectsKeeps(s: State, dial: Dial, goOn: bool)
    requires Inv(s)
    ensures Inv(Tick(Take(s, LoopConnects(dial, goOn))))
  {
    if s.loops > 0 {
      var (after, r) := UnlockedConnect(s, dial);
      UnlockedConnectKeeps(s, dial);
      LoopsKeep(after, if LoopEnds(after, r, goOn) then s.loops - 1 else s.loops);
    } else {
      FlagsKeepShape(s, Tick(s));
    }
  }

  lemma FlagStepKeeps(s: State, step: Step)
    requires Inv(s) && (step == KeepAliveReset || step == LoopCancels || step == DeleteStore || step.Configure?)
    ensures Inv(Tick(Take(s, step)))
  {
    FlagsKeepShape(s, Tick(Take(s, step)));
  }

  lemma StepKeeps(s: State, step: Step)
    requires Inv(s)
    ensures Inv(Tick(Take(s, step)))
  {
    match step
    case Connect(dial) => UnlockedConnectKeeps(s, dial);
    case InitialConnect(dial, retryable) => InitialConnectKeeps(s, dial, retryable);
    case Disconnect => DisconnectKeeps(s);
    case KeepAliveDisconnect => KeepAliveDisconnectKeeps(s);
    case ResetConnection => ResetKeeps(s);
    case ExpectDisconnect => ExpectKeeps(s);
    case RemoteClose(id) => RemoteCloseKeeps(s, id);
    case CallbackStops(k) => CallbackStopsKeeps(s, k);
    case CallbackLocks(k) => CallbackLocksKeeps(s, k);
    case LoopConnects(dial, goOn) => LoopConnectsKeeps(s, dial, goOn);
    case KeepAliveReset => FlagStepKeeps(s, step);
    case LoopCancels => FlagStepKeeps(s, step);
    case DeleteStore => FlagStepKeeps(s, step);
    case Configure(_) => FlagStepKeeps(s, step);
  }

  /** The state after some steps in a row. */
  function After(s: State, steps: seq<Step>): (t: State)
    requires Inv(s)
    ensures Inv(t)
    decreases |steps|
  {
    if steps == [] then s
    else
      StepKeeps(s, steps[0]);
      After(Tick(Take(s, steps[0])), steps[1..])
  }

  lemma AfterOne(s: State, a: Step)
    requires Inv(s)
    ensures After(s, [a]) == Tick(Take(s, a))
  {
    assert [a][1..] == [];
  }

  lemma AfterTwo(s: State, a: Step, b: Step)
    requires Inv(s)
    ensures Inv(Tick(Take(s, a))) && After(s, [a, b]) == Tick(Take(Tick(Take(s, a)), b))
  {
    StepKeeps(s, a);
    assert [a, b][1..] == [b];
    AfterOne(Tick(Take(s, a)), b);
  }

  lemma {:induction false} AfterAppend(s: State, xs: seq<Step>, ys: seq<Step>)
    requires Inv(s)
    ensures After(s, xs + ys) == After(After(s, xs), ys)
    decreases |xs|
  {
    if xs == [] {
      assert xs + ys == ys;
    } else {
      StepKeeps(s, xs[0]);
      assert (xs + ys)[1..] == xs[1..] + ys;
      AfterAppend(Tick(Take(s, xs[0])), xs[1..], ys);
    }
  }
}
