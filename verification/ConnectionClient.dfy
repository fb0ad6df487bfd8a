/** The methods of client.go that change the connection, on the fields they change.
    Each one is a step of the state machine of Connection, so that what is proved of
    its runs holds of every order in which these methods are called. */
module ConnectionClient {
  import opened Wrappers
  import opened Connection
  import ConnectionLaws

  class Client {
    var sockets: seq<Socket>
    var socket: Option<nat>
    var expectedDisconnect: bool
    var forceAutoReconnect: bool
    var callbacks: seq<Callback>
    var reconnectLoops: nat
    var storeDeleted: bool
    var canReconnect: bool
    var isLoggedIn: bool
    var autoReconnectErrors: nat
    // Not in the source: the keepalive loops between their two calls, and the times
    // of the things that the properties speak of.
    var pendingResets: nat
    var history: History

    function Now(): State
      reads this
    {
      State(sockets, socket, expectedDisconnect, forceAutoReconnect, callbacks, reconnectLoops, storeDeleted,
            canReconnect, pendingResets, history)
    }

    constructor ()
      ensures Now() == INIT && Inv(Now())
    {
      sockets, socket, callbacks := [], None, [];
      expectedDisconnect, forceAutoReconnect, storeDeleted, canReconnect := false, false, false, false;
      reconnectLoops, autoReconnectErrors, pendingResets, isLoggedIn := 0, 0, 0, false;
      history := INIT.history;
    }

    method Tock()
      modifies this`history
      ensures Now() == Tick(old(Now()))
    {
      history := history.(now := history.now + 1);
    }

    /** fs.Close */
    method CloseSocket(id: nat, remote: bool)
      requires id < |sockets|
      modifies this`sockets, this`callbacks
      ensures Now() == Close(old(Now()), id, remote)
    {
      var sock := sockets[id];
      if !sock.open {
        return;
      }
      sockets := sockets[id := sock.(open := false)];
      if sock.notify {
        callbacks := callbacks + [Callback(id, remote, false)];
      }
    }

    /** ns.Stop */
    method StopSocket(id: nat, disconnect: bool, allowOnDisconnect: bool)
      requires id < |sockets|
      modifies this`sockets, this`callbacks
      ensures Now() == Stop(old(Now()), id, disconnect, allowOnDisconnect)
    {
      if !sockets[id].destroyed {
        sockets := sockets[id := sockets[id].(destroyed := true)];
        if !allowOnDisconnect {
          sockets := sockets[id := sockets[id].(notify := false)];
        }
        if disconnect {
          CloseSocket(id, false);
        }
      }
    }

    method ExpectDisconnect()
      modifies this`forceAutoReconnect, this`expectedDisconnect, this`history
      ensures Now() == Expect(old(Now()))
    {
      forceAutoReconnect := false;
      expectedDisconnect := true;
      history := history.(expectAt := history.now);
    }

    method ResetExpectedDisconnect()
      modifies this`forceAutoReconnect, this`expectedDisconnect
      ensures !forceAutoReconnect && !expectedDisconnect
    {
      forceAutoReconnect := false;
      expectedDisconnect := false;
    }

    method AutoReconnect()
      modifies this`reconnectLoops
      ensures Now() == StartLoop(old(Now()))
    {
      if canReconnect {
        reconnectLoops := reconnectLoops + 1;
      }
    }

    method UnlockedDisconnect()
      requires Ready(Now())
      modifies this`sockets, this`callbacks, this`socket
      ensures Now() == Connection.UnlockedDisconnect(old(Now()))
    {
      if socket.Some? {
        StopSocket(socket.value, true, false);
        socket := None;
      }
    }

    method UnlockedConnect(dial: Dial) returns (err: ConnectResult)
      requires Ready(Now())
      modifies this`sockets, this`callbacks, this`socket, this`forceAutoReconnect, this`expectedDisconnect
      ensures (Now(), err) == Connection.UnlockedConnect(old(Now()), dial)
    {
      if storeDeleted {
        return DeviceDeleted;
      }
      if socket.Some? {
        if !sockets[socket.value].open {
          UnlockedDisconnect();
        } else {
          return AlreadyConnected;
        }
      }
      ResetExpectedDisconnect();
      if dial == DialFails {
        return DialFailed;
      }
      socket := Some(|sockets|);
      sockets := sockets + [Socket(!dial.early, false, true, dial.early, history.now)];
      return Connected;
    }

    method ConnectContext(dial: Dial, retryable: bool) returns (err: ConnectResult)
      requires Inv(Now())
      modifies this
      ensures Now() == Tick(Take(old(Now()), InitialConnect(dial, retryable))) && Inv(Now())
    {
      ghost var s := Now();
      err := UnlockedConnect(dial);
      if err == DialFailed && retryable {
        AutoReconnect();
      }
      Tock();
      StepKeeps(s, InitialConnect(dial, retryable));
    }

    method Connect(dial: Dial) returns (err: ConnectResult)
      requires Inv(Now())
      modifies this
      ensures Now() == Tick(Take(old(Now()), Step.Connect(dial))) && Inv(Now())
      ensures err == Connection.UnlockedConnect(old(Now()), dial).1
    {
      ghost var s := Now();
      err := UnlockedConnect(dial);
      Tock();
      StepKeeps(s, Step.Connect(dial));
    }

    method ExpectStep()
      requires Inv(Now())
      modifies this
      ensures Now() == Tick(Take(old(Now()), Step.ExpectDisconnect)) && Inv(Now())
      ensures isLoggedIn == old(isLoggedIn)
    {
      ghost var s := Now();
      ExpectDisconnect();
      Tock();
      StepKeeps(s, Step.ExpectDisconnect);
    }

    /** Store.Delete, if the database lets it. */
    method DeleteStep()
      requires Inv(Now())
      modifies this
      ensures Now() == Tick(Take(old(Now()), Step.DeleteStore)) && Inv(Now())
      ensures isLoggedIn == old(isLoggedIn)
    {
      ghost var s := Now();
      storeDeleted, canReconnect := true, false;
      Tock();
      StepKeeps(s, Step.DeleteStore);
    }

    method Disconnect()
      requires Inv(Now())
      modifies this
      ensures Now() == Tick(Take(old(Now()), Step.Disconnect)) && Inv(Now())
    {
      ghost var s := Now();
      ExpectDisconnect();
      UnlockedDisconnect();
      Tock();
      StepKeeps(s, Step.Disconnect);
    }

    method ResetConnection()
      requires Inv(Now())
      modifies this
      ensures Now() == Tick(Take(old(Now()), Step.ResetConnection)) && Inv(Now())
    {
      ghost var s := Now();
      forceAutoReconnect := true;
      history := history.(resetAt := history.now);
      if socket.Some? {
        StopSocket(socket.value, true, true);
      }
      assert Now() == Take(s, Step.ResetConnection);
      Tock();
      StepKeeps(s, Step.ResetConnection);
    }

    /** The first line of onDisconnect, before the lock. */
    method OnDisconnectStops(k: nat)
      requires Inv(Now()) && k < |callbacks|
      modifies this
      ensures Now() == Tick(Take(old(Now()), CallbackStops(k))) && Inv(Now())
    {
      ghost var s := Now();
      var c := callbacks[k];
      StopSocket(c.id, false, false);
      callbacks := callbacks[k := c.(stopped := true)];
      assert Now() == Take(s, CallbackStops(k));
      Tock();
      StepKeeps(s, CallbackStops(k));
    }

    /** The rest of onDisconnect, under the lock. */
    method OnDisconnectLocked(c: Callback)
      modifies this`socket, this`forceAutoReconnect, this`reconnectLoops, this`history
      ensures Now() == Connection.OnDisconnect(old(Now()), c)
    {
      if socket == Some(c.id) {
        socket := None;
        if !expectedDisconnect {
          var forced := forceAutoReconnect;
          forceAutoReconnect := false;
          if forced || c.remote {
            history := history.(starts := history.starts +
              [Start(history.now, c.id, c.remote, history.expectAt, history.keepAliveAt, history.resetAt)]);
            AutoReconnect();
          }
        }
      }
    }

    method OnDisconnect(k: nat)
      requires Inv(Now()) && k < |callbacks| && callbacks[k].stopped
      modifies this
      ensures Now() == Tick(Take(old(Now()), CallbackLocks(k))) && Inv(Now())
    {
      ghost var s := Now();
      var c := callbacks[k];
      callbacks := RemoveAt(callbacks, k);
      OnDisconnectLocked(c);
      Tock();
      StepKeeps(s, CallbackLocks(k));
    }

    /** What other goroutines do in the meantime. */
    method Meanwhile(steps: seq<Step>)
      requires Inv(Now())
      modifies this
      ensures Now() == After(old(Now()), steps) && Inv(Now())
    {
      var t := After(Now(), steps);
      sockets, socket, callbacks, reconnectLoops := t.sockets, t.current, t.callbacks, t.loops;
      expectedDisconnect, forceAutoReconnect := t.expected, t.force;
      storeDeleted, canReconnect, pendingResets, history := t.deleted, t.canReconnect, t.resets, t.history;
    }

    /** The wait before a connect of an autoReconnect loop, in seconds. */
    method NextDelay() returns (delay: nat)
      modifies this`autoReconnectErrors
      ensures delay == 2 * old(autoReconnectErrors) && autoReconnectErrors == old(autoReconnectErrors) + 1
    {
      delay := autoReconnectErrors * 2;
      autoReconnectErrors := autoReconnectErrors + 1;
    }

    /** The connect of an autoReconnect loop, and whether the loop goes round again. */
    method ConnectAgain(dial: Dial, goOn: bool) returns (again: bool)
      requires Ready(Now())
      modifies this`sockets, this`callbacks, this`socket, this`forceAutoReconnect, this`expectedDisconnect
      ensures var (after, r) := Connection.UnlockedConnect(old(Now()), dial);
        Now() == after && again == !LoopEnds(after, r, goOn)
    {
      var err := UnlockedConnect(dial);
      again := err != AlreadyConnected && err != Connected && !expectedDisconnect && goOn;
    }

    /** One connect of an autoReconnect loop; `goOn` is the answer of AutoReconnectHook. */
    method AutoReconnectOnce(dial: Dial, goOn: bool) returns (again: bool)
      requires Inv(Now()) && reconnectLoops > 0
      modifies this
      ensures Now() == Tick(Take(old(Now()), LoopConnects(dial, goOn))) && Inv(Now())
      ensures again <==> reconnectLoops == old(reconnectLoops)
      ensures again <==> !(|sockets| > old(|sockets|) || old(!storeDeleted && socket.Some? && sockets[socket.value].open)
                           || expectedDisconnect || !goOn)
    {
      ghost var s := Now();
      again := ConnectAgain(dial, goOn);
      ConnectionLaws.LoopEndsIff(s, dial, goOn);
      reconnectLoops := if again then reconnectLoops else reconnectLoops - 1;
      assert Now() == Take(s, LoopConnects(dial, goOn));
      Tock();
      StepKeeps(s, LoopConnects(dial, goOn));
    }

    /** The Disconnect of keepAliveLoop. */
    method KeepAliveDisconnects()
      requires Inv(Now())
      modifies this
      ensures Now() == Tick(Take(old(Now()), KeepAliveDisconnect)) && Inv(Now())
    {
      ghost var s := Now();
      ExpectDisconnect();
      UnlockedDisconnect();
      pendingResets := pendingResets + 1;
      assert Now() == Take(s, KeepAliveDisconnect);
      Tock();
      StepKeeps(s, KeepAliveDisconnect);
    }

    /** The flag reset and the reconnect that follow it. */
    method KeepAliveReconnects()
      requires Inv(Now()) && pendingResets > 0
      modifies this
      ensures Now() == Tick(Take(old(Now()), KeepAliveReset)) && Inv(Now())
    {
      ghost var s := Now();
      pendingResets := pendingResets - 1;
      ResetExpectedDisconnect();
      history := history.(keepAliveAt := history.now);
      AutoReconnect();
      assert Now() == Take(s, KeepAliveReset);
      Tock();
      StepKeeps(s, KeepAliveReset);
    }
  }
}
