/** WaitForConnection and closeSocketWaitChan of client.go as a transition system.
    Channels are numbered as they are made; `up` stands for the condition of the
    loop: a socket, connected and logged in. */
module Waiters {

  datatype Waiter = Checking | Sleeping(channel: nat) | Returned(connected: bool)

  datatype State = State(current: nat, closed: seq<nat>, up: bool, waiters: seq<Waiter>)

  datatype Step =
    | Arrive
    | Check(w: nat)
    | Wake(w: nat)
    | GiveUp(w: nat)
    | CloseChannel
    | Become(up: bool)

  function Put(s: State, w: nat, to: Waiter): State
    requires w < |s.waiters|
  {
    s.(waiters := s.waiters[w := to])
  }

  /** The condition and the channel are read under one lock; the sleep follows it. */
  function Take(s: State, step: Step): State {
    match step
    case Arrive => s.(waiters := s.waiters + [Checking])
    case Check(w) =>
      if w < |s.waiters| && s.waiters[w].Checking?
      then Put(s, w, if s.up then Returned(true) else Sleeping(s.current)) else s
    case Wake(w) =>
      if w < |s.waiters| && s.waiters[w].Sleeping? && s.waiters[w].channel in s.closed then Put(s, w, Checking) else s
    case GiveUp(w) =>
      if w < |s.waiters| && s.waiters[w].Sleeping? then Put(s, w, Returned(false)) else s
    case CloseChannel => s.(closed := s.closed + [s.current], current := s.current + 1)
    case Become(up) => s.(up := up)
  }

  function Run(steps: seq<Step>, n: nat): State
    requires n <= |steps|
  {
    if n == 0 then State(0, [], false, []) else Take(Run(steps, n - 1), steps[n - 1])
  }

  /** No channel is closed twice, which would panic, and the current one is not
      closed; a waiter sleeps on the current channel or on a closed one. */
  lemma ChannelsAreClosedOnce(steps: seq<Step>, n: nat)
    requires n <= |steps|
    ensures var s := Run(steps, n);
      && s.current !in s.closed
      && (forall i, j :: 0 <= i < j < |s.closed| ==> s.closed[i] != s.closed[j])
      && (forall w :: 0 <= w < |s.waiters| && s.waiters[w].Sleeping? ==>
            s.waiters[w].channel == s.current || s.waiters[w].channel in s.closed)
  {
    ChannelsInOrder(steps, n);
    var s := Run(steps, n);
    forall w | 0 <= w < |s.waiters| && s.waiters[w].Sleeping? && s.waiters[w].channel < s.current
      ensures s.waiters[w].channel in s.closed
    {
      assert s.closed[s.waiters[w].channel] == s.waiters[w].channel;
    }
  }

  lemma {:induction false} ChannelsInOrder(steps: seq<Step>, n: nat)
    requires n <= |steps|
    ensures var s := Run(steps, n);
      && |s.closed| == s.current
      && (forall i :: 0 <= i < |s.closed| ==> s.closed[i] == i)
      && (forall w :: 0 <= w < |s.waiters| && s.waiters[w].Sleeping? ==> s.waiters[w].channel <= s.current)
  {
    if n > 0 {
      ChannelsInOrder(steps, n - 1);
    }
  }

  ghost predicate NobodyStuck(s: State) {
    forall w :: 0 <= w < |s.waiters| && s.waiters[w].Sleeping? ==> s.waiters[w].channel in s.closed
  }

  /** closeSocketWaitChan leaves no waiter asleep on an open channel. */
  lemma CloseWakesAll(steps: seq<Step>, n: nat)
    requires n < |steps| && steps[n] == CloseChannel
    ensures NobodyStuck(Run(steps, n + 1))
  {
    ChannelsAreClosedOnce(steps, n);
  }

  /** If the connection has been up since before the channel was closed, then from
      then on no waiter is stuck: one that had checked before has been woken, and
      one that checks later does not go to sleep. */
  lemma {:induction false} NoWaiterIsLost(steps: seq<Step>, m: nat, n: nat)
    requires m < n <= |steps| && steps[m] == CloseChannel
    requires forall k :: m <= k <= n ==> Run(steps, k).up
    ensures NobodyStuck(Run(steps, n))
    decreases n
  {
    if n == m + 1 {
      CloseWakesAll(steps, m);
    } else {
      NoWaiterIsLost(steps, m, n - 1);
      assert Run(steps, n - 1).up;
    }
  }

  /** A waiter is told that there is a connection only if it checked while it was up, and
      that there is none only if it gave up. */
  lemma {:induction false} AnswersAreTrue(steps: seq<Step>, n: nat, w: nat)
    requires n <= |steps| && w < |Run(steps, n).waiters| && Run(steps, n).waiters[w].Returned?
    ensures if Run(steps, n).waiters[w].connected
      then exists m :: 0 <= m < n && steps[m] == Check(w) && Run(steps, m).up
      else exists m :: 0 <= m < n && steps[m] == GiveUp(w)
  {
    var before := Run(steps, n - 1);
    if w < |before.waiters| && before.waiters[w].Returned? {
      AnswersAreTrue(steps, n - 1, w);
    } else if before.up && steps[n - 1] == Check(w) {
      assert steps[n - 1] == Check(w) && Run(steps, n - 1).up;
    } else {
      assert steps[n - 1] == GiveUp(w);
    }
  }

  /** A check answers at once if the connection is up, and otherwise waits on the current
      channel; one that is woken checks again, and an answer is final. */
  lemma WaitersGoOn(steps: seq<Step>, n: nat, w: nat)
    requires n < |steps| && w < |Run(steps, n).waiters|
    ensures var s, was, now := Run(steps, n), Run(steps, n).waiters[w], Run(steps, n + 1).waiters[w];
      && (was.Checking? && steps[n] == Check(w) ==> now == if s.up then Returned(true) else Sleeping(s.current))
      && (was.Sleeping? && steps[n] == Wake(w) && was.channel in s.closed ==> now == Checking)
      && (was.Sleeping? && steps[n] == GiveUp(w) ==> now == Returned(false))
      && (now != was ==> steps[n] == Check(w) || steps[n] == Wake(w) || steps[n] == GiveUp(w))
      && (was.Returned? ==> now == was)
  {
  }

  /** If the channel is closed before the connection is up, a waiter can be lost. */
  lemma ClosingFirstLosesAWaiter()
    ensures !NobodyStuck(Run([CloseChannel, Arrive, Check(0), Become(true)], 4))
  {
    var steps := [CloseChannel, Arrive, Check(0), Become(true)];
    assert Run(steps, 1) == State(1, [0], false, []);
    assert Run(steps, 3).waiters[0] == Sleeping(1);
    assert Run(steps, 4).waiters[0] == Sleeping(1);
  }
}
