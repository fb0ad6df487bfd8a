/** keepAliveLoop of keepalive.go, with exact timers and time in milliseconds from
    the start of the loop. */
module KeepAlive {

  const INTERVAL_MIN: nat := 20000
  const INTERVAL_MAX: nat := 30000
  const RESPONSE_DEADLINE: nat := 10000
  const MAX_FAIL_TIME: nat := 180000

  /** A keepalive is sent after `interval` and answered, or given up, after `wait` more. */
  datatype Ping = Ping(interval: nat, wait: nat, answered: bool)

  ghost predicate Timely(pings: seq<Ping>) {
    forall i :: 0 <= i < |pings| ==> INTERVAL_MIN <= pings[i].interval < INTERVAL_MAX && pings[i].wait <= RESPONSE_DEADLINE
  }

  /** When the first n pings are over. */
  function Time(pings: seq<Ping>, n: nat): nat
    requires n <= |pings|
  {
    if n == 0 then 0 else Time(pings, n - 1) + pings[n - 1].interval + pings[n - 1].wait
  }

  /** The number of pings up to the last one that was answered. */
  function Answered(pings: seq<Ping>, n: nat): (m: nat)
    requires n <= |pings|
    ensures m <= n && (m > 0 ==> pings[m - 1].answered)
    ensures forall i :: m <= i < n ==> !pings[i].answered
  {
    if n == 0 then 0 else if pings[n - 1].answered then n else Answered(pings, n - 1)
  }

  function Silence(pings: seq<Ping>, n: nat): int
    requires n <= |pings|
  {
    Time(pings, n) - Time(pings, Answered(pings, n))
  }

  /** Whether the loop forces a reconnect after ping number n. */
  predicate Forces(pings: seq<Ping>, n: nat)
    requires n <= |pings|
  {
    n > 0 && !pings[n - 1].answered && Silence(pings, n) > MAX_FAIL_TIME
  }

  /** The loop runs until it has forced a reconnect, which ends its connection, or
      until the connection ends after the given pings. */
  method KeepAliveLoop(pings: seq<Ping>, enableAutoReconnect: bool) returns (sent: nat, errorCount: nat, forced: bool)
    ensures sent <= |pings| && (!forced ==> sent == |pings|)
    ensures errorCount == sent - Answered(pings, sent)
    ensures forced <==> enableAutoReconnect && Forces(pings, sent)
    ensures enableAutoReconnect ==> forall m :: 0 <= m < sent ==> !Forces(pings, m)
  {
    var now, lastSuccess := 0, 0;
    sent, errorCount, forced := 0, 0, false;
    while sent < |pings|
      invariant sent <= |pings|
      invariant now == Time(pings, sent) && lastSuccess == Time(pings, Answered(pings, sent))
      invariant errorCount == sent - Answered(pings, sent)
      invariant enableAutoReconnect ==> forall m :: 0 <= m <= sent ==> !Forces(pings, m)
    {
      var ping := pings[sent];
      now := now + ping.interval + ping.wait;
      sent := sent + 1;
      if !ping.answered {
        errorCount := errorCount + 1;
        if enableAutoReconnect && now - lastSuccess > MAX_FAIL_TIME {
          forced := true;
          return;
        }
      } else {
        if errorCount > 0 {
          errorCount := 0;
        }
        lastSuccess := now;
      }
    }
  }

  /** Pings take at least 20 seconds each and less than 40. */
  lemma {:induction false} SilenceBounds(pings: seq<Ping>, n: nat)
    requires n <= |pings| && Timely(pings)
    ensures var k := n - Answered(pings, n); INTERVAL_MIN * k <= Silence(pings, n) <= 39999 * k
  {
    if n > 0 && !pings[n - 1].answered {
      SilenceBounds(pings, n - 1);
    }
  }

  /** The first forced reconnect comes on failure number 5 to 10 after the last answer,
      and less than 220 seconds after it. */
  lemma FirstForcedInTime(pings: seq<Ping>, n: nat)
    requires n <= |pings| && Timely(pings)
    requires Forces(pings, n) && forall m :: 0 <= m < n ==> !Forces(pings, m)
    ensures 5 <= n - Answered(pings, n) <= 10 && Silence(pings, n) < 220000
  {
    SilenceBounds(pings, n);
    assert Answered(pings, n) == Answered(pings, n - 1);
    SilenceBounds(pings, n - 1);
    if n - 1 > Answered(pings, n) {
      assert !Forces(pings, n - 1);
    }
  }

  /** No more than nine pings in a row fail without a forced reconnect. */
  lemma TenFailuresForce(pings: seq<Ping>, n: nat)
    requires n <= |pings| && Timely(pings) && n - Answered(pings, n) >= 10
    ensures Forces(pings, n)
  {
    SilenceBounds(pings, n);
  }

  /** Both bounds are met: four slow failures are not enough and nine fast ones neither. */
  lemma BoundsAreTight()
    ensures
      var slow, fast := seq(5, _ => Ping(29999, 10000, false)), seq(10, _ => Ping(20000, 0, false));
      Forces(slow, 5) && !Forces(slow, 4) && Forces(fast, 10) && !Forces(fast, 9)
  {
    var slow, fast := seq(5, _ => Ping(29999, 10000, false)), seq(10, _ => Ping(20000, 0, false));
    SilenceBounds(fast, 10);
    UniformTime(slow, 39999, 4);
    UniformTime(slow, 39999, 5);
    UniformTime(fast, 20000, 9);
    UniformTime(fast, 20000, 10);
  }

  lemma {:induction false} UniformTime(pings: seq<Ping>, t: nat, n: nat)
    requires n <= |pings| && forall i :: 0 <= i < |pings| ==> pings[i].interval + pings[i].wait == t && !pings[i].answered
    ensures Silence(pings, n) == Time(pings, n) == t * n
  {
    if n > 0 {
      UniformTime(pings, t, n - 1);
    }
  }
}
