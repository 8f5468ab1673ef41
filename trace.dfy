/** What the agent does, as traces of observable events: the specification the
    supervisor and the per-broker tasks are proved against. The broker session's
    connect outcomes and each cycle's command result, timestamp and publish
    outcome are inputs (oracles); a finite oracle bounds the endless loops. */
module Trace {
  import opened GoTypes
  import opened Configuration
  import opened Message

  /** Observable steps: connect attempts, sleeps, publishes (one task), and
      launches and startup pauses (the supervisor). Durations are in seconds. */
  datatype Event =
    | ConnectFail(broker: GoString)
    | Connected(broker: GoString)
    | Sleep(seconds: int)
    | Publish(topic: GoString, qos: byte, retained: bool, payload: Envelope)
    | Launch(broker: GoString)
    | Pause(seconds: int)

  /** The inputs of one publish cycle: what the command gave, the timestamp text
      and whether the publish token reported an error (which is only logged). */
  datatype Cycle = Cycle(result: CommandResult, ts: GoString, publishOk: bool)

  /** Number of failed attempts before the first successful one, or |attempts|
      if none succeeds. */
  function FailuresBefore(attempts: seq<bool>): (n: nat)
    ensures n <= |attempts|
    ensures forall j | 0 <= j < n :: !attempts[j]
    ensures n < |attempts| ==> attempts[n]
    decreases |attempts|
  {
    if |attempts| == 0 || attempts[0] then 0 else 1 + FailuresBefore(attempts[1..])
  }

  /** The connect-retry loop: a failure logs, sleeps the reconnect interval and
      tries again; the first success ends the loop. */
  function ConnectPhase(broker: GoString, reconnect: int, attempts: seq<bool>): seq<Event>
    decreases |attempts|
  {
    if |attempts| == 0 then []
    else if attempts[0] then [Connected(broker)]
    else [ConnectFail(broker), Sleep(reconnect)] + ConnectPhase(broker, reconnect, attempts[1..])
  }

  /** One publish cycle: one publish with the fixed topic, `byte(cfg.Qos)` and
      the retained flag, then the send-interval sleep. */
  function PublishCycle(cfg: Config, topic: GoString, c: Cycle): seq<Event> {
    [Publish(topic, QosByte(cfg.qos), cfg.retained, BuildEnvelope(cfg, c.result, c.ts)),
     Sleep(cfg.sendIntervalSec)]
  }

  /** The publish loop over a finite prefix of its cycles. */
  function PublishPhase(cfg: Config, topic: GoString, cycles: seq<Cycle>): seq<Event>
    decreases |cycles|
  {
    if |cycles| == 0 then []
    else PublishCycle(cfg, topic, cycles[0]) + PublishPhase(cfg, topic, cycles[1..])
  }

  /** A task's whole trace: it publishes only once a connect attempt succeeded. */
  function TaskTrace(cfg: Config, broker: GoString, topic: GoString,
                     attempts: seq<bool>, cycles: seq<Cycle>): seq<Event>
  {
    ConnectPhase(broker, cfg.reconnectIntervalSec, attempts) +
    (if true in attempts then PublishPhase(cfg, topic, cycles) else [])
  }

  /** The supervisor's launch loop: each launch is followed by the startup pause. */
  function LaunchPhase(brokers: seq<GoString>, pause: int): seq<Event>
    decreases |brokers|
  {
    if |brokers| == 0 then []
    else [Launch(brokers[0]), Pause(pause)] + LaunchPhase(brokers[1..], pause)
  }

  /** The connect phase is n (ConnectFail, Sleep) pairs for the n failures before
      the first success, then Connected if there was a success. */
  lemma {:induction false} ConnectPhaseShape(broker: GoString, d: int, attempts: seq<bool>)
    ensures var t, n := ConnectPhase(broker, d, attempts), FailuresBefore(attempts);
      |t| == 2 * n + (if n < |attempts| then 1 else 0) &&
      (forall i | 0 <= i < 2 * n :: t[i] == if i % 2 == 0 then ConnectFail(broker) else Sleep(d)) &&
      (n < |attempts| ==> t[2 * n] == Connected(broker))
    decreases |attempts|
  {
    if |attempts| > 0 && !attempts[0] {
      ConnectPhaseShape(broker, d, attempts[1..]);
      var t, rest := ConnectPhase(broker, d, attempts), ConnectPhase(broker, d, attempts[1..]);
      assert t == [ConnectFail(broker), Sleep(d)] + rest;
      assert forall i | 2 <= i < |t| :: t[i] == rest[i - 2];
      assert FailuresBefore(attempts) == 1 + FailuresBefore(attempts[1..]);
    }
  }

  /** The publish phase alternates Publish and Sleep, one pair per cycle, and the
      k-th Publish carries the k-th cycle's envelope. */
  lemma {:induction false} PublishPhaseShape(cfg: Config, topic: GoString, cycles: seq<Cycle>)
    ensures var p := PublishPhase(cfg, topic, cycles);
      |p| == 2 * |cycles| &&
      forall i | 0 <= i < |p| :: p[i] == if i % 2 == 0 then PublishCycle(cfg, topic, cycles[i / 2])[0]
                                         else Sleep(cfg.sendIntervalSec)
    decreases |cycles|
  {
    if |cycles| > 0 {
      PublishPhaseShape(cfg, topic, cycles[1..]);
      var p, rest := PublishPhase(cfg, topic, cycles), PublishPhase(cfg, topic, cycles[1..]);
      assert p == PublishCycle(cfg, topic, cycles[0]) + rest;
      forall i | 2 <= i < |p|
        ensures p[i] == if i % 2 == 0 then PublishCycle(cfg, topic, cycles[i / 2])[0]
                        else Sleep(cfg.sendIntervalSec)
      {
        assert p[i] == rest[i - 2];
        assert (i - 2) / 2 == i / 2 - 1 && (i - 2) % 2 == i % 2;
        assert cycles[1..][i / 2 - 1] == cycles[i / 2];
      }
    }
  }

  /** Event i of the connect phase: a failure pair before the first success,
      Connected after them. */
  lemma ConnectAt(broker: GoString, d: int, attempts: seq<bool>, i: int)
    ensures var c, n := ConnectPhase(broker, d, attempts), FailuresBefore(attempts);
      (n < |attempts| <==> true in attempts) &&
      |c| == 2 * n + (if n < |attempts| then 1 else 0) &&
      (0 <= i < |c| ==>
         c[i] == if i < 2 * n then (if i % 2 == 0 then ConnectFail(broker) else Sleep(d)) else Connected(broker))
  {
    ConnectPhaseShape(broker, d, attempts);
    var n := FailuresBefore(attempts);
    if n == |attempts| {
      assert forall j | 0 <= j < |attempts| :: !attempts[j];
    }
  }

  /** The publish phase holds only Publish and Sleep events. */
  lemma PublishEventAt(cfg: Config, topic: GoString, cycles: seq<Cycle>, j: int)
    ensures var p := PublishPhase(cfg, topic, cycles);
      0 <= j < |p| ==> p[j].Publish? || p[j].Sleep?
  {
    PublishPhaseShape(cfg, topic, cycles);
  }

  /** Event i of a task trace is from the connect phase, or else from the
      publish phase, which is only there after a successful connect. */
  lemma TaskTraceAt(cfg: Config, broker: GoString, topic: GoString,
                    attempts: seq<bool>, cycles: seq<Cycle>, i: nat)
    requires i < |TaskTrace(cfg, broker, topic, attempts, cycles)|
    ensures var t, c := TaskTrace(cfg, broker, topic, attempts, cycles),
                        ConnectPhase(broker, cfg.reconnectIntervalSec, attempts);
      (i < |c| ==> t[i] == c[i]) &&
      (i >= |c| ==> true in attempts && t[i] == PublishPhase(cfg, topic, cycles)[i - |c|])
  {
  }

  /** No Publish happens before the first successful connect: every Publish comes
      after the Connected event, which follows the failures before it. */
  lemma NoPublishBeforeConnected(cfg: Config, broker: GoString, topic: GoString,
                                 attempts: seq<bool>, cycles: seq<Cycle>, i: nat)
    requires i < |TaskTrace(cfg, broker, topic, attempts, cycles)|
    requires TaskTrace(cfg, broker, topic, attempts, cycles)[i].Publish?
    ensures true in attempts
    ensures var t, n := TaskTrace(cfg, broker, topic, attempts, cycles), FailuresBefore(attempts);
      2 * n < i && t[2 * n] == Connected(broker)
  {
    var d := cfg.reconnectIntervalSec;
    var c, n := ConnectPhase(broker, d, attempts), FailuresBefore(attempts);
    TaskTraceAt(cfg, broker, topic, attempts, cycles, i);
    ConnectAt(broker, d, attempts, i);
    assert i >= |c|;
    assert n < |attempts|;
    TaskTraceAt(cfg, broker, topic, attempts, cycles, 2 * n);
    ConnectAt(broker, d, attempts, 2 * n);
  }

  /** In the connect phase a failure is followed by its sleep and then by the
      next attempt, unless the attempts ran out. */
  lemma ConnectFailThenRetryInPhase(broker: GoString, d: int, attempts: seq<bool>, i: nat)
    requires i < |ConnectPhase(broker, d, attempts)|
    requires ConnectPhase(broker, d, attempts)[i].ConnectFail?
    ensures var c := ConnectPhase(broker, d, attempts);
      i + 1 < |c| && c[i + 1] == Sleep(d) &&
      (i + 2 < |c| ==> c[i + 2] == ConnectFail(broker) || c[i + 2] == Connected(broker)) &&
      (i + 2 >= |c| ==> !(true in attempts))
  {
    var n := FailuresBefore(attempts);
    ConnectAt(broker, d, attempts, i);
    assert i < 2 * n && i % 2 == 0;
    var k := i / 2;
    assert i == 2 * k && k + 1 <= n;
    assert (i + 1) % 2 == 1 && (i + 2) % 2 == 0;
    ConnectAt(broker, d, attempts, i + 1);
    ConnectAt(broker, d, attempts, i + 2);
  }

  /** Every failed connect is followed by a sleep of the reconnect interval and,
      if the trace goes on, by another connect attempt: failures never stop the
      retrying. */
  lemma ConnectFailThenRetry(cfg: Config, broker: GoString, topic: GoString,
                             attempts: seq<bool>, cycles: seq<Cycle>, i: nat)
    requires i < |TaskTrace(cfg, broker, topic, attempts, cycles)|
    requires TaskTrace(cfg, broker, topic, attempts, cycles)[i].ConnectFail?
    ensures var t := TaskTrace(cfg, broker, topic, attempts, cycles);
      i + 1 < |t| && t[i + 1] == Sleep(cfg.reconnectIntervalSec) &&
      (i + 2 < |t| ==> t[i + 2] == ConnectFail(broker) || t[i + 2] == Connected(broker))
  {
    var d := cfg.reconnectIntervalSec;
    var c := ConnectPhase(broker, d, attempts);
    TaskTraceAt(cfg, broker, topic, attempts, cycles, i);
    PublishEventAt(cfg, topic, cycles, i - |c|);
    assert i < |c|;
    ConnectFailThenRetryInPhase(broker, d, attempts, i);
    TaskTraceAt(cfg, broker, topic, attempts, cycles, i + 1);
    var t := TaskTrace(cfg, broker, topic, attempts, cycles);
    if i + 2 < |t| {
      TaskTraceAt(cfg, broker, topic, attempts, cycles, i + 2);
    }
  }

  /** There is no cap on retries: after any number n of failures the next
      successful attempt still connects, after exactly n ConnectFail/Sleep pairs. */
  lemma {:induction false} RetryWithoutCap(broker: GoString, d: int, n: nat)
    ensures var t := ConnectPhase(broker, d, seq(n, _ => false) + [true]);
      |t| == 2 * n + 1 && t[2 * n] == Connected(broker) &&
      forall i | 0 <= i < 2 * n :: t[i] == if i % 2 == 0 then ConnectFail(broker) else Sleep(d)
  {
    var a := seq(n, _ => false) + [true];
    assert forall j | 0 <= j < n :: !a[j];
    assert a[n];
    ConnectPhaseShape(broker, d, a);
  }

  /** Each cycle publishes whether or not the previous publish failed: the
      publish outcomes do not change the trace. */
  lemma {:induction false} PublishOutcomeIgnored(cfg: Config, topic: GoString, c1: seq<Cycle>, c2: seq<Cycle>)
    requires |c1| == |c2|
    requires forall k | 0 <= k < |c1| :: c1[k].result == c2[k].result && c1[k].ts == c2[k].ts
    ensures PublishPhase(cfg, topic, c1) == PublishPhase(cfg, topic, c2)
    decreases |c1|
  {
    if |c1| > 0 {
      PublishOutcomeIgnored(cfg, topic, c1[1..], c2[1..]);
    }
  }

  /** The launch phase is Launch(b), Pause(pause) for every entry b in list order:
      one launch per entry and a pause after every launch, the last included. */
  lemma {:induction false} LaunchPhaseShape(brokers: seq<GoString>, pause: int)
    ensures var l := LaunchPhase(brokers, pause);
      |l| == 2 * |brokers| &&
      forall i | 0 <= i < |l| :: l[i] == if i % 2 == 0 then Launch(brokers[i / 2]) else Pause(pause)
    decreases |brokers|
  {
    if |brokers| > 0 {
      LaunchPhaseShape(brokers[1..], pause);
      var l, rest := LaunchPhase(brokers, pause), LaunchPhase(brokers[1..], pause);
      assert l == [Launch(brokers[0]), Pause(pause)] + rest;
      forall i | 2 <= i < |l|
        ensures l[i] == if i % 2 == 0 then Launch(brokers[i / 2]) else Pause(pause)
      {
        assert l[i] == rest[i - 2];
        assert (i - 2) / 2 == i / 2 - 1 && (i - 2) % 2 == i % 2;
        assert brokers[1..][i / 2 - 1] == brokers[i / 2];
      }
    }
  }

  /** Appending one attempt to a run of failures extends the connect phase by
      that attempt's events. */
  lemma {:induction false} ConnectPhaseSnoc(broker: GoString, d: int, a: seq<bool>, ok: bool)
    requires true !in a
    ensures ConnectPhase(broker, d, a + [ok]) ==
      ConnectPhase(broker, d, a) + (if ok then [Connected(broker)] else [ConnectFail(broker), Sleep(d)])
    decreases |a|
  {
    if |a| == 0 {
      assert a + [ok] == [ok];
    } else {
      assert (a + [ok])[1..] == a[1..] + [ok];
      assert true !in a[1..];
      ConnectPhaseSnoc(broker, d, a[1..], ok);
    }
  }

  /** Attempts after the first success are never made. */
  lemma {:induction false} ConnectPhaseStops(broker: GoString, d: int, a: seq<bool>, b: seq<bool>)
    requires true in a
    ensures ConnectPhase(broker, d, a + b) == ConnectPhase(broker, d, a)
    decreases |a|
  {
    if !a[0] {
      assert (a + b)[1..] == a[1..] + b;
      ConnectPhaseStops(broker, d, a[1..], b);
    }
  }

  /** One more cycle extends the publish phase by that cycle's events. */
  lemma {:induction false} PublishPhaseSnoc(cfg: Config, topic: GoString, cycles: seq<Cycle>, c: Cycle)
    ensures PublishPhase(cfg, topic, cycles + [c]) ==
      PublishPhase(cfg, topic, cycles) + PublishCycle(cfg, topic, c)
    decreases |cycles|
  {
    if |cycles| == 0 {
      assert cycles + [c] == [c];
    } else {
      assert (cycles + [c])[1..] == cycles[1..] + [c];
      PublishPhaseSnoc(cfg, topic, cycles[1..], c);
    }
  }

  /** Once connected, one more cycle extends a task's trace by that cycle's events. */
  lemma TaskTraceSnoc(cfg: Config, broker: GoString, topic: GoString,
                      attempts: seq<bool>, cycles: seq<Cycle>, c: Cycle)
    requires true in attempts
    ensures TaskTrace(cfg, broker, topic, attempts, cycles + [c]) ==
      TaskTrace(cfg, broker, topic, attempts, cycles) + PublishCycle(cfg, topic, c)
  {
    PublishPhaseSnoc(cfg, topic, cycles, c);
  }

  /** The publish phase of two runs of cycles is the two phases in sequence. */
  lemma {:induction false} PublishPhaseAppend(cfg: Config, topic: GoString, first: seq<Cycle>, second: seq<Cycle>)
    ensures PublishPhase(cfg, topic, first + second) ==
      PublishPhase(cfg, topic, first) + PublishPhase(cfg, topic, second)
    decreases |first|
  {
    if |first| == 0 {
      assert first + second == second;
    } else {
      assert (first + second)[1..] == first[1..] + second;
      PublishPhaseAppend(cfg, topic, first[1..], second);
    }
  }

  /** Once connected, more cycles extend a task's trace by their publish phase. */
  lemma TaskTraceAppend(cfg: Config, broker: GoString, topic: GoString,
                        attempts: seq<bool>, cycles: seq<Cycle>, more: seq<Cycle>)
    requires true in attempts
    ensures TaskTrace(cfg, broker, topic, attempts, cycles + more) ==
      TaskTrace(cfg, broker, topic, attempts, cycles) + PublishPhase(cfg, topic, more)
  {
    PublishPhaseAppend(cfg, topic, cycles, more);
  }

  /** One more broker extends the launch phase by its Launch and Pause. */
  lemma {:induction false} LaunchPhaseSnoc(brokers: seq<GoString>, b: GoString, pause: int)
    ensures LaunchPhase(brokers + [b], pause) == LaunchPhase(brokers, pause) + [Launch(b), Pause(pause)]
    decreases |brokers|
  {
    if |brokers| == 0 {
      assert brokers + [b] == [b];
    } else {
      assert (brokers + [b])[1..] == brokers[1..] + [b];
      LaunchPhaseSnoc(brokers[1..], b, pause);
    }
  }
}
