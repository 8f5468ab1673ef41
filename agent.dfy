/** The agent itself (`main`): the topic, one task per broker entry launched with
    a startup pause between launches, and each task's connect-retry loop and
    publish loop. Executions are recorded as event traces (module Trace). */
module Agent {
  import opened GoTypes
  import opened Configuration
  import opened Message
  import opened Trace
  import Strings
  import Net
  import Base64

  /** The effective publish topic: the prefix followed by the configured suffix,
      or by the MAC address rule when the suffix is empty. */
  function Topic(cfg: Config, listing: Option<seq<Net.Interface>>): GoString {
    cfg.topicPrefix + (if cfg.topicSuffix != [] then cfg.topicSuffix else Net.MacAddr(listing))
  }

  /** A configured suffix makes the topic independent of the interface listing. */
  lemma TopicIgnoresInterfaces(cfg: Config, l1: Option<seq<Net.Interface>>, l2: Option<seq<Net.Interface>>)
    requires cfg.topicSuffix != []
    ensures Topic(cfg, l1) == Topic(cfg, l2) == cfg.topicPrefix + cfg.topicSuffix
  {
  }

  /** Without a suffix, a failed listing or one with no interface that is up and
      has an address leaves the topic equal to the prefix; otherwise the topic is
      the prefix followed by the first such interface's address, which is not empty. */
  lemma TopicFallback(cfg: Config, listing: Option<seq<Net.Interface>>)
    requires cfg.topicSuffix == []
    ensures Topic(cfg, listing) == cfg.topicPrefix <==>
      listing.None? || forall j | 0 <= j < |listing.value| :: !Net.Eligible(listing.value[j])
  {
    Net.MacAddrEmpty(listing);
    assert |Topic(cfg, listing)| == |cfg.topicPrefix| + |Net.MacAddr(listing)|;
  }

  /** Where a broker session is: Idle (disconnected, not yet tried), Connecting
      (retrying), or Online (connected; from then on the transport's auto-reconnect
      keeps it connected as far as this layer is concerned). */
  datatype SessionState = Idle | Connecting | Online

  /** Extending a prefix of `more` by one element, after a fixed start. */
  lemma PrefixStep<T>(start: seq<T>, more: seq<T>, k: nat)
    requires k < |more|
    ensures (start + more[..k]) + [more[k]] == start + more[..k + 1]
  {
    assert more[..k + 1] == more[..k] + [more[k]];
  }

  /** One broker task: the goroutine started per broker entry. */
  class Task {
    const cfg: Config
    const clientId: GoString
    const topic: GoString
    const broker: GoString
    var state: SessionState
    var trace: seq<Event>
    /** The connect outcomes and cycles consumed so far. */
    ghost var attemptsSeen: seq<bool>
    ghost var cyclesSeen: seq<Cycle>

    /** The trace is `TaskTrace` of what was consumed, and the
        session state agrees with it: publishing is only ever done when connected. */
    ghost predicate Valid()
      reads this
    {
      trace == TaskTrace(cfg, broker, topic, attemptsSeen, cyclesSeen) &&
      (state == Idle ==> attemptsSeen == []) &&
      (state == Online <==> true in attemptsSeen) &&
      (state != Online ==> cyclesSeen == [])
    }

    constructor (cfg: Config, clientId: GoString, topic: GoString, broker: GoString)
      ensures Valid()
      ensures this.cfg == cfg && this.clientId == clientId && this.topic == topic && this.broker == broker
      ensures state == Idle && trace == []
    {
      this.cfg, this.clientId, this.topic, this.broker := cfg, clientId, topic, broker;
      state := Idle;
      trace := [];
      attemptsSeen, cyclesSeen := [], [];
    }

    /** The connect loop: attempts come from `attempts` (true = the connect token
        reported no error) until one succeeds. A failure is logged and followed by a
        sleep of the reconnect interval; there is no cap. If the oracle runs out
        first, the task is still retrying. */
    method ConnectWithRetry(attempts: seq<bool>) returns (used: nat)
      requires Valid() && state == Idle
      modifies this
      ensures Valid()
      ensures used <= |attempts| && attemptsSeen == attempts[..used]
      ensures trace == ConnectPhase(broker, cfg.reconnectIntervalSec, attempts)
      ensures state == (if true in attempts then Online else Connecting)
      ensures cyclesSeen == []
    {
      state := Connecting;
      used := 0;
      while used < |attempts|
        invariant 0 <= used <= |attempts|
        invariant forall j | 0 <= j < used :: !attempts[j]
        invariant attemptsSeen == attempts[..used] && cyclesSeen == []
        invariant trace == ConnectPhase(broker, cfg.reconnectIntervalSec, attemptsSeen)
        invariant state == Connecting
      {
        var ok := attempts[used];
        ConnectPhaseSnoc(broker, cfg.reconnectIntervalSec, attemptsSeen, ok);
        attemptsSeen := attemptsSeen + [ok];
        used := used + 1;
        assert attemptsSeen == attempts[..used];
        if ok {
          trace := trace + [Event.Connected(broker)];
          state := Online;
          assert attempts == attemptsSeen + attempts[used..];
          ConnectPhaseStops(broker, cfg.reconnectIntervalSec, attemptsSeen, attempts[used..]);
          assert attemptsSeen[used - 1];
          return;
        }
        trace := trace + [ConnectFail(broker), Sleep(cfg.reconnectIntervalSec)];
      }
      assert attempts == attemptsSeen;
    }

    /** One publish cycle: run the command (its result is the cycle's input),
        append the error text to stdout, base64-encode if configured, build the
        envelope, publish it, then sleep the send interval. A failed publish is
        only logged. */
    method PublishOnce(c: Cycle)
      requires Valid() && state == Online
      modifies this`trace, this`cyclesSeen
      ensures Valid()
      ensures cyclesSeen == old(cyclesSeen) + [c]
      ensures trace == old(trace) + PublishCycle(cfg, topic, c)
    {
      var cmdOutput := c.result.stdout;
      if c.result.err.Some? {
        cmdOutput := cmdOutput + c.result.err.value;
      }
      if cfg.base64Encode {
        cmdOutput := Base64.Encode(cmdOutput);
      }
      var msg := Envelope(cmdOutput, cfg.command, c.ts);
      assert cmdOutput == EncodeOutput(RawOutput(c.result), cfg.base64Encode);
      trace := trace + [Publish(topic, QosByte(cfg.qos), cfg.retained, msg)];
      trace := trace + [Sleep(cfg.sendIntervalSec)];
      TaskTraceSnoc(cfg, broker, topic, attemptsSeen, cyclesSeen, c);
      cyclesSeen := cyclesSeen + [c];
    }

    /** The publish loop over the given cycles: every cycle publishes, whether or
        not the previous publish failed. */
    method PublishCycles(cycles: seq<Cycle>)
      requires Valid() && state == Online
      modifies this`trace, this`cyclesSeen
      ensures Valid()
      ensures cyclesSeen == old(cyclesSeen) + cycles
      ensures trace == old(trace) + PublishPhase(cfg, topic, cycles)
    {
      ghost var trace0, seen0 := trace, cyclesSeen;
      assert trace0 == TaskTrace(cfg, broker, topic, attemptsSeen, seen0);
      for k := 0 to |cycles|
        invariant Valid()
        invariant cyclesSeen == seen0 + cycles[..k]
      {
        PublishOnce(cycles[k]);
        PrefixStep(seen0, cycles, k);
      }
      assert cycles[..|cycles|] == cycles;
      assert trace == TaskTrace(cfg, broker, topic, attemptsSeen, seen0 + cycles);
      TaskTraceAppend(cfg, broker, topic, attemptsSeen, seen0, cycles);
    }

    /** The whole goroutine over finite oracles: connect, then publish. */
    method Run(attempts: seq<bool>, cycles: seq<Cycle>)
      requires Valid() && state == Idle
      modifies this
      ensures Valid()
      ensures trace == TaskTrace(cfg, broker, topic, attempts, cycles)
      ensures state == (if true in attempts then Online else Connecting)
    {
      var used := ConnectWithRetry(attempts);
      if state == Online {
        PublishCycles(cycles);
      }
    }
  }

  /** t is a task just launched for broker entry b with the shared configuration,
      client identity and topic, and not yet run. */
  ghost predicate LaunchedFor(t: Task, cfg: Config, clientId: GoString, topic: GoString, b: GoString)
    reads t
  {
    t.Valid() && t.state == Idle && t.trace == [] &&
    t.broker == b && t.topic == topic && t.clientId == clientId && t.cfg == cfg
  }

  /** The supervisor (`main` after reading the configuration). */
  class Supervisor {
    const cfg: Config
    const clientId: GoString
    var topic: GoString
    var brokers: seq<GoString>
    var tasks: seq<Task>
    var trace: seq<Event>

    constructor (cfg: Config, clientId: GoString)
      ensures this.cfg == cfg && this.clientId == clientId
      ensures topic == [] && brokers == [] && tasks == [] && trace == []
    {
      this.cfg, this.clientId := cfg, clientId;
      topic, brokers, tasks, trace := [], [], [], [];
    }

    /** Compute the topic, split the broker list and launch one task per entry in
        list order, pausing the startup interval after every launch. */
    method Start(listing: Option<seq<Net.Interface>>)
      modifies this
      ensures topic == Topic(cfg, listing)
      ensures brokers == Strings.Split(cfg.brokers)
      ensures trace == LaunchPhase(brokers, cfg.startupPause)
      ensures |tasks| == |brokers|
      ensures forall i | 0 <= i < |tasks| ::
        fresh(tasks[i]) && LaunchedFor(tasks[i], cfg, clientId, topic, brokers[i])
      ensures forall i, j | 0 <= i < j < |tasks| :: tasks[i] != tasks[j]
    {
      var suffix := cfg.topicSuffix;
      if suffix == [] {
        suffix := Net.GetMacAddr(listing);
      }
      var topicPub := cfg.topicPrefix + suffix;
      var entries := Strings.Split(cfg.brokers);
      var launched, events := LaunchAll(entries, topicPub);
      topic, brokers, tasks, trace := topicPub, entries, launched, events;
    }

    /** The launch loop: a new task per entry, each launch followed by the pause. */
    method LaunchAll(entries: seq<GoString>, topicPub: GoString) returns (launched: seq<Task>, events: seq<Event>)
      ensures events == LaunchPhase(entries, cfg.startupPause)
      ensures |launched| == |entries|
      ensures forall i | 0 <= i < |launched| ::
        fresh(launched[i]) && LaunchedFor(launched[i], cfg, clientId, topicPub, entries[i])
      ensures forall i, j | 0 <= i < j < |launched| :: launched[i] != launched[j]
    {
      launched, events := [], [];
      for i := 0 to |entries|
        invariant |launched| == i && events == LaunchPhase(entries[..i], cfg.startupPause)
        invariant forall k | 0 <= k < i ::
          fresh(launched[k]) && LaunchedFor(launched[k], cfg, clientId, topicPub, entries[k])
        invariant forall k, m | 0 <= k < m < i :: launched[k] != launched[m]
      {
        var t := new Task(cfg, clientId, topicPub, entries[i]);
        LaunchPhaseSnoc(entries[..i], entries[i], cfg.startupPause);
        assert entries[..i + 1] == entries[..i] + [entries[i]];
        launched := launched + [t];
        events := events + [Launch(entries[i]), Pause(cfg.startupPause)];
      }
      assert entries[..|entries|] == entries;
    }

    /** Run task i over its own oracles. Only that task changes: tasks share no
        mutable state, so one broker's failures never affect another's. */
    method RunTask(i: nat, attempts: seq<bool>, cycles: seq<Cycle>)
      requires i < |tasks| && tasks[i].Valid() && tasks[i].state == Idle
      modifies tasks[i]
      ensures tasks[i].Valid()
      ensures tasks[i].trace == TaskTrace(tasks[i].cfg, tasks[i].broker, tasks[i].topic, attempts, cycles)
      ensures tasks[i].state == (if true in attempts then Online else Connecting)
      ensures forall j | 0 <= j < |tasks| && tasks[j] != tasks[i] :: unchanged(tasks[j])
    {
      tasks[i].Run(attempts, cycles);
    }
  }

  /** The interleaving the supervisor produces for n entries: n launches and n
      pauses, alternating, the entries launched in list order, duplicates and
      empty entries included. */
  lemma LaunchesMatchEntries(cfg: Config)
    ensures var brokers := Strings.Split(cfg.brokers);
      var l := LaunchPhase(brokers, cfg.startupPause);
      |brokers| == Strings.CountByte(cfg.brokers, Strings.Comma) + 1 &&
      |l| == 2 * |brokers| &&
      forall i | 0 <= i < |l| ::
        l[i] == if i % 2 == 0 then Launch(brokers[i / 2]) else Pause(cfg.startupPause)
  {
    Strings.SplitCount(cfg.brokers);
    LaunchPhaseShape(Strings.Split(cfg.brokers), cfg.startupPause);
  }
}
