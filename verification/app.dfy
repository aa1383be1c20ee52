/** The orchestrator of `cmd/ups-mqtt`: startup connection with exponential
    backoff, the poll-compute-publish cycle (`doPoll`), the tick loop and the
    shutdown sequence of `main`.

    Timers, signals and the `select` between them are replaced by the order
    of events they produce: a sequence of dial outcomes and, for each backoff
    wait, whether cancellation arrived first; a sequence of tick inputs
    followed by cancellation. Log output is not modelled. */
module App {
  import opened Wrappers
  import Collections
  import Metrics
  import Nut
  import Publisher
  import Config

  // ---------------------------------------------------------------------------
  // Backoff
  // ---------------------------------------------------------------------------

  /** The first wait after a failed dial: one second. */
  const InitialBackoff: int := Config.Second

  /** The cap on a wait: sixty seconds. */
  const MaxBackoff: int := 60 * Config.Second

  /** Two to the power `k`. */
  function Pow2(k: nat): (p: nat)
    ensures p >= 1
  {
    if k == 0 then 1 else 2 * Pow2(k - 1)
  }

  /** One step of `connectNUT`'s delay: double it, but not beyond the cap. */
  function NextBackoff(b: int): (n: int)
    requires 0 < b <= MaxBackoff
    ensures b < n <= MaxBackoff || n == b == MaxBackoff
  {
    if b * 2 > MaxBackoff then MaxBackoff else b * 2
  }

  /** The wait after failed dial number `k` (from 0), as the loop computes it. */
  function BackoffAfter(k: nat): (b: int)
    ensures 0 < b <= MaxBackoff
  {
    if k == 0 then InitialBackoff else NextBackoff(BackoffAfter(k - 1))
  }

  /** The k-th wait is `min(2^k, 60)` seconds: 1, 2, 4, 8, 16, 32, 60, 60, … */
  lemma {:induction false} BackoffClosedForm(k: nat)
    ensures BackoffAfter(k) == Nut.Min(Pow2(k), 60) * Config.Second
  {
    if k > 0 {
      BackoffClosedForm(k - 1);
    }
  }

  /** The waits never decrease and never exceed sixty seconds. */
  lemma BackoffMonotone(j: nat, k: nat)
    requires j <= k
    ensures BackoffAfter(j) <= BackoffAfter(k) <= MaxBackoff
    decreases k - j
  {
    if j < k {
      BackoffMonotone(j, k - 1);
    }
  }

  /** Once the cap is reached (from the seventh wait on) it stays. */
  lemma BackoffCapped(k: nat)
    requires k >= 6
    ensures BackoffAfter(k) == MaxBackoff
  {
    BackoffClosedForm(k);
    PowGrows(6, k);
    assert Pow2(6) == 64;
  }

  /** The schedule the loop's log shows: 1s, 2s, 4s, 8s, 16s, 32s, then 60s. */
  lemma BackoffSchedule()
    ensures BackoffAfter(0) == 1 * Config.Second && BackoffAfter(1) == 2 * Config.Second
    ensures BackoffAfter(2) == 4 * Config.Second && BackoffAfter(3) == 8 * Config.Second
    ensures BackoffAfter(4) == 16 * Config.Second && BackoffAfter(5) == 32 * Config.Second
    ensures BackoffAfter(6) == 60 * Config.Second && BackoffAfter(7) == 60 * Config.Second
  {
    BackoffClosedForm(5);
    BackoffClosedForm(6);
    BackoffClosedForm(7);
  }

  lemma {:induction false} PowGrows(j: nat, k: nat)
    requires j <= k
    ensures Pow2(j) <= Pow2(k)
    decreases k - j
  {
    if j < k {
      PowGrows(j, k - 1);
    }
  }

  // ---------------------------------------------------------------------------
  // connectNUT
  // ---------------------------------------------------------------------------

  /** How the startup loop ended, with the waits it began in order. A loop
      that is still dialling when the modelled outcomes run out is reported
      as such: the program itself would keep trying. */
  datatype Startup =
    | Connected(client: Nut.Client, waits: seq<int>)
    | Interrupted(waits: seq<int>)
    | StillDialling(waits: seq<int>)

  /** Whether cancellation wins the wait at position `i`. */
  predicate Cancelled(cancels: seq<bool>, i: nat) {
    i < |cancels| && cancels[i]
  }

  /** The client `nut.NewClient` gives for one dial outcome. */
  function Dial(cfg: Config.NutConfig, d: Nut.DialOutcome): Result<Nut.Client, Nut.PollError> {
    Nut.NewClient(cfg.host, cfg.port, cfg.username, cfg.password, cfg.upsName, d)
  }

  /** The loop of `connectNUT` from attempt `k` on: the waits follow the
      backoff schedule, at most one per dial (`ConnectFromDials` and
      `ConnectFromCancels` say which dials and verdicts led where). */
  function ConnectFrom(cfg: Config.NutConfig, dials: seq<Nut.DialOutcome>, cancels: seq<bool>, k: nat)
    : (r: Startup)
    ensures forall i :: 0 <= i < |r.waits| ==> r.waits[i] == BackoffAfter(k + i)
    ensures |r.waits| <= |dials|
    decreases |dials|
  {
    if dials == [] then StillDialling([])
    else match Dial(cfg, dials[0])
      case Ok(c) => Connected(c, [])
      case Err(_) =>
        if Cancelled(cancels, 0) then Interrupted([BackoffAfter(k)])
        else
          var rest := ConnectFrom(cfg, dials[1..], Later(cancels), k + 1);
          var waits := [BackoffAfter(k)] + rest.waits;
          assert forall i :: 1 <= i < |waits| ==> waits[i] == rest.waits[i - 1];
          match rest
          case Connected(c, _) => Connected(c, waits)
          case Interrupted(_) => Interrupted(waits)
          case StillDialling(_) => StillDialling(waits)
  }

  /** The cancellation verdicts after the first wait's. */
  function Later(cancels: seq<bool>): seq<bool> {
    if cancels == [] then [] else cancels[1..]
  }

  /** Every wait follows a failed dial; start-up connects with the dial right
      after the last wait, and gives up only once every dial has failed. */
  lemma {:induction false} ConnectFromDials(cfg: Config.NutConfig, dials: seq<Nut.DialOutcome>,
                                            cancels: seq<bool>, k: nat)
    ensures var r := ConnectFrom(cfg, dials, cancels, k);
      && (forall i :: 0 <= i < |r.waits| ==> Dial(cfg, dials[i]).Err?)
      && (r.Connected? ==> |r.waits| < |dials| && Dial(cfg, dials[|r.waits|]) == Ok(r.client))
      && (r.StillDialling? ==> |r.waits| == |dials|)
    decreases |dials|
  {
    if dials != [] && Dial(cfg, dials[0]).Err? && !Cancelled(cancels, 0) {
      ConnectFromDials(cfg, dials[1..], Later(cancels), k + 1);
      var rest := ConnectFrom(cfg, dials[1..], Later(cancels), k + 1);
      forall i | 1 <= i < |rest.waits| + 1 ensures Dial(cfg, dials[i]).Err? {
        assert dials[i] == dials[1..][i - 1];
      }
      if rest.Connected? {
        assert dials[|rest.waits| + 1] == dials[1..][|rest.waits|];
      }
    }
  }

  /** No wait before the last was cancelled; start-up is interrupted exactly
      by a cancelled last wait, and otherwise no wait was cancelled at all. */
  lemma {:induction false} ConnectFromCancels(cfg: Config.NutConfig, dials: seq<Nut.DialOutcome>,
                                              cancels: seq<bool>, k: nat)
    ensures var r := ConnectFrom(cfg, dials, cancels, k);
      && (forall i :: 0 <= i < |r.waits| - 1 ==> !Cancelled(cancels, i))
      && (r.Interrupted? ==> |r.waits| > 0 && Cancelled(cancels, |r.waits| - 1))
      && (!r.Interrupted? ==> forall i :: 0 <= i < |r.waits| ==> !Cancelled(cancels, i))
    decreases |dials|
  {
    if dials != [] && Dial(cfg, dials[0]).Err? && !Cancelled(cancels, 0) {
      ConnectFromCancels(cfg, dials[1..], Later(cancels), k + 1);
      CancelledShift(cancels, Later(cancels));
    }
  }

  /** Dropping the first wait's verdict shifts the others down by one. */
  lemma CancelledShift(cancels: seq<bool>, later: seq<bool>)
    requires later == Later(cancels)
    ensures forall i: nat :: 1 <= i ==> Cancelled(cancels, i) == Cancelled(later, i - 1)
  {
  }

  /** `connectNUT`: the first successful dial wins; every failure is followed
      by a wait that cancellation can cut short. */
  function ConnectNut(cfg: Config.NutConfig, dials: seq<Nut.DialOutcome>, cancels: seq<bool>): (r: Startup)
    ensures forall i :: 0 <= i < |r.waits| ==> r.waits[i] == BackoffAfter(i)
    ensures r.Connected? ==> r.client.conn.Some? && !r.client.stale && r.client.upsName == cfg.upsName
  {
    ConnectFromDials(cfg, dials, cancels, 0);
    ConnectFrom(cfg, dials, cancels, 0)
  }

  // ---------------------------------------------------------------------------
  // doPoll
  // ---------------------------------------------------------------------------

  /** Why one cycle failed. */
  datatype CycleError = PollFailed(pollError: Nut.PollError) | PublishFailed(cause: string)

  /** What the world supplies to one cycle: go.nut's answers, the wall-clock
      time stamped on the state document, and the two map iteration orders
      (any sequence; see `Collections.Arrange`). */
  datatype CycleInput = CycleInput(
    outcome: Nut.PollOutcome,
    now: string,
    varHint: seq<string>,
    metricHint: seq<string>)

  /** The state after one cycle. */
  datatype Cycle = Cycle(poller: Nut.Poller, sink: Publisher.Sink, err: Option<CycleError>)

  /** The routing parameters `doPoll` takes from the configuration. */
  function PublishConfigOf(cfg: Config.Config): (pc: Publisher.PublishConfig)
    ensures pc.prefix == cfg.mqtt.topicPrefix && pc.upsName == cfg.nut.upsName
    ensures pc.retained == cfg.mqtt.retained
  {
    Publisher.PublishConfig(cfg.mqtt.topicPrefix, cfg.nut.upsName, cfg.mqtt.retained)
  }

  /** The names of a snapshot, in snapshot order. */
  function Names(vars: seq<Nut.Variable>): (names: seq<string>)
    ensures Collections.Elements(names) == Nut.VarsToMap(vars).Keys
  {
    var names := Collections.MapSeq((v: Nut.Variable) => v.name, vars);
    assert forall n :: n in names <==> n in Nut.NameSet(vars) by {
      forall n ensures n in names <==> n in Nut.NameSet(vars) {
        if n in names {
          var i :| 0 <= i < |names| && names[i] == n;
          assert vars[i].name == n;
        }
        if n in Nut.NameSet(vars) {
          var i :| 0 <= i < |vars| && vars[i].name == n;
          assert names[i] == n;
        }
      }
    }
    names
  }

  /** `doPoll`: poll; on success convert, compute and publish everything. */
  function DoPoll(p: Nut.Poller, s: Publisher.Sink, cfg: Config.Config, input: CycleInput,
                  parse: Metrics.FloatParser, format: Metrics.FloatFormatter): (r: Cycle)
    requires Nut.PollerReady(p)
    ensures Nut.PollerReady(r.poller)
    ensures r.poller == Nut.PollerPoll(p, input.outcome).0
    ensures Nut.PollerPoll(p, input.outcome).1.Err? ==>
      r.sink == s && r.err == Some(PollFailed(Nut.PollerPoll(p, input.outcome).1.error))
  {
    var (p1, polled) := Nut.PollerPoll(p, input.outcome);
    match polled
    case Err(e) => Cycle(p1, s, Some(PollFailed(e)))
    case Ok(vars) =>
      var varMap := Nut.VarsToMap(vars);
      var m := Metrics.Compute(varMap, parse);
      var varOrder := Collections.Arrange(input.varHint, Names(vars));
      var metricOrder := Collections.Arrange(input.metricHint, Metrics.MetricNames);
      var d := Publisher.PublishAll(varMap, m, PublishConfigOf(cfg), s, varOrder, metricOrder, input.now, format);
      Cycle(p1, d.sink, if d.err.Some? then Some(PublishFailed(d.err.value)) else None)
  }

  /** The messages one successful poll of `vars` sends, for the orders the
      cycle input picks. */
  function CycleOutbox(vars: seq<Nut.Variable>, cfg: Config.Config, input: CycleInput,
                       parse: Metrics.FloatParser, format: Metrics.FloatFormatter): (out: seq<Publisher.Message>)
    ensures |out| == |Nut.VarsToMap(vars)| + 8
    ensures out[|out| - 1] == Publisher.StateMessageFor(Nut.VarsToMap(vars),
      Metrics.Compute(Nut.VarsToMap(vars), parse), PublishConfigOf(cfg), input.now)
    ensures forall i :: 0 <= i < |out| ==> out[i].retained == cfg.mqtt.retained
  {
    var varMap := Nut.VarsToMap(vars);
    var m := Metrics.Compute(varMap, parse);
    var t := Metrics.AsTopicMap(m, format);
    Metrics.MetricNamesDistinct();
    var varOrder := Collections.Arrange(input.varHint, Names(vars));
    var metricOrder := Collections.Arrange(input.metricHint, Metrics.MetricNames);
    Collections.EnumerationSize(varOrder, varMap.Keys);
    Collections.EnumerationSize(metricOrder, Collections.Elements(Metrics.MetricNames));
    Publisher.OutboxRetained(varMap, m, t, PublishConfigOf(cfg), varOrder, metricOrder, input.now);
    Publisher.Outbox(varMap, m, t, PublishConfigOf(cfg), varOrder, metricOrder, input.now)
  }

  /** After a successful poll the cycle publishes exactly `CycleOutbox` in
      order and reports the publisher's first failure, if any. */
  lemma DoPollSends(p: Nut.Poller, s: Publisher.Sink, cfg: Config.Config, input: CycleInput,
                    parse: Metrics.FloatParser, format: Metrics.FloatFormatter)
    requires Nut.PollerReady(p) && Nut.PollerPoll(p, input.outcome).1.Ok?
    ensures var vars := Nut.PollerPoll(p, input.outcome).1.value;
      var d := Publisher.PublishSeq(s, CycleOutbox(vars, cfg, input, parse, format));
      var r := DoPoll(p, s, cfg, input, parse, format);
      && r.sink == d.sink
      && r.err == (if d.err.Some? then Some(PublishFailed(d.err.value)) else None)
  {
  }

  /** A successful poll into a fake without an injected error records the
      whole message set, state document last, after what was there. */
  lemma DoPollIntoFake(p: Nut.Poller, f: Publisher.FakePublisher, cfg: Config.Config, input: CycleInput,
                       parse: Metrics.FloatParser, format: Metrics.FloatFormatter)
    requires Nut.PollerReady(p) && f.publishError.None?
    requires Nut.PollerPoll(p, input.outcome).1.Ok?
    ensures var vars := Nut.PollerPoll(p, input.outcome).1.value;
      var r := DoPoll(p, Publisher.FakeSink(f), cfg, input, parse, format);
      && r.err.None?
      && r.sink == Publisher.FakeSink(f.(messages := f.messages + CycleOutbox(vars, cfg, input, parse, format)))
  {
    var vars := Nut.PollerPoll(p, input.outcome).1.value;
    DoPollSends(p, Publisher.FakeSink(f), cfg, input, parse, format);
    Publisher.PublishSeqFake(f, CycleOutbox(vars, cfg, input, parse, format));
  }

  /** A fake that rejects every publish stops the cycle at its first
      message: the cycle reports a publish failure and records nothing. */
  lemma DoPollPublishFails(p: Nut.Poller, f: Publisher.FakePublisher, cfg: Config.Config, input: CycleInput,
                           parse: Metrics.FloatParser, format: Metrics.FloatFormatter)
    requires Nut.PollerReady(p) && f.publishError.Some?
    requires Nut.PollerPoll(p, input.outcome).1.Ok?
    ensures DoPoll(p, Publisher.FakeSink(f), cfg, input, parse, format).sink == Publisher.FakeSink(f)
    ensures DoPoll(p, Publisher.FakeSink(f), cfg, input, parse, format).err ==
      Some(PublishFailed(f.publishError.value))
  {
    var vars := Nut.PollerPoll(p, input.outcome).1.value;
    DoPollSends(p, Publisher.FakeSink(f), cfg, input, parse, format);
    Publisher.PublishSeqFakeFails(f, CycleOutbox(vars, cfg, input, parse, format));
  }

  /** A failed poll publishes nothing. */
  lemma DoPollFailureSilent(p: Nut.Poller, s: Publisher.Sink, cfg: Config.Config, input: CycleInput,
                            parse: Metrics.FloatParser, format: Metrics.FloatFormatter)
    requires Nut.PollerReady(p) && Nut.PollerPoll(p, input.outcome).1.Err?
    ensures DoPoll(p, s, cfg, input, parse, format).sink == s
    ensures DoPoll(p, s, cfg, input, parse, format).err.Some?
  {
  }

  // ---------------------------------------------------------------------------
  // The tick loop and shutdown
  // ---------------------------------------------------------------------------

  /** The tick loop: one cycle per tick until cancellation; a failed cycle is
      only reported, and the loop goes on. */
  function Ticks(p: Nut.Poller, s: Publisher.Sink, cfg: Config.Config, ticks: seq<CycleInput>,
                 parse: Metrics.FloatParser, format: Metrics.FloatFormatter)
    : (r: (Nut.Poller, Publisher.Sink, seq<Option<CycleError>>))
    requires Nut.PollerReady(p)
    ensures Nut.PollerReady(r.0)
    ensures |r.2| == |ticks|
    decreases |ticks|
  {
    if ticks == [] then (p, s, [])
    else
      var c := DoPoll(p, s, cfg, ticks[0], parse, format);
      var (p', s', errs) := Ticks(c.poller, c.sink, cfg, ticks[1..], parse, format);
      (p', s', [c.err] + errs)
  }

  /** The offline announcement `main` sends last: on the state topic, always
      retained, whatever the configured retain flag. */
  function OfflineMessage(cfg: Config.Config, now: string): (msg: Publisher.Message)
    ensures msg.retained && msg.payload == Publisher.FormatOffline(now)
    ensures msg.topic == Publisher.StateTopic(cfg.mqtt.topicPrefix, cfg.nut.upsName)
  {
    Publisher.Message(Publisher.StateTopic(cfg.mqtt.topicPrefix, cfg.nut.upsName),
                      Publisher.FormatOffline(now), true)
  }

  /** How the serving phase ended. */
  datatype Shutdown = Shutdown(
    poller: Nut.Poller,
    sink: Publisher.Sink,
    tickErrors: seq<Option<CycleError>>,
    finalError: Option<CycleError>,
    offlineError: Option<string>)

  /** From the first tick to the exit of `main`: the tick loop, then one
      final cycle, then the offline announcement whatever that cycle did,
      then the deferred closes (NUT client first, then the publisher). */
  function Serve(p: Nut.Poller, s: Publisher.Sink, cfg: Config.Config, ticks: seq<CycleInput>,
                 final: CycleInput, offNow: string, disconnect: Option<string>,
                 parse: Metrics.FloatParser, format: Metrics.FloatFormatter): (r: Shutdown)
    requires Nut.PollerReady(p)
    ensures |r.tickErrors| == |ticks|
    ensures r.poller.NutClient? ==> r.poller.client.conn.None?
    ensures r.poller.Fake? ==> r.poller.fake.closed
    ensures r.sink.FakeSink? ==> r.sink.fake.closed
    ensures r.sink.Broker? ==> r.sink.closed
  {
    var (p1, s1, errs) := Ticks(p, s, cfg, ticks, parse, format);
    var last := DoPoll(p1, s1, cfg, final, parse, format);
    var (s2, offErr) := Publisher.Publish(last.sink, OfflineMessage(cfg, offNow));
    var (p3, _) := Nut.PollerClose(last.poller, disconnect);
    var (s3, _) := Publisher.Close(s2);
    Shutdown(p3, s3, errs, last.err, offErr)
  }

  /** Against the broker the offline announcement is the last message tried,
      after everything the tick loop and the final cycle tried; when the
      final cycle succeeded its whole message set, state document last, comes
      immediately before it. The sink is closed at the end and its last will
      is the one registered at connect time. */
  lemma ShutdownOrder(p: Nut.Poller, s: Publisher.Sink, cfg: Config.Config, ticks: seq<CycleInput>,
                      final: CycleInput, offNow: string, disconnect: Option<string>,
                      parse: Metrics.FloatParser, format: Metrics.FloatFormatter)
    requires Nut.PollerReady(p) && s.Broker?
    ensures var loop := Ticks(p, s, cfg, ticks, parse, format);
      var r := Serve(p, s, cfg, ticks, final, offNow, disconnect, parse, format);
      && loop.1.Broker? && r.sink.Broker?
      && r.sink.closed && r.sink.will == s.will
      && Extends(s.attempted, loop.1.attempted)
      && Extends(loop.1.attempted, r.sink.attempted)
      && |r.sink.attempted| > 0
      && r.sink.attempted[|r.sink.attempted| - 1] == OfflineMessage(cfg, offNow)
      && (r.finalError.None? ==>
            && Nut.PollerPoll(loop.0, final.outcome).1.Ok?
            && r.sink.attempted == loop.1.attempted +
                 CycleOutbox(Nut.PollerPoll(loop.0, final.outcome).1.value, cfg, final, parse, format) +
                 [OfflineMessage(cfg, offNow)])
  {
    var loop := Ticks(p, s, cfg, ticks, parse, format);
    TicksKeepBroker(p, s, cfg, ticks, parse, format);
    var last := DoPoll(loop.0, loop.1, cfg, final, parse, format);
    DoPollBroker(loop.0, loop.1, cfg, final, parse, format);
    var off := Publisher.Publish(last.sink, OfflineMessage(cfg, offNow));
    AppendExtends(last.sink.attempted, [OfflineMessage(cfg, offNow)]);
    ExtendsTransitive(loop.1.attempted, last.sink.attempted, off.0.attempted);
  }

  /** Against the broker serving ends with the offline announcement and a
      closed session whose last will is unchanged. */
  lemma ServeEndsOffline(p: Nut.Poller, s: Publisher.Sink, cfg: Config.Config, ticks: seq<CycleInput>,
                         final: CycleInput, offNow: string, disconnect: Option<string>,
                         parse: Metrics.FloatParser, format: Metrics.FloatFormatter)
    requires Nut.PollerReady(p) && s.Broker?
    ensures var r := Serve(p, s, cfg, ticks, final, offNow, disconnect, parse, format);
      && r.sink.Broker? && r.sink.closed && r.sink.will == s.will
      && |r.sink.attempted| > 0
      && r.sink.attempted[|r.sink.attempted| - 1] == OfflineMessage(cfg, offNow)
  {
    ShutdownOrder(p, s, cfg, ticks, final, offNow, disconnect, parse, format);
  }

  /** `b` is `a` with zero or more messages appended. */
  predicate Extends(a: seq<Publisher.Message>, b: seq<Publisher.Message>) {
    |a| <= |b| && b[..|a|] == a
  }

  lemma ExtendsTransitive(a: seq<Publisher.Message>, b: seq<Publisher.Message>, c: seq<Publisher.Message>)
    requires Extends(a, b) && Extends(b, c)
    ensures Extends(a, c)
  {
    assert c[..|a|] == c[..|b|][..|a|];
  }

  /** Against the broker a cycle only ever appends to the attempted
      messages, and a successful one appends its whole message set. */
  lemma DoPollBroker(p: Nut.Poller, s: Publisher.Sink, cfg: Config.Config, input: CycleInput,
                     parse: Metrics.FloatParser, format: Metrics.FloatFormatter)
    requires Nut.PollerReady(p) && s.Broker?
    ensures var r := DoPoll(p, s, cfg, input, parse, format);
      && r.sink.Broker? && r.sink.will == s.will && r.sink.closed == s.closed
      && Extends(s.attempted, r.sink.attempted)
      && (r.err.None? ==>
            && Nut.PollerPoll(p, input.outcome).1.Ok?
            && r.sink.attempted == s.attempted +
                 CycleOutbox(Nut.PollerPoll(p, input.outcome).1.value, cfg, input, parse, format))
  {
    var (p1, polled) := Nut.PollerPoll(p, input.outcome);
    if polled.Ok? {
      var vars := polled.value;
      DoPollSends(p, s, cfg, input, parse, format);
      var out := CycleOutbox(vars, cfg, input, parse, format);
      Publisher.PublishSeqBroker(s, out);
      var d := Publisher.PublishSeq(s, out);
      AppendExtends(s.attempted, out[..d.attempts]);
      if d.err.None? {
        TakeWhole(out, d.attempts);
      }
    }
  }

  lemma AppendExtends(a: seq<Publisher.Message>, b: seq<Publisher.Message>)
    ensures Extends(a, a + b)
  {
    assert (a + b)[..|a|] == a;
  }

  lemma TakeWhole(xs: seq<Publisher.Message>, n: nat)
    requires n == |xs|
    ensures xs[..n] == xs
  {
  }

  /** Against the broker the tick loop only ever appends. */
  lemma {:induction false} TicksKeepBroker(p: Nut.Poller, s: Publisher.Sink, cfg: Config.Config,
                                           ticks: seq<CycleInput>, parse: Metrics.FloatParser,
                                           format: Metrics.FloatFormatter)
    requires Nut.PollerReady(p) && s.Broker?
    ensures var r := Ticks(p, s, cfg, ticks, parse, format);
      r.1.Broker? && r.1.will == s.will && r.1.closed == s.closed && Extends(s.attempted, r.1.attempted)
    decreases |ticks|
  {
    if ticks != [] {
      var c := DoPoll(p, s, cfg, ticks[0], parse, format);
      DoPollBroker(p, s, cfg, ticks[0], parse, format);
      TicksKeepBroker(c.poller, c.sink, cfg, ticks[1..], parse, format);
      var r := Ticks(c.poller, c.sink, cfg, ticks[1..], parse, format);
      ExtendsTransitive(s.attempted, c.sink.attempted, r.1.attempted);
    }
  }

  /** The tick loop over `a + b` is the loop over `a` followed by the loop
      over `b` from the state `a` left behind; the per-tick outcomes are
      concatenated in order. */
  lemma {:induction false} TicksSplit(p: Nut.Poller, s: Publisher.Sink, cfg: Config.Config,
                                      a: seq<CycleInput>, b: seq<CycleInput>,
                                      parse: Metrics.FloatParser, format: Metrics.FloatFormatter)
    requires Nut.PollerReady(p)
    ensures var ra := Ticks(p, s, cfg, a, parse, format);
      var rb := Ticks(ra.0, ra.1, cfg, b, parse, format);
      Ticks(p, s, cfg, a + b, parse, format) == (rb.0, rb.1, ra.2 + rb.2)
    decreases |a|
  {
    if a == [] {
      var rb := Ticks(p, s, cfg, b, parse, format);
      assert a + b == b && [] + rb.2 == rb.2;
    } else {
      var c := DoPoll(p, s, cfg, a[0], parse, format);
      TicksSplit(c.poller, c.sink, cfg, a[1..], b, parse, format);
      var ra := Ticks(c.poller, c.sink, cfg, a[1..], parse, format);
      var rb := Ticks(ra.0, ra.1, cfg, b, parse, format);
      TicksCons(p, s, cfg, a, parse, format);
      TicksCons(p, s, cfg, a + b, parse, format);
      Collections.HeadTail(a, b);
      Collections.ConcatAssoc([c.err], ra.2, rb.2);
    }
  }

  /** A single tick is a single cycle. */
  lemma TicksOne(p: Nut.Poller, s: Publisher.Sink, cfg: Config.Config, t: CycleInput,
                 parse: Metrics.FloatParser, format: Metrics.FloatFormatter)
    requires Nut.PollerReady(p)
    ensures var c := DoPoll(p, s, cfg, t, parse, format);
      Ticks(p, s, cfg, [t], parse, format) == (c.poller, c.sink, [c.err])
  {
    var c := DoPoll(p, s, cfg, t, parse, format);
    TicksCons(p, s, cfg, [t], parse, format);
    assert [t][1..] == [] && [c.err] + [] == [c.err];
  }

  /** One unfolding of the tick loop. */
  lemma TicksCons(p: Nut.Poller, s: Publisher.Sink, cfg: Config.Config, ticks: seq<CycleInput>,
                  parse: Metrics.FloatParser, format: Metrics.FloatFormatter)
    requires Nut.PollerReady(p) && ticks != []
    ensures var c := DoPoll(p, s, cfg, ticks[0], parse, format);
      var r := Ticks(c.poller, c.sink, cfg, ticks[1..], parse, format);
      Ticks(p, s, cfg, ticks, parse, format) == (r.0, r.1, [c.err] + r.2)
  {
  }

  /** Tick `i` runs one `doPoll` on the poller and publisher the ticks before
      it left, and its reported outcome is that cycle's error. */
  lemma TicksAt(p: Nut.Poller, s: Publisher.Sink, cfg: Config.Config, ticks: seq<CycleInput>, i: nat,
                parse: Metrics.FloatParser, format: Metrics.FloatFormatter)
    requires Nut.PollerReady(p) && i < |ticks|
    ensures var pre := Ticks(p, s, cfg, ticks[..i], parse, format);
      var c := DoPoll(pre.0, pre.1, cfg, ticks[i], parse, format);
      && Ticks(p, s, cfg, ticks, parse, format).2[i] == c.err
      && Ticks(p, s, cfg, ticks[..i + 1], parse, format) == (c.poller, c.sink, pre.2 + [c.err])
  {
    var pre := Ticks(p, s, cfg, ticks[..i], parse, format);
    Collections.PrefixSuffix(ticks, i);
    TicksSplit(p, s, cfg, ticks[..i], ticks[i..], parse, format);
    TicksSplit(p, s, cfg, ticks[..i], [ticks[i]], parse, format);
    TicksCons(pre.0, pre.1, cfg, ticks[i..], parse, format);
    TicksOne(pre.0, pre.1, cfg, ticks[i], parse, format);
  }

  /** A connected client that cannot list the UPSes goes stale and reports
      the list failure without publishing. */
  lemma ListFailureGoesStale(c: Nut.Client, s: Publisher.Sink, cfg: Config.Config, t: CycleInput,
                             parse: Metrics.FloatParser, format: Metrics.FloatFormatter)
    requires c.conn.Some? && !c.stale && t.outcome.list.Err?
    ensures DoPoll(Nut.NutClient(c), s, cfg, t, parse, format) ==
      Cycle(Nut.NutClient(c.(stale := true)), s, Some(PollFailed(Nut.ListFailed(t.outcome.list.error))))
  {
  }

  /** A stale client whose reconnect succeeds polls the configured UPS and,
      against a broker that accepts everything, sends exactly that cycle's
      message set. */
  lemma ReconnectPublishes(c: Nut.Client, s: Publisher.Sink, cfg: Config.Config, t: CycleInput,
                           i: nat, vs: seq<Nut.NutVariable>,
                           parse: Metrics.FloatParser, format: Metrics.FloatFormatter)
    requires c.stale && s.Broker? && s.verdicts == []
    requires t.outcome.reconnect.connect.Ok? && t.outcome.reconnect.authenticate.None?
    requires t.outcome.list.Ok? && Nut.FindUps(t.outcome.list.value, c.upsName) == Some(i)
    requires t.outcome.list.value[i].variables == Ok(vs)
    ensures var r := DoPoll(Nut.NutClient(c), s, cfg, t, parse, format);
      && r.err.None?
      && r.poller == Nut.NutClient(c.(conn := Some(t.outcome.reconnect.connect.value), stale := false))
      && r.sink.Broker? && r.sink.closed == s.closed && r.sink.will == s.will
      && r.sink.attempted == s.attempted + CycleOutbox(Nut.ConvertVariables(vs), cfg, t, parse, format)
  {
    var p := Nut.NutClient(c);
    ReconnectPolls(c, t.outcome, i, vs);
    DoPollAcceptAll(p, s, cfg, t, parse, format);
    DoPollBroker(p, s, cfg, t, parse, format);
  }

  /** The poll itself: a stale client whose reconnect succeeds reads the
      configured UPS's variables and is connected and fresh again. */
  lemma ReconnectPolls(c: Nut.Client, o: Nut.PollOutcome, i: nat, vs: seq<Nut.NutVariable>)
    requires c.stale
    requires o.reconnect.connect.Ok? && o.reconnect.authenticate.None?
    requires o.list.Ok? && Nut.FindUps(o.list.value, c.upsName) == Some(i)
    requires o.list.value[i].variables == Ok(vs)
    ensures Nut.PollerPoll(Nut.NutClient(c), o) ==
      (Nut.NutClient(c.(conn := Some(o.reconnect.connect.value), stale := false)), Ok(Nut.ConvertVariables(vs)))
  {
  }

  /** Against a broker that accepts every publish a successful poll ends
      the cycle without error. */
  lemma DoPollAcceptAll(p: Nut.Poller, s: Publisher.Sink, cfg: Config.Config, input: CycleInput,
                        parse: Metrics.FloatParser, format: Metrics.FloatFormatter)
    requires Nut.PollerReady(p) && Nut.PollerPoll(p, input.outcome).1.Ok?
    requires s.Broker? && s.verdicts == []
    ensures DoPoll(p, s, cfg, input, parse, format).err.None?
  {
    var vars := Nut.PollerPoll(p, input.outcome).1.value;
    var out := CycleOutbox(vars, cfg, input, parse, format);
    DoPollSends(p, s, cfg, input, parse, format);
    Publisher.PublishSeqBroker(s, out);
  }

  /** A connected client whose first tick cannot list the UPSes and whose
      second tick reconnects: the loop reports the list failure, then
      success, and the broker receives exactly the second cycle's messages. */
  lemma StaleThenReconnect(c: Nut.Client, s: Publisher.Sink, cfg: Config.Config,
                           t1: CycleInput, t2: CycleInput, i: nat, vs: seq<Nut.NutVariable>,
                           parse: Metrics.FloatParser, format: Metrics.FloatFormatter)
    requires c.conn.Some? && !c.stale
    requires s.Broker? && s.verdicts == []
    requires t1.outcome.list.Err?
    requires t2.outcome.reconnect.connect.Ok? && t2.outcome.reconnect.authenticate.None?
    requires t2.outcome.list.Ok? && Nut.FindUps(t2.outcome.list.value, c.upsName) == Some(i)
    requires t2.outcome.list.value[i].variables == Ok(vs)
    ensures var r := Ticks(Nut.NutClient(c), s, cfg, [t1, t2], parse, format);
      && r.2 == [Some(PollFailed(Nut.ListFailed(t1.outcome.list.error))), None]
      && r.1.Broker? && r.1.closed == s.closed && r.1.will == s.will
      && r.1.attempted == s.attempted + CycleOutbox(Nut.ConvertVariables(vs), cfg, t2, parse, format)
      && r.0 == Nut.NutClient(c.(conn := Some(t2.outcome.reconnect.connect.value), stale := false))
  {
    ListFailureGoesStale(c, s, cfg, t1, parse, format);
    var c1 := c.(stale := true);
    ReconnectPublishes(c1, s, cfg, t2, i, vs, parse, format);
    TicksTwo(Nut.NutClient(c), s, cfg, t1, t2, parse, format);
  }

  /** Two ticks are two cycles, the second on what the first left. */
  lemma TicksTwo(p: Nut.Poller, s: Publisher.Sink, cfg: Config.Config, t1: CycleInput, t2: CycleInput,
                 parse: Metrics.FloatParser, format: Metrics.FloatFormatter)
    requires Nut.PollerReady(p)
    ensures var c1 := DoPoll(p, s, cfg, t1, parse, format);
      var c2 := DoPoll(c1.poller, c1.sink, cfg, t2, parse, format);
      Ticks(p, s, cfg, [t1, t2], parse, format) == (c2.poller, c2.sink, [c1.err, c2.err])
  {
    var c1 := DoPoll(p, s, cfg, t1, parse, format);
    var c2 := DoPoll(c1.poller, c1.sink, cfg, t2, parse, format);
    assert [t1, t2][0] == t1 && [t1, t2][1..] == [t2];
    TicksCons(p, s, cfg, [t1, t2], parse, format);
    TicksOne(c1.poller, c1.sink, cfg, t2, parse, format);
    assert [c1.err] + [c2.err] == [c1.err, c2.err];
  }

  // ---------------------------------------------------------------------------
  // main
  // ---------------------------------------------------------------------------

  /** The default configuration file, then one in the working directory. */
  function ConfigPaths(flagPath: string): seq<string> {
    [flagPath, "./config.toml"]
  }

  /** What the world supplies to one run of `main`. */
  datatype World = World(
    flagPath: string,
    stat: string -> Config.StatResult,
    decode: Config.Decoder,
    env: Config.Env,
    parseDuration: Config.DurationParser,
    startNow: string,
    brokerConnect: Option<string>,
    verdicts: seq<Option<string>>,
    dials: seq<Nut.DialOutcome>,
    cancels: seq<bool>,
    ticks: seq<CycleInput>,
    final: CycleInput,
    offNow: string,
    disconnect: Option<string>,
    parse: Metrics.FloatParser,
    format: Metrics.FloatFormatter)

  /** How `main` ended. `TickerPanicked` is the panic of `time.NewTicker`
      on a non-positive interval, after the deferred closes have run;
      `IntervalRejected` is only produced by `MainChecked`. */
  datatype Exit =
    | ConfigFailed(loadError: Config.LoadError)
    | BrokerFailed(cause: string)
    | StartupInterrupted(sink: Publisher.Sink)
    | StillConnecting(sink: Publisher.Sink)
    | TickerPanicked(poller: Nut.Poller, sink: Publisher.Sink)
    | Served(shutdown: Shutdown)
    | IntervalRejected(interval: Config.Duration)

  /** The configuration `main` loads. */
  function LoadedConfig(w: World): Result<Config.Config, Config.LoadError> {
    Config.Load(ConfigPaths(w.flagPath), w.stat, w.decode, w.env, w.parseDuration)
  }

  /** `main`: load the configuration, connect to the broker registering the
      offline announcement (stamped at start-up) as its last will, connect to
      NUT with backoff, start the ticker, serve, shut down. Interrupted
      start-up publishes nothing; a served run closes the broker session and
      ends with an offline announcement on the will's topic. Nothing checks
      the poll interval: a non-positive one makes the ticker panic, and the
      deferred closes then end both sessions without any announcement (the
      broker discards the will on a clean disconnect). */
  function Main(w: World): (r: Exit)
    ensures r.StartupInterrupted? ==> r.sink.Broker? && r.sink.attempted == [] && r.sink.closed
    ensures r.TickerPanicked? ==>
      && LoadedConfig(w).Ok? && LoadedConfig(w).value.nut.pollInterval.nanos <= 0
      && r.sink.Broker? && r.sink.closed && r.sink.attempted == []
      && r.poller.NutClient? && r.poller.client.conn.None?
    ensures r.Served? ==> LoadedConfig(w).Ok? && LoadedConfig(w).value.nut.pollInterval.nanos > 0
    ensures r.Served? ==> r.shutdown.sink.Broker? && r.shutdown.sink.closed
    ensures r.Served? ==>
      var a := r.shutdown.sink.attempted;
      && |a| > 0
      && a[|a| - 1].topic == r.shutdown.sink.will.topic
      && a[|a| - 1].retained && r.shutdown.sink.will.retained
      && a[|a| - 1].payload.Presence? && !a[|a| - 1].payload.presence.online
    ensures !r.IntervalRejected?
  {
    match LoadedConfig(w)
    case Err(e) => ConfigFailed(e)
    case Ok(cfg) =>
      if w.brokerConnect.Some? then BrokerFailed(w.brokerConnect.value)
      else
        var pub := Publisher.Broker(OfflineMessage(cfg, w.startNow), [], w.verdicts, false);
        match ConnectNut(cfg.nut, w.dials, w.cancels)
        case Interrupted(_) => StartupInterrupted(Publisher.Close(pub).0)
        case StillDialling(_) => StillConnecting(pub)
        case Connected(client, _) =>
          if cfg.nut.pollInterval.nanos <= 0 then
            TickerPanicked(Nut.PollerClose(Nut.NutClient(client), w.disconnect).0, Publisher.Close(pub).0)
          else
            ServeEndsOffline(Nut.NutClient(client), pub, cfg, w.ticks, w.final, w.offNow, w.disconnect,
                             w.parse, w.format);
            Served(Serve(Nut.NutClient(client), pub, cfg, w.ticks, w.final, w.offNow, w.disconnect,
                         w.parse, w.format))
  }

  /** A poll interval of zero (here from `UPS_MQTT_NUT_POLL_INTERVAL=0s`)
      passes the configuration loader, and once NUT answers the run ends in
      the ticker's panic: the broker saw no message at all, so neither the
      offline announcement nor the last will reaches subscribers. */
  lemma ZeroIntervalPanics(w: World)
    requires forall path :: w.stat(path) == Config.NotExist
    requires w.env == map[Config.NutPollIntervalVar := "0s"] && w.parseDuration("0s") == Some(0)
    requires w.brokerConnect.None?
    requires |w.dials| > 0 && w.dials[0] == Nut.DialOutcome(Ok(1), None)
    ensures Main(w).TickerPanicked?
    ensures Main(w).sink.attempted == []
  {
    ZeroIntervalLoads(w);
    var cfg := LoadedConfig(w).value;
    ConnectFromDials(cfg.nut, w.dials, w.cancels, 0);
  }

  /** The loader accepts the zero interval of `ZeroIntervalPanics`. */
  lemma ZeroIntervalLoads(w: World)
    requires forall path :: w.stat(path) == Config.NotExist
    requires w.env == map[Config.NutPollIntervalVar := "0s"] && w.parseDuration("0s") == Some(0)
    ensures LoadedConfig(w).Ok? && LoadedConfig(w).value.nut.pollInterval.nanos == 0
  {
    var paths := ConfigPaths(w.flagPath);
    assert forall i :: 0 <= i < |paths| ==> Config.Skipped(paths[i], w.stat);
    assert Config.IsSet(w.env, Config.NutPollIntervalVar);
  }

  /** `main` as evidently intended: a non-positive poll interval is refused
      together with the rest of the configuration, before either connection
      is made; every other run is `main`'s. */
  function MainChecked(w: World): (r: Exit)
    ensures !r.TickerPanicked?
    ensures r.IntervalRejected? <==> LoadedConfig(w).Ok? && LoadedConfig(w).value.nut.pollInterval.nanos <= 0
    ensures r.IntervalRejected? ==> r.interval == LoadedConfig(w).value.nut.pollInterval
    ensures !r.IntervalRejected? ==> r == Main(w)
  {
    match LoadedConfig(w)
    case Ok(cfg) =>
      if cfg.nut.pollInterval.nanos <= 0 then IntervalRejected(cfg.nut.pollInterval) else Main(w)
    case Err(_) => Main(w)
  }

  /** Under `MainChecked` a loaded configuration either is refused for its
      interval before anything connects, or, once NUT answers, the run is
      served and the broker's last message is the offline announcement on
      the will's topic. */
  lemma CheckedConnectedServes(w: World)
    requires LoadedConfig(w).Ok? && w.brokerConnect.None?
    requires ConnectNut(LoadedConfig(w).value.nut, w.dials, w.cancels).Connected?
    ensures var r := MainChecked(w);
      && (LoadedConfig(w).value.nut.pollInterval.nanos <= 0 ==> r.IntervalRejected?)
      && (LoadedConfig(w).value.nut.pollInterval.nanos > 0 ==>
            && r.Served? && r.shutdown.sink.Broker? && r.shutdown.sink.closed
            && |r.shutdown.sink.attempted| > 0
            && r.shutdown.sink.attempted[|r.shutdown.sink.attempted| - 1].topic == r.shutdown.sink.will.topic)
  {
  }
}
