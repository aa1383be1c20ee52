/** Package `internal/publisher`: topic routing for one poll's results
    (`publisher.go`) and the recording test double (`fake.go`).

    A Go `Publisher` is either the fake or the paho MQTT client. The broker's
    answers are foreign, so the MQTT client is modelled as a sink that records
    every attempted publish and reads its verdicts from an oracle sequence.
    JSON payloads are kept as records (`Payload`) instead of their encoding. */
module Publisher {
  import opened Wrappers
  import Text
  import Collections
  import Metrics

  /** The online/offline announcement (`OnlineState`). */
  datatype OnlineState = OnlineState(online: bool, timestamp: string)

  /** The combined state document (`StateMessage`). */
  datatype StateMessage = StateMessage(
    timestamp: string,
    upsName: string,
    variables: map<string, string>,
    computed: Metrics.Metrics)

  /** What a message carries: a plain string, or one of the two JSON
      documents, kept unencoded. */
  datatype Payload = Raw(text: string) | State(state: StateMessage) | Presence(presence: OnlineState)

  /** A single MQTT publish request. */
  datatype Message = Message(topic: string, payload: Payload, retained: bool)

  /** The zero `Message`, which `Find` returns when nothing matches. */
  const NoMessage := Message("", Raw(""), false)

  /** The MQTT routing parameters of a publish cycle. */
  datatype PublishConfig = PublishConfig(prefix: string, upsName: string, retained: bool)

  // ---------------------------------------------------------------------------
  // Topics
  // ---------------------------------------------------------------------------

  /** `fmt.Sprintf("%s/%s/%s", prefix, upsName, suffix)`. */
  function Topic(prefix: string, upsName: string, suffix: string): string {
    prefix + "/" + upsName + "/" + suffix
  }

  /** Length of the `prefix/ups/` part every topic starts with. */
  function Stem(cfg: PublishConfig): nat {
    |cfg.prefix| + |cfg.upsName| + 2
  }

  /** The topic of a NUT variable: the stem followed by the name with every
      `.` turned into `/`; nothing else of the name changes. */
  function VariableTopic(cfg: PublishConfig, name: string): (topic: string)
    ensures |topic| == Stem(cfg) + |name|
    ensures topic[..Stem(cfg)] == cfg.prefix + "/" + cfg.upsName + "/"
    ensures forall i :: 0 <= i < |name| ==>
      topic[Stem(cfg) + i] == (if name[i] == '.' then '/' else name[i])
  {
    Topic(cfg.prefix, cfg.upsName, Text.ReplaceChar(name, '.', '/'))
  }

  /** The topic of a computed metric, under the `computed/` sub-tree. */
  function ComputedTopic(cfg: PublishConfig, key: string): string {
    Topic(cfg.prefix, cfg.upsName, "computed/" + key)
  }

  /** `StateTopic`: the topic of the combined state document. */
  function StateTopic(prefix: string, upsName: string): string {
    Topic(prefix, upsName, "state")
  }

  /** Topics of one device differ exactly when their suffixes differ. */
  lemma TopicSuffixInjective(prefix: string, upsName: string, a: string, b: string)
    ensures Topic(prefix, upsName, a) == Topic(prefix, upsName, b) <==> a == b
  {
    var stem := prefix + "/" + upsName + "/";
    if Topic(prefix, upsName, a) == Topic(prefix, upsName, b) {
      assert a == Topic(prefix, upsName, a)[|stem|..];
      assert b == Topic(prefix, upsName, b)[|stem|..];
    }
  }

  /** A variable name without `/` can be read back from its topic by turning
      every `/` after the stem into `.`. */
  lemma VariableTopicRoundTrip(cfg: PublishConfig, name: string)
    requires forall i :: 0 <= i < |name| ==> name[i] != '/'
    ensures Text.ReplaceChar(VariableTopic(cfg, name)[Stem(cfg)..], '/', '.') == name
  {
  }

  /** Hence different slash-free names never share a topic. */
  lemma VariableTopicInjective(cfg: PublishConfig, a: string, b: string)
    requires forall i :: 0 <= i < |a| ==> a[i] != '/'
    requires forall i :: 0 <= i < |b| ==> b[i] != '/'
    ensures VariableTopic(cfg, a) == VariableTopic(cfg, b) <==> a == b
  {
    VariableTopicRoundTrip(cfg, a);
    VariableTopicRoundTrip(cfg, b);
  }

  /** The dot-to-slash rewrite is not one-to-one on arbitrary names: `a.b`
      and `a/b` are routed to the same topic. */
  lemma DottedAndSlashedNamesShareTopic(cfg: PublishConfig)
    ensures VariableTopic(cfg, "a.b") == VariableTopic(cfg, "a/b")
  {
    assert Text.ReplaceChar("a.b", '.', '/') == "a/b";
    assert Text.ReplaceChar("a/b", '.', '/') == "a/b";
  }

  /** The seven computed topics are pairwise different and none of them is
      the state topic. */
  lemma ComputedTopicsDistinct(cfg: PublishConfig, a: string, b: string)
    ensures ComputedTopic(cfg, a) == ComputedTopic(cfg, b) <==> a == b
    ensures ComputedTopic(cfg, a) != StateTopic(cfg.prefix, cfg.upsName)
  {
    TopicSuffixInjective(cfg.prefix, cfg.upsName, "computed/" + a, "computed/" + b);
    if "computed/" + a == "computed/" + b {
      assert a == ("computed/" + a)[9..];
    }
    TopicSuffixInjective(cfg.prefix, cfg.upsName, "computed/" + a, "state");
    assert ("computed/" + a)[0] == 'c';
  }

  /** Nothing keeps a variable called `state` off the state topic. */
  lemma VariableNamedStateSharesStateTopic(cfg: PublishConfig)
    ensures VariableTopic(cfg, "state") == StateTopic(cfg.prefix, cfg.upsName)
  {
    assert Text.ReplaceChar("state", '.', '/') == "state";
  }

  // ---------------------------------------------------------------------------
  // The message set of one cycle
  // ---------------------------------------------------------------------------

  /** The message for one NUT variable: its raw value on its topic. */
  function VariableMessage(cfg: PublishConfig, vars: map<string, string>, name: string): Message {
    Message(VariableTopic(cfg, name), Raw(Metrics.Get(vars, name)), cfg.retained)
  }

  /** The message for one entry of the topic map. */
  function ComputedMessage(cfg: PublishConfig, t: map<string, string>, key: string): Message {
    Message(ComputedTopic(cfg, key), Raw(Metrics.Get(t, key)), cfg.retained)
  }

  /** `publishState`'s message: the whole snapshot and its metrics, stamped
      with `now`, on the state topic. */
  function StateMessageFor(vars: map<string, string>, m: Metrics.Metrics, cfg: PublishConfig,
                           now: string): Message {
    Message(StateTopic(cfg.prefix, cfg.upsName), State(StateMessage(now, cfg.upsName, vars, m)),
            cfg.retained)
  }

  /** An iteration order of a Go map with keys `keys`. */
  predicate IsOrderOf(order: seq<string>, keys: set<string>) {
    Collections.IsEnumeration(order, keys)
  }

  /** Every entry of `order` is one of `keys` (an iteration order is one). */
  predicate Within(order: seq<string>, keys: set<string>) {
    forall i :: 0 <= i < |order| ==> order[i] in keys
  }

  /** An iteration order is as long as the map and visits only its keys. */
  lemma OrderFacts(order: seq<string>, keys: set<string>)
    requires IsOrderOf(order, keys)
    ensures |order| == |keys| && Within(order, keys)
  {
    Collections.EnumerationSize(order, keys);
    Collections.EnumerationMembers(order, keys);
  }

  /** The messages `PublishAll` hands to the publisher, in order, for a
      snapshot `vars`, its metrics `m` and their topic map `t`, when the
      variables are visited in `varOrder` and the topic map in `metricOrder`:
      one message per visited variable, then one per visited metric, then
      the state document last. `OutboxVariables`, `OutboxComputed` and
      `OutboxRetained` say what each message is. */
  function Outbox(vars: map<string, string>, m: Metrics.Metrics, t: map<string, string>,
                  cfg: PublishConfig, varOrder: seq<string>, metricOrder: seq<string>,
                  now: string): (out: seq<Message>)
    ensures |out| == |varOrder| + |metricOrder| + 1
    ensures out[|varOrder| + |metricOrder|] == StateMessageFor(vars, m, cfg, now)
  {
    VariableMessages(cfg, vars, varOrder) + ComputedMessages(cfg, t, metricOrder) +
      [StateMessageFor(vars, m, cfg, now)]
  }

  /** Every message of the outbox carries the configured retain flag. */
  lemma OutboxRetained(vars: map<string, string>, m: Metrics.Metrics, t: map<string, string>,
                       cfg: PublishConfig, varOrder: seq<string>, metricOrder: seq<string>, now: string)
    ensures var out := Outbox(vars, m, t, cfg, varOrder, metricOrder, now);
      forall i :: 0 <= i < |out| ==> out[i].retained == cfg.retained
  {
    var vs := VariableMessages(cfg, vars, varOrder);
    var cs := ComputedMessages(cfg, t, metricOrder);
    ConcatRetained(vs, cs, StateMessageFor(vars, m, cfg, now), cfg.retained);
  }

  /** The variable group puts each visited variable's raw value on its
      topic, in iteration order. */
  lemma OutboxVariables(vars: map<string, string>, m: Metrics.Metrics, t: map<string, string>,
                        cfg: PublishConfig, varOrder: seq<string>, metricOrder: seq<string>, now: string)
    requires Within(varOrder, vars.Keys)
    ensures var out := Outbox(vars, m, t, cfg, varOrder, metricOrder, now);
      forall i :: 0 <= i < |varOrder| ==>
        out[i] == Message(VariableTopic(cfg, varOrder[i]), Raw(vars[varOrder[i]]), cfg.retained)
  {
    var vs := VariableMessages(cfg, vars, varOrder);
    var rest := ComputedMessages(cfg, t, metricOrder) + [StateMessageFor(vars, m, cfg, now)];
    assert Outbox(vars, m, t, cfg, varOrder, metricOrder, now) == vs + rest;
    forall i | 0 <= i < |vs|
      ensures (vs + rest)[i] == Message(VariableTopic(cfg, varOrder[i]), Raw(vars[varOrder[i]]), cfg.retained)
    {
      assert (vs + rest)[i] == vs[i];
    }
  }

  /** The computed group puts each visited metric's payload on its topic, in
      iteration order, right after the variable group. */
  lemma OutboxComputed(vars: map<string, string>, m: Metrics.Metrics, t: map<string, string>,
                       cfg: PublishConfig, varOrder: seq<string>, metricOrder: seq<string>, now: string)
    requires Within(metricOrder, t.Keys)
    ensures var out := Outbox(vars, m, t, cfg, varOrder, metricOrder, now);
      forall j :: 0 <= j < |metricOrder| ==>
        out[|varOrder| + j] == Message(ComputedTopic(cfg, metricOrder[j]), Raw(t[metricOrder[j]]), cfg.retained)
  {
    var vs := VariableMessages(cfg, vars, varOrder);
    var cs := ComputedMessages(cfg, t, metricOrder);
    Collections.IndexMiddle(vs, cs, [StateMessageFor(vars, m, cfg, now)]);
  }

  lemma ConcatRetained(a: seq<Message>, b: seq<Message>, x: Message, retained: bool)
    requires forall i :: 0 <= i < |a| ==> a[i].retained == retained
    requires forall i :: 0 <= i < |b| ==> b[i].retained == retained
    requires x.retained == retained
    ensures forall i :: 0 <= i < |a + b + [x]| ==> (a + b + [x])[i].retained == retained
  {
    forall i | 0 <= i < |a + b + [x]| ensures (a + b + [x])[i].retained == retained {
      if i < |a| {
        assert (a + b + [x])[i] == a[i];
      } else if i < |a| + |b| {
        assert (a + b + [x])[i] == b[i - |a|];
      }
    }
  }

  /** The variable group for one iteration order. */
  function VariableMessages(cfg: PublishConfig, vars: map<string, string>, order: seq<string>): (r: seq<Message>)
    ensures |r| == |order|
    ensures forall i :: 0 <= i < |order| ==> r[i] == VariableMessage(cfg, vars, order[i])
  {
    Collections.MapSeq((name: string) => VariableMessage(cfg, vars, name), order)
  }

  /** The computed group for one iteration order. */
  function ComputedMessages(cfg: PublishConfig, t: map<string, string>, order: seq<string>): (r: seq<Message>)
    ensures |r| == |order|
    ensures forall i :: 0 <= i < |order| ==> r[i] == ComputedMessage(cfg, t, order[i])
  {
    Collections.MapSeq((key: string) => ComputedMessage(cfg, t, key), order)
  }

  /** The outbox is the variable group, then the computed group, then the
      state message. */
  lemma OutboxGroups(vars: map<string, string>, m: Metrics.Metrics, t: map<string, string>,
                     cfg: PublishConfig, varOrder: seq<string>, metricOrder: seq<string>, now: string)
    ensures var out := Outbox(vars, m, t, cfg, varOrder, metricOrder, now);
      && out[..|varOrder|] == VariableMessages(cfg, vars, varOrder)
      && out[|varOrder|..|varOrder| + |metricOrder|] == ComputedMessages(cfg, t, metricOrder)
  {
    var vs := VariableMessages(cfg, vars, varOrder);
    var cs := ComputedMessages(cfg, t, metricOrder);
    var out := vs + cs + [StateMessageFor(vars, m, cfg, now)];
    assert out[..|vs|] == vs;
    assert out[|vs|..|vs| + |cs|] == cs;
  }

  /** Permuting either iteration order permutes the messages of its group
      and leaves the state message alone. */
  lemma OutboxPermute(vars: map<string, string>, m: Metrics.Metrics, t: map<string, string>,
                      cfg: PublishConfig, v1: seq<string>, c1: seq<string>,
                      v2: seq<string>, c2: seq<string>, now: string)
    requires multiset(v1) == multiset(v2) && multiset(c1) == multiset(c2)
    ensures |v1| == |v2| && |c1| == |c2|
    ensures var o1 := Outbox(vars, m, t, cfg, v1, c1, now);
            var o2 := Outbox(vars, m, t, cfg, v2, c2, now);
            && multiset(o1[..|v1|]) == multiset(o2[..|v1|])
            && multiset(o1[|v1|..|v1| + |c1|]) == multiset(o2[|v1|..|v1| + |c1|])
            && o1[|v1| + |c1|] == o2[|v1| + |c1|]
  {
    assert |v1| == |multiset(v1)| == |multiset(v2)| == |v2|;
    assert |c1| == |multiset(c1)| == |multiset(c2)| == |c2|;
    OutboxGroups(vars, m, t, cfg, v1, c1, now);
    OutboxGroups(vars, m, t, cfg, v2, c2, now);
    Collections.MapSeqPermute((name: string) => VariableMessage(cfg, vars, name), v1, v2);
    Collections.MapSeqPermute((key: string) => ComputedMessage(cfg, t, key), c1, c2);
  }

  /** Map iteration order only permutes messages within their group: the
      variable group, the computed group and the state message are the same
      for any two orders, up to order inside the first two. */
  lemma OutboxOrderIndependent(vars: map<string, string>, m: Metrics.Metrics, t: map<string, string>,
                               cfg: PublishConfig, v1: seq<string>, c1: seq<string>,
                               v2: seq<string>, c2: seq<string>, now: string)
    requires IsOrderOf(v1, vars.Keys) && IsOrderOf(v2, vars.Keys)
    requires IsOrderOf(c1, t.Keys) && IsOrderOf(c2, t.Keys)
    ensures |v1| == |v2| == |vars| && |c1| == |c2| == |t|
    ensures var o1 := Outbox(vars, m, t, cfg, v1, c1, now);
            var o2 := Outbox(vars, m, t, cfg, v2, c2, now);
            && multiset(o1[..|vars|]) == multiset(o2[..|vars|])
            && multiset(o1[|vars|..|vars| + |t|]) == multiset(o2[|vars|..|vars| + |t|])
            && o1[|vars| + |t|] == o2[|vars| + |t|]
  {
    Collections.EnumerationSize(v1, vars.Keys);
    Collections.EnumerationSize(c1, t.Keys);
    Collections.EnumerationsPermute(v1, v2, vars.Keys);
    Collections.EnumerationsPermute(c1, c2, t.Keys);
    OutboxPermute(vars, m, t, cfg, v1, c1, v2, c2, now);
  }

  /** Every variable of the snapshot is published, with its raw value on its
      own topic, inside the variable group, whatever the iteration order. */
  lemma EveryVariablePublished(vars: map<string, string>, m: Metrics.Metrics, t: map<string, string>,
                                   cfg: PublishConfig, varOrder: seq<string>, metricOrder: seq<string>,
                                   now: string, name: string)
    requires IsOrderOf(varOrder, vars.Keys) && IsOrderOf(metricOrder, t.Keys)
    requires name in vars
    ensures var out := Outbox(vars, m, t, cfg, varOrder, metricOrder, now);
      && |out| > |vars|
      && exists i :: 0 <= i < |vars| && out[i] == Message(VariableTopic(cfg, name), Raw(vars[name]), cfg.retained)
  {
    var out := Outbox(vars, m, t, cfg, varOrder, metricOrder, now);
    OrderFacts(varOrder, vars.Keys);
    OutboxVariables(vars, m, t, cfg, varOrder, metricOrder, now);
    assert name in Collections.Elements(varOrder);
    var i :| 0 <= i < |varOrder| && varOrder[i] == name;
    assert out[i] == Message(VariableTopic(cfg, name), Raw(vars[name]), cfg.retained);
  }

  /** `FormatOffline`: the offline announcement stamped with `now`. */
  function FormatOffline(now: string): (p: Payload)
    ensures p.Presence? && !p.presence.online && p.presence.timestamp == now
  {
    Presence(OnlineState(false, now))
  }

  // ---------------------------------------------------------------------------
  // Publishers
  // ---------------------------------------------------------------------------

  /** `FakePublisher`: records messages; a set `publishError` makes every
      publish fail. */
  datatype FakePublisher = FakePublisher(messages: seq<Message>, publishError: Option<string>, closed: bool)

  /** `FakePublisher.Publish`: with an injected error, report it and record
      nothing; otherwise append the message at the end. */
  function FakePublish(f: FakePublisher, msg: Message): (r: (FakePublisher, Option<string>))
    ensures f.publishError.Some? ==> r == (f, f.publishError)
    ensures f.publishError.None? ==> r.1.None? && r.0 == f.(messages := f.messages + [msg])
  {
    if f.publishError.Some? then (f, f.publishError)
    else (f.(messages := f.messages + [msg]), None)
  }

  /** `FakePublisher.Find`: the first recorded message on `topic`, or the
      zero message and `false` when there is none. */
  method FakeFind(f: FakePublisher, topic: string) returns (msg: Message, found: bool)
    ensures found ==> exists i :: (0 <= i < |f.messages| && f.messages[i] == msg &&
      msg.topic == topic && forall j :: 0 <= j < i ==> f.messages[j].topic != topic)
    ensures !found ==> (msg == NoMessage &&
      forall j :: 0 <= j < |f.messages| ==> f.messages[j].topic != topic)
  {
    var i := 0;
    while i < |f.messages|
      invariant 0 <= i <= |f.messages|
      invariant forall j :: 0 <= j < i ==> f.messages[j].topic != topic
    {
      if f.messages[i].topic == topic {
        return f.messages[i], true;
      }
      i := i + 1;
    }
    return NoMessage, false;
  }

  /** `FakePublisher.Close`: records the close and reports no error. */
  function FakeClose(f: FakePublisher): (r: (FakePublisher, Option<string>))
    ensures r.0.closed && r.1.None?
    ensures r.0.(closed := f.closed) == f
  {
    (f.(closed := true), None)
  }

  /** `FakePublisher.Reset`: no messages, no injected error, not closed. */
  function FakeReset(f: FakePublisher): (r: FakePublisher)
    ensures r.messages == [] && r.publishError.None? && !r.closed
  {
    FakePublisher([], None, false)
  }

  /** A `Publisher`: the fake, or the MQTT client with the last-will message
      it registered when it connected. The client's broker is an oracle: the
      n-th publish (from 0) gets `verdicts[n]` as its error, or succeeds once
      the verdicts run out; every attempt is recorded. */
  datatype Sink =
    | FakeSink(fake: FakePublisher)
    | Broker(will: Message, attempted: seq<Message>, verdicts: seq<Option<string>>, closed: bool)

  /** The broker's answer to the publish attempt at position `i`. */
  function Verdict(verdicts: seq<Option<string>>, i: nat): Option<string> {
    if i < |verdicts| then verdicts[i] else None
  }

  /** `Publisher.Publish`. */
  function Publish(s: Sink, msg: Message): (r: (Sink, Option<string>))
    ensures s.FakeSink? ==> r.0.FakeSink? && (r.0.fake, r.1) == FakePublish(s.fake, msg)
    ensures s.Broker? ==> (r.0.Broker? && r.0.attempted == s.attempted + [msg] &&
      r.1 == Verdict(s.verdicts, 0) && r.0.closed == s.closed && r.0.will == s.will)
    ensures s.Broker? ==> forall i: nat :: Verdict(r.0.verdicts, i) == Verdict(s.verdicts, i + 1)
  {
    match s
    case FakeSink(f) => var (f', e) := FakePublish(f, msg); (FakeSink(f'), e)
    case Broker(will, attempted, verdicts, closed) =>
      var rest := if verdicts == [] then [] else verdicts[1..];
      (Broker(will, attempted + [msg], rest, closed), Verdict(verdicts, 0))
  }

  /** `Publisher.Close`; both implementations report no error (the MQTT
      client disconnects with a 250 ms grace period). */
  function Close(s: Sink): (r: (Sink, Option<string>))
    ensures r.1.None?
    ensures s.FakeSink? ==> r.0 == FakeSink(FakeClose(s.fake).0)
    ensures s.Broker? ==> r.0 == s.(closed := true)
  {
    match s
    case FakeSink(f) => (FakeSink(FakeClose(f).0), None)
    case Broker(_, _, _, _) => (s.(closed := true), None)
  }

  /** The outcome of publishing a batch: the publisher afterwards, the
      error that ended the batch (if any) and how many publishes were
      attempted. */
  datatype Delivery = Delivery(sink: Sink, err: Option<string>, attempts: nat)

  /** Publish `msgs` in order, returning at the first error. */
  function PublishSeq(s: Sink, msgs: seq<Message>): (d: Delivery)
    ensures d.attempts <= |msgs|
    ensures d.err.None? ==> d.attempts == |msgs|
    ensures d.err.Some? ==> d.attempts > 0
    decreases |msgs|
  {
    if msgs == [] then Delivery(s, None, 0)
    else
      var (s1, e) := Publish(s, msgs[0]);
      if e.Some? then Delivery(s1, e, 1)
      else
        var d := PublishSeq(s1, msgs[1..]);
        d.(attempts := d.attempts + 1)
  }

  /** Against the broker: exactly the first `attempts` messages were tried,
      every one but the last was accepted, and an error is the verdict on
      the last one tried. */
  lemma {:induction false} PublishSeqBroker(s: Sink, msgs: seq<Message>)
    requires s.Broker?
    ensures var d := PublishSeq(s, msgs);
      && d.sink.Broker?
      && d.sink.will == s.will && d.sink.closed == s.closed
      && d.sink.attempted == s.attempted + msgs[..d.attempts]
      && (forall i :: 0 <= i < d.attempts - 1 ==> Verdict(s.verdicts, i).None?)
      && (d.err.None? ==> forall i :: 0 <= i < d.attempts ==> Verdict(s.verdicts, i).None?)
      && (d.err.Some? ==> d.err == Verdict(s.verdicts, d.attempts - 1))
    decreases |msgs|
  {
    if msgs != [] {
      var (s1, e) := Publish(s, msgs[0]);
      if e.None? {
        PublishSeqBroker(s1, msgs[1..]);
        var d := PublishSeq(s1, msgs[1..]);
        assert PublishSeq(s, msgs) == d.(attempts := d.attempts + 1);
        assert msgs[..d.attempts + 1] == [msgs[0]] + msgs[1..][..d.attempts];
        forall i | 0 < i < d.attempts + 1 && (d.err.None? || i < d.attempts)
          ensures Verdict(s.verdicts, i).None?
        {
          assert Verdict(s.verdicts, i) == Verdict(s1.verdicts, i - 1);
        }
        if d.err.Some? {
          assert d.err == Verdict(s1.verdicts, d.attempts - 1);
        }
      } else {
        assert msgs[..1] == [msgs[0]];
      }
    }
  }

  /** Into a fake without an injected error every message is recorded, in
      order, after the ones already there. */
  lemma {:induction false} PublishSeqFake(f: FakePublisher, msgs: seq<Message>)
    requires f.publishError.None?
    ensures PublishSeq(FakeSink(f), msgs) ==
      Delivery(FakeSink(f.(messages := f.messages + msgs)), None, |msgs|)
    decreases |msgs|
  {
    if msgs != [] {
      var f1 := f.(messages := f.messages + [msgs[0]]);
      assert Publish(FakeSink(f), msgs[0]) == (FakeSink(f1), None);
      PublishSeqFake(f1, msgs[1..]);
      var d := PublishSeq(FakeSink(f1), msgs[1..]);
      assert PublishSeq(FakeSink(f), msgs) == d.(attempts := d.attempts + 1);
      assert f.messages + [msgs[0]] + msgs[1..] == f.messages + msgs;
      assert f1.(messages := f1.messages + msgs[1..]) == f.(messages := f.messages + msgs);
    } else {
      assert f.messages + msgs == f.messages;
    }
  }

  /** Into a fake with an injected error the first publish fails, nothing is
      recorded and nothing more is tried. */
  lemma PublishSeqFakeFails(f: FakePublisher, msgs: seq<Message>)
    requires f.publishError.Some? && msgs != []
    ensures PublishSeq(FakeSink(f), msgs) == Delivery(FakeSink(f), f.publishError, 1)
  {
  }

  /** `PublishAll`: the outbox of the snapshot, its metrics and their
      seven-entry topic map, published in order until the first error. */
  function PublishAll(vars: map<string, string>, m: Metrics.Metrics, cfg: PublishConfig, s: Sink,
                      varOrder: seq<string>, metricOrder: seq<string>, now: string,
                      format: Metrics.FloatFormatter): (d: Delivery)
    requires IsOrderOf(varOrder, vars.Keys)
    requires IsOrderOf(metricOrder, Collections.Elements(Metrics.MetricNames))
    ensures d.err.None? ==> d.attempts == |vars| + 8
    ensures d.attempts <= |vars| + 8
  {
    var t := Metrics.AsTopicMap(m, format);
    Metrics.MetricNamesDistinct();
    Collections.EnumerationSize(varOrder, vars.Keys);
    Collections.EnumerationSize(metricOrder, Collections.Elements(Metrics.MetricNames));
    PublishSeq(s, Outbox(vars, m, t, cfg, varOrder, metricOrder, now))
  }

  /** A successful cycle into a fresh fake records exactly the outbox: the
      variables, then the seven metrics, then the state document last. */
  lemma PublishAllIntoFake(vars: map<string, string>, m: Metrics.Metrics, cfg: PublishConfig,
                           varOrder: seq<string>, metricOrder: seq<string>, now: string,
                           format: Metrics.FloatFormatter)
    requires IsOrderOf(varOrder, vars.Keys)
    requires IsOrderOf(metricOrder, Collections.Elements(Metrics.MetricNames))
    ensures var t := Metrics.AsTopicMap(m, format);
      var d := PublishAll(vars, m, cfg, FakeSink(FakePublisher([], None, false)),
                          varOrder, metricOrder, now, format);
      var out := Outbox(vars, m, t, cfg, varOrder, metricOrder, now);
      && d == Delivery(FakeSink(FakePublisher(out, None, false)), None, |vars| + 8)
      && out[|vars| + 7] == StateMessageFor(vars, m, cfg, now)
  {
    var t := Metrics.AsTopicMap(m, format);
    Metrics.MetricNamesDistinct();
    Collections.EnumerationSize(varOrder, vars.Keys);
    Collections.EnumerationSize(metricOrder, Collections.Elements(Metrics.MetricNames));
    OutboxIntoFreshFake(vars, m, t, cfg, varOrder, metricOrder, now);
  }

  /** Publishing an outbox into a fresh fake records it unchanged. */
  lemma OutboxIntoFreshFake(vars: map<string, string>, m: Metrics.Metrics, t: map<string, string>,
                            cfg: PublishConfig, varOrder: seq<string>, metricOrder: seq<string>,
                            now: string)
    ensures var out := Outbox(vars, m, t, cfg, varOrder, metricOrder, now);
      PublishSeq(FakeSink(FakePublisher([], None, false)), out) ==
        Delivery(FakeSink(FakePublisher(out, None, false)), None, |out|)
  {
    var out := Outbox(vars, m, t, cfg, varOrder, metricOrder, now);
    PublishSeqFake(FakePublisher([], None, false), out);
    assert [] + out == out;
  }
}
