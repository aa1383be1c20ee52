# ups-mqtt in Dafny

A Dafny model of the core of `ups-mqtt`, a bridge that polls a UPS through
Network UPS Tools (NUT) and republishes its state over MQTT. The model
covers:

- the metrics transform: `Compute` turns NUT's name→value strings into seven
  derived fields, and `AsTopicMap` projects them to seven topic payloads;
- the snapshot conversion `VarsToMap`;
- the NUT client's connect / stale / poll / close state machine;
- the two test doubles, `FakePoller` and `FakePublisher`;
- the MQTT message set built by `PublishAll`: variables, then computed
  metrics, then the state document, stopping at the first publish error;
- the configuration merge: defaults, first existing file, environment
  overrides;
- the orchestrator in `cmd/ups-mqtt`: start-up backoff, the poll cycle, the
  tick loop and the shutdown order.

Everything is immutable data and pure functions. A Go method that mutates
its receiver returns the new receiver next to its Go result.

Whatever lies outside the program is a parameter. That covers:

- float parsing and formatting;
- `time.ParseDuration`, `os.Stat`, TOML decoding and the environment (a map);
- the outcomes of go.nut's network calls;
- the broker's verdict on each publish;
- wall-clock timestamps;
- the iteration order of Go maps.

A Go map's iteration order is modelled as an explicit enumeration of its
keys. `Collections.Arrange` turns any sequence into a valid enumeration, so
every order Go could choose can be reached.

Modules follow the Go packages:

| module | file | Go source |
|---|---|---|
| `Wrappers` | wrappers.dfy | `Option` / `Result` |
| `Text` | text.dfy | `strings.Fields`, `strings.Join`, `strings.ReplaceAll` on one character |
| `Collections` | collections.dfy | map key enumerations, permutations |
| `Strconv` | strconv.dfy | `strconv.Atoi`, `strconv.ParseUint(v, 10, 8)` |
| `Metrics` | metrics.dfy | internal/metrics/metrics.go |
| `Nut` | nut.dfy | internal/nut/poller.go, fake.go, client.go |
| `Publisher` | publisher.dfy | internal/publisher/publisher.go, fake.go; the broker as a sink |
| `Config` | config.dfy | internal/config/config.go |
| `App` | app.dfy | cmd/ups-mqtt/main.go |

## Model

| member | source | states |
|---|---|---|
| Text.Fields | internal/metrics/metrics.go:111 | every token is non-empty and free of white space, and there are no tokens exactly when the status is all white space; the tokens themselves are pinned down by `Text.FieldsSplit` and `Text.FieldsOfJoin` |
| Text.FieldsSplit | internal/metrics/metrics.go:111 | any one white-space character cuts a string into two independently tokenised halves: the tokens of the whole are those of the left part followed by those of the right |
| Text.FieldsOfPair | internal/metrics/metrics.go:111 | two tokens around one white-space character split into exactly those two |
| Text.FieldsSkipSpaces | internal/metrics/metrics.go:111 | leading white space of any length contributes no token |
| Text.FieldsOfFieldBefore | internal/metrics/metrics.go:111 | a single token followed by white space (or nothing) is the first token, and tokenising goes on after it |
| Text.FieldsOfJoin | internal/metrics/metrics.go:111-120 | splitting the single-space join of tokens gives back exactly those tokens, in order |
| Text.JoinEmptyIff | internal/metrics/metrics.go:120 | a join of non-empty labels is empty if and only if there are no labels |
| Text.ReplaceChar | internal/publisher/publisher.go:61 | replacing every `.` keeps the length and changes exactly the dots |
| Collections.Arrange | internal/publisher/publisher.go:60-68 | the iteration order is an enumeration of the key set, and any enumeration can be the chosen order |
| Collections.EnumerationsPermute | internal/publisher/publisher.go:60-68 | any two iteration orders of the same map are permutations of each other |
| Strconv.Atoi | internal/config/config.go:108 | a port string is accepted exactly when it is an optional `+` or `-` followed by decimal digits whose signed value lies in the 64-bit range, and the result is that value |
| Strconv.AtoiExamples | internal/config/config.go:107-109 | leading zeros and a `+` sign are accepted (`"007"` is 7, `"+5"` is 5, `"-12"` is -12); trailing letters, a lone sign and the empty string are rejected |
| Strconv.AtoiItoa | internal/config/config.go:107-110 | every 64-bit integer's decimal rendering is accepted as that integer |
| Strconv.ParseUint8 | internal/config/config.go:149 | a QoS string is accepted exactly when it is all decimal digits with value at most 255, and the result is that value |
| Strconv.ParseUint8RoundTrip | internal/config/config.go:149-150 | every byte's decimal rendering is accepted as that byte |
| Strconv.DecimalRoundTrip | internal/config/config.go:149 | reading the decimal digits of a natural number gives the number back |
| Metrics.Reading | internal/metrics/metrics.go:145-156 | a missing or empty value has no reading; any other value reads as whatever the float parser makes of it |
| Metrics.RoundHalfAwayFromZero | internal/metrics/metrics.go:87 | the result is within one half of the input, and ties go away from zero |
| Metrics.Round2 | internal/metrics/metrics.go:87 | the result is a whole number of hundredths, within half a hundredth of the input |
| Metrics.Round2Ties | internal/metrics/metrics.go:87 | a value exactly halfway between two hundredths rounds away from zero: up for a positive value, down for a negative one |
| Metrics.LoadWatts | internal/metrics/metrics.go:78-88 | 0 when the load or the nominal power has no reading; otherwise a whole number of hundredths within half a hundredth of load% × nominal |
| Metrics.BatteryRuntimeMins | internal/metrics/metrics.go:90-96 | 0 without a runtime reading; otherwise a whole number of hundredths within half a hundredth of seconds / 60 |
| Metrics.BatteryRuntimeHours | internal/metrics/metrics.go:98-104 | 0 without a runtime reading; otherwise a whole number of hundredths within half a hundredth of seconds / 3600 |
| Metrics.InputVoltageDeviationPct | internal/metrics/metrics.go:123-133 | 0 when either reading is missing or the nominal is 0; otherwise a whole number of hundredths within half a hundredth of the percentage deviation; a zero voltage gives exactly −100 |
| Metrics.ContainsToken | internal/metrics/metrics.go:137-142 | true exactly when the token is one of the tokens |
| Metrics.HasStatusToken | internal/metrics/metrics.go:136-143 | true exactly when the token is one of the white-space fields of the status (no substring matches) |
| Metrics.DecodeToken | internal/metrics/metrics.go:47-62 | a known token shows its dictionary label; an unknown one shows verbatim; a non-empty token never shows as empty |
| Metrics.DecodeTokens | internal/metrics/metrics.go:112-119 | one label per token, in token order |
| Metrics.StatusDisplay | internal/metrics/metrics.go:106-121 | the `", "` join of the decoded fields of `ups.status`; empty exactly when the status has no fields |
| Metrics.Compute | internal/metrics/metrics.go:64-76 | total; each flag holds exactly when its token is a field of the status; missing inputs give zeros, false flags and an empty display |
| Metrics.AsTopicMap | internal/metrics/metrics.go:34-44 | exactly the seven metric names as keys |
| Metrics.AsTopicMapValues | internal/metrics/metrics.go:34-44 | flags as `"true"`/`"false"` matching the record; display passed through; numbers through the float formatter |
| Metrics.MetricNamesDistinct | internal/metrics/metrics.go:34-44 | the seven metric names are distinct and are the seven topic keys |
| Metrics.StatusFromTokens | internal/metrics/metrics.go:71-72 | for any status made of tokens, each flag is token membership and the display decodes the tokens in order |
| Metrics.OnBatteryAndLowBattery | internal/metrics/metrics.go:71-72 | `"OB LB"` sets both flags |
| Metrics.UnknownTokenVerbatim | internal/metrics/metrics.go:111-120 | `"OL NEWTOKEN"` displays as `"Online, NEWTOKEN"` |
| Metrics.KnownTokenAlone | internal/metrics/metrics.go:113-120 | a status that is one known token displays as its label |
| Metrics.TwoTokens | internal/metrics/metrics.go:111-120 | a status of two fields displays their decoded labels joined by `", "` |
| Metrics.AnySeparator | internal/metrics/metrics.go:111-120 | a tab, newline or any other white-space character between two status tokens gives the same flags and the same display as a space |
| Metrics.StatusFromFields | internal/metrics/metrics.go:106-120 | the flags and the display are read off the status's tokens: a flag is set exactly when its token is among them, and the display joins their labels with `", "` |
| Metrics.OneToken | internal/metrics/metrics.go:111-120 | a status of one field displays its decoded label |
| Metrics.BlankStatus | internal/metrics/metrics.go:107-111 | an all-white-space status gives an empty display and neither flag |
| Metrics.HoursTrackMinutes | internal/metrics/metrics.go:90-104 | runtime in hours and runtime in minutes / 60 agree to within a hundredth |
| Metrics.SampleMetrics | internal/metrics/metrics.go:64-76 | the sample snapshot (OL, 8 % of 900 W, 4920 s, 242 V on 230 V) computes to 72 W, 82 min, 1.37 h, "Online", +5.22 % |
| Metrics.SampleStatus | internal/metrics/metrics.go:71-73 | the sample status "OL" sets neither flag and displays "Online" |
| Metrics.SampleNumbers | internal/metrics/metrics.go:68-74 | the sample's load, runtimes and deviation round to 72, 82, 1.37 and 5.22 |
| Metrics.ZeroVoltageIsNotGuarded | internal/metrics/metrics.go:123-133 | 0 V on 230 V nominal gives −100; 242 V on 0 V nominal gives 0 |
| Metrics.EmptyLoadIsZero | internal/metrics/metrics_test.go:267-274 | an empty `ups.load` has no reading, so the load in watts is 0 although a nominal power is set |
| Nut.VarsToMap | internal/nut/poller.go:18-24 | the key set is exactly the set of names in the snapshot, so an empty snapshot gives an empty map |
| Nut.VarsToMapLastValue | internal/nut/poller.go:20-22 | each name maps to the value of the last pair carrying that name |
| Nut.VarsToMapSize | internal/nut/poller.go:18-24 | distinct names give one entry per pair; a repeated name gives strictly fewer |
| Nut.FakePoll | internal/nut/fake.go:19-37 | the call count goes up by one on every call; the injected error wins; otherwise call k returns sequence element min(k, length) − 1, or the fixed variables when the sequence is empty |
| Nut.FakeSequenceReplay | internal/nut/fake.go:26-32 | k polls return the sequence in order, then repeat its last element |
| Nut.FakeClose | internal/nut/fake.go:40-43 | sets the closed flag, returns no error and changes nothing else |
| Nut.FakeReset | internal/nut/fake.go:46-52 | clears the variables, the sequence, the error, the call count and the closed flag |
| Nut.ClientConnect | internal/nut/client.go:38-52 | succeeds exactly when the dial succeeds and either no user name is set or authentication succeeds; success installs the connection and clears stale; failure changes nothing |
| Nut.NewClient | internal/nut/client.go:24-36 | returns a client exactly when the first connect succeeds; that client is connected, fresh and carries the given settings |
| Nut.FindUps | internal/nut/client.go:69-75 | finds the first UPS with the configured name, or reports that none has it |
| Nut.ConvertVariables | internal/nut/client.go:86-93 | one variable per upstream variable, same order, same names and values |
| Nut.ClientPoll | internal/nut/client.go:56-94 | a stale client reconnects first and a failed reconnect ends the poll; a list or fetch failure marks stale; a missing UPS leaves stale unchanged; success leaves the client connected and fresh |
| Nut.PollKeepsConnection | internal/nut/client.go:56-94 | a connected client stays connected and pollable whatever the poll outcome |
| Nut.ClientClose | internal/nut/client.go:97-104 | drops the connection, passing on the disconnect error; without a connection it does nothing |
| Nut.CloseIdempotent | internal/nut/client.go:97-104 | a second close is a no-op that returns no error |
| Nut.PollerPoll | internal/nut/poller.go:11-14 | polling the interface polls the underlying client or fake, and the poller stays ready |
| Nut.PollerClose | internal/nut/poller.go:11-14 | closing the client is exactly `Client.Close`, with its error passed on and the other fields kept; closing the fake marks it closed and reports no error |
| Publisher.VariableTopic | internal/publisher/publisher.go:61 | prefix/ups/ followed by the name with each `.` turned into `/` |
| Publisher.TopicSuffixInjective | internal/publisher/publisher.go:61-69 | under one prefix and UPS, topics are equal exactly when their suffixes are |
| Publisher.VariableTopicRoundTrip | internal/publisher/publisher.go:61 | a slash-free name is recovered from its topic by turning `/` back into `.` |
| Publisher.VariableTopicInjective | internal/publisher/publisher.go:61 | slash-free names get equal topics exactly when they are equal |
| Publisher.DottedAndSlashedNamesShareTopic | internal/publisher/publisher.go:61 | the names `a.b` and `a/b` share a topic |
| Publisher.ComputedTopicsDistinct | internal/publisher/publisher.go:69 | metric topics differ for different keys and never equal the state topic |
| Publisher.VariableNamedStateSharesStateTopic | internal/publisher/publisher.go:89-91 | a NUT variable named `state` is published on the state topic |
| Publisher.Outbox | internal/publisher/publisher.go:53-77 | one message per visited variable, then one per visited metric, then the state document last |
| Publisher.OutboxRetained | internal/publisher/publisher.go:59-76 | every message carries the configured retain flag |
| Publisher.OutboxVariables | internal/publisher/publisher.go:60-65 | the i-th message is the i-th visited variable's raw value on its topic |
| Publisher.OutboxComputed | internal/publisher/publisher.go:68-73 | the variable group is followed by each visited metric's payload on its computed topic, in order |
| Publisher.VariableMessages | internal/publisher/publisher.go:60-65 | the variable group has one message per name, in iteration order |
| Publisher.ComputedMessages | internal/publisher/publisher.go:68-73 | the computed group has one message per metric, in iteration order |
| Publisher.OutboxGroups | internal/publisher/publisher.go:59-76 | the message set is the variable group, then the computed group, then the state message |
| Publisher.OutboxPermute | internal/publisher/publisher.go:59-76 | permuting the orders permutes the messages inside each group and keeps the state message |
| Publisher.OutboxOrderIndependent | internal/publisher/publisher.go:59-76 | two iteration orders give the same groups up to order inside each group, and the same state message |
| Publisher.EveryVariablePublished | internal/publisher/publisher.go:60-65 | every snapshot variable appears among the variable messages with its topic, raw value and retain flag |
| Publisher.FormatOffline | internal/publisher/publisher.go:80-86 | the offline payload says not online, stamped with the given time |
| Publisher.FakePublish | internal/publisher/fake.go:12-18 | an injected error is returned and nothing is recorded; otherwise the message is appended |
| Publisher.FakeFind | internal/publisher/fake.go:27-34 | returns the first recorded message on the topic, or the zero message and false when none is on it |
| Publisher.FakeClose | internal/publisher/fake.go:21-24 | sets the closed flag and changes nothing else |
| Publisher.FakeReset | internal/publisher/fake.go:37-41 | clears the messages, the injected error and the closed flag |
| Publisher.Publish | internal/publisher/publisher.go:22-25 | the fake behaves as `FakePublisher.Publish`; the broker records the attempt and consumes the next verdict |
| Publisher.Close | internal/publisher/publisher.go:22-25 | closing returns no error and marks the publisher closed |
| Publisher.PublishSeq | internal/publisher/publisher.go:59-76 | stops at the first error after at least one attempt; without an error every message was attempted |
| Publisher.PublishSeqBroker | internal/publisher/publisher.go:59-76 | against the broker exactly a prefix of the messages is attempted, every attempt but the last was accepted, and an error is the last attempt's verdict |
| Publisher.PublishSeqFake | internal/publisher/fake.go:12-18 | into an error-free fake every message is appended in order |
| Publisher.PublishSeqFakeFails | internal/publisher/publisher.go:62-64 | with an injected error the first publish fails and nothing further is attempted |
| Publisher.PublishAll | internal/publisher/publisher.go:53-77 | a successful cycle makes exactly variables + 7 + 1 publishes; a failed one makes no more |
| Publisher.PublishAllIntoFake | internal/publisher/publisher.go:94-114 | into a fresh fake the outbox is recorded unchanged, state document last |
| Config.UnmarshalText | internal/config/config.go:22-29 | fails exactly when the text is not a duration; on failure the receiver is unchanged and the error names the text |
| Config.ApplyEnvOverrides | internal/config/config.go:103-158 | each field takes its variable when set and, for port, poll interval and QoS, valid; retained becomes true only for `true` or `1` |
| Config.NoOverridesIsIdentity | internal/config/config.go:104-157 | with no variable set the configuration is unchanged |
| Config.OverridesIdempotent | internal/config/config.go:103-158 | applying the overrides twice is the same as once |
| Config.InvalidNumbersKeepValue | internal/config/config.go:107-154 | an unparseable port, poll interval or QoS keeps the previous value |
| Config.CanonicalNumbersOverride | internal/config/config.go:107-151 | the decimal rendering of any valid port and QoS overrides to exactly that value |
| Config.QosOutOfRangeKept | internal/config/config.go:148-154 | `256` is not a QoS and leaves the previous one |
| Config.ReadFirstFile | internal/config/config.go:66-78 | when every path is empty or missing the base configuration comes back |
| Config.FirstUnskippedDecides | internal/config/config.go:66-78 | the first path that is neither empty nor missing alone decides: decoded if it exists, an error if stat fails |
| Config.Load | internal/config/config.go:63-82 | with no file found, the defaults plus the environment overrides |
| Config.LoadFromFile | internal/config/config.go:66-81 | the first path that is neither empty nor missing decides: a decoded file over the defaults, then the environment overrides; a decode error names that path as a parse failure; any other stat error names it as a check failure |
| Config.LoadDefaults | internal/config/config.go:84-100 | without files or variables the result is the documented defaults |
| App.NextBackoff | cmd/ups-mqtt/main.go:110-113 | each step doubles the wait, or holds it at the 60 s cap |
| App.BackoffAfter | cmd/ups-mqtt/main.go:94-113 | every wait is positive and at most 60 s |
| App.BackoffClosedForm | cmd/ups-mqtt/main.go:94-113 | wait k is min(2^k, 60) seconds |
| App.BackoffMonotone | cmd/ups-mqtt/main.go:110-113 | the waits never decrease |
| App.BackoffCapped | cmd/ups-mqtt/main.go:110-113 | from the seventh wait on every wait is 60 s |
| App.BackoffSchedule | cmd/ups-mqtt/main.go:91-95 | the waits are 1, 2, 4, 8, 16, 32, 60, 60 seconds |
| App.ConnectFrom | cmd/ups-mqtt/main.go:97-114 | the waits follow the backoff schedule, at most one per dial |
| App.ConnectFromDials | cmd/ups-mqtt/main.go:97-107 | each wait follows a failed dial; a connection is the dial right after the last wait; giving up means every dial failed |
| App.ConnectFromCancels | cmd/ups-mqtt/main.go:104-108 | only the last wait can have been cancelled; start-up is interrupted exactly when it was |
| App.ConnectNut | cmd/ups-mqtt/main.go:93-115 | the waits follow the schedule from 1 s, and a returned client is connected, fresh and names the configured UPS |
| App.PublishConfigOf | cmd/ups-mqtt/main.go:127-131 | the routing takes the topic prefix, the UPS name and the retain flag from the configuration |
| App.Names | cmd/ups-mqtt/main.go:124 | the snapshot's names are exactly the keys of its map |
| App.DoPoll | cmd/ups-mqtt/main.go:118-136 | the poller is polled once; a poll failure is reported and leaves the publisher untouched |
| App.CycleOutbox | cmd/ups-mqtt/main.go:124-132 | a cycle sends one message per distinct variable plus eight, state document last, all with the configured retain flag |
| App.DoPollSends | cmd/ups-mqtt/main.go:124-135 | after a successful poll the cycle publishes exactly its message set in order and reports the first publish error |
| App.DoPollIntoFake | cmd/ups-mqtt/main.go:118-136 | a successful poll into an error-free fake appends the whole message set and reports no error |
| App.DoPollPublishFails | cmd/ups-mqtt/main.go:132-134 | a failing publisher makes the cycle report that publish error and record nothing |
| App.DoPollFailureSilent | cmd/ups-mqtt/main.go:119-122 | a failed poll publishes nothing and reports an error |
| App.DoPollBroker | cmd/ups-mqtt/main.go:118-136 | against the broker a cycle only appends attempts, and a successful one appends its whole message set |
| App.Ticks | cmd/ups-mqtt/main.go:58-68 | one cycle per tick whatever the previous cycles did, with one outcome per tick; `App.TicksSplit` and `App.TicksAt` say which cycle each outcome comes from |
| App.TicksSplit | cmd/ups-mqtt/main.go:58-68 | running the ticks `a + b` is running `a`, then `b` from the poller and publisher `a` left, with the outcomes concatenated |
| App.TicksAt | cmd/ups-mqtt/main.go:58-68 | outcome `i` is the error of one `doPoll` on the state the first `i` ticks left, and the loop is still going after it |
| App.ListFailureGoesStale | internal/nut/client.go:63-67 | a connected client that cannot list the UPSes goes stale, reports the list failure and publishes nothing |
| App.ReconnectPolls | internal/nut/client.go:56-94 | a stale client whose reconnect succeeds reads the configured UPS's variables and is connected and fresh again |
| App.DoPollAcceptAll | cmd/ups-mqtt/main.go:118-135 | against a broker that accepts every publish a successful poll ends the cycle without error |
| App.ReconnectPublishes | cmd/ups-mqtt/main.go:118-135 | a stale client that reconnects polls, and the broker receives exactly that cycle's message set |
| App.StaleThenReconnect | cmd/ups-mqtt/main.go:58-68 | a list failure on tick one and a reconnect on tick two give the outcomes "list failed" then "ok", and the broker receives exactly tick two's messages |
| App.TicksTwo | cmd/ups-mqtt/main.go:58-68 | two ticks are two cycles, the second on what the first left |
| App.TicksKeepBroker | cmd/ups-mqtt/main.go:58-68 | against the broker the tick loop only appends attempts |
| App.OfflineMessage | cmd/ups-mqtt/main.go:79-83 | the offline announcement goes to the state topic, retained, with the offline payload |
| App.Serve | cmd/ups-mqtt/main.go:58-89 | one outcome per tick; at exit the NUT side and the publisher are both closed |
| App.ShutdownOrder | cmd/ups-mqtt/main.go:73-86 | after the tick loop, the final cycle's attempts and then the offline announcement, last of all; a successful final cycle sits right before it |
| App.ServeEndsOffline | cmd/ups-mqtt/main.go:78-86 | against the broker serving ends with the offline announcement on a closed session whose last will is unchanged |
| App.Main | cmd/ups-mqtt/main.go:18-89 | an interrupted start-up publishes nothing and closes the session; a non-positive poll interval ends in the ticker's panic with both sessions closed and nothing published; a served run had a positive interval and ends with a retained offline announcement on the last will's topic |
| App.ZeroIntervalLoads | internal/config/config.go:123-129 | `UPS_MQTT_NUT_POLL_INTERVAL=0s` passes the loader as a zero interval |
| App.ZeroIntervalPanics | cmd/ups-mqtt/main.go:53 | with that interval and a first dial that succeeds, `main` ends in the ticker's panic having published nothing, so no offline announcement is sent |
| App.MainChecked | cmd/ups-mqtt/main.go:53 | never panics in the ticker: refuses a non-positive interval before connecting, and otherwise runs exactly as `main` |
| App.CheckedConnectedServes | cmd/ups-mqtt/main.go:53-89 | under the corrected `main`, a run that reaches NUT is refused for a non-positive interval or served to the offline announcement on the will's topic |

## Left out

- IEEE-754 arithmetic. Numbers are reals and `math.Round` is modelled exactly on them. `strconv.ParseFloat` and `formatFloat` are function parameters, so exact decimal renderings such as `"1.37"` are not proved.
- Metrics.LoadWatts, Metrics.BatteryRuntimeMins, Metrics.BatteryRuntimeHours, Metrics.InputVoltageDeviationPct: the contracts say the result is a whole number of hundredths within half a hundredth of the exact real quotient. They do not state the float64 result, because float64 is not modelled.
- Publisher.PublishAll: never fails while encoding. In the Go code, `json.Marshal` rejects NaN and infinite metrics (internal/publisher/publisher.go:106-109). The model's numbers are reals, so that branch has no counterpart.
- JSON encoding in general. State and presence payloads are records, not their JSON text. Variable and metric payloads are strings.
- Wall-clock time. `time.Now` becomes a timestamp parameter: one for the last will, one for each cycle's state document and one for the shutdown announcement.
- internal/publisher/real.go, the paho MQTT client.
  - Modelled: the broker is a sink that records attempted messages and takes each publish verdict from a parameter sequence.
  - Modelled: connect errors and the registered last will.
  - Not modelled: QoS, keep-alive, auto-reconnect, the disconnect grace period, TLS and CA certificate loading.
- go.nut's network calls, which become outcome parameters. The formatting of `fmt.Sprintf("%v")` on upstream values is taken as already done: upstream values are strings.
- Concurrency and timers: `signal.NotifyContext`, `time.NewTicker`, `time.After` and `select`. Only the panic of `time.NewTicker` on a non-positive interval is kept (see Findings). The model takes the order of events: dial outcomes with a cancellation flag per wait, then a finite run of ticks before cancellation. When a tick and cancellation are ready together, Go picks one at random; every such choice is one of these event orders.
- App.ConnectNut: the Go loop retries forever. The model stops when its finite list of dial outcomes runs out and reports `StillDialling`.
- Nut.ClientPoll: requires a stale client or a live connection. Polling a closed, non-stale client dereferences a nil connection in Go.
- Logging (`log.Printf`, `log.Fatalf`). A fatal exit becomes an `App.Exit` value, and logged errors are returned as values.
- Error message text. Errors are constructors that carry their cause; the `fmt.Errorf` wrapping is not modelled.
- Copy semantics of `FakePoller.Poll` (internal/nut/fake.go:34-36). Sequences are immutable values, so a caller cannot alias the fake's data.
- Command-line flag parsing. The `-config` path is a parameter.
- TOML decoding, `os.Stat`, `os.Getenv` and `time.ParseDuration`, which become parameters. The environment is a map where an absent key reads as empty, as `os.Getenv` does.
- Invalid UTF-8. Go's `strings.Fields` walks the bytes of a status as UTF-8, while the model's strings are sequences of characters, so a malformed byte sequence cannot be written down. Nothing is lost: Go decodes an invalid byte as U+FFFD, which is not white space, so it stays inside its token exactly as a non-space character does here.

## Findings

| source | as written | input that shows it | evidently intended | confidence | as-written member | corrected member |
|---|---|---|---|---|---|---|
| cmd/ups-mqtt/main.go:53 | the poll interval reaches `time.NewTicker` unchecked; neither the TOML file nor `UPS_MQTT_NUT_POLL_INTERVAL` (internal/config/config.go:123-129) is checked for sign, and `time.NewTicker` panics on a non-positive duration; the deferred closes then disconnect cleanly, so neither the offline announcement nor the last will is published | `UPS_MQTT_NUT_POLL_INTERVAL=0s`, no config file, NUT reachable | a non-positive interval is refused at start-up, before connecting, like any other bad configuration | not executed | App.ZeroIntervalPanics | App.MainChecked |
