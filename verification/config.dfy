/** Package `internal/config`: built-in defaults, an optional TOML file and
    `UPS_MQTT_*` environment overrides, merged in that order.

    The file system, the TOML decoder and `time.ParseDuration` are foreign:
    each is an oracle parameter. The environment is a map in which an unset
    variable and an empty one read the same, as `os.Getenv` makes them. */
module Config {
  import opened Wrappers
  import Strconv

  /** Nanoseconds per second, the unit of `time.Duration`. */
  const Second: int := 1_000_000_000

  /** `time.ParseDuration`: a length in nanoseconds, or `None` on error. */
  type DurationParser = string -> Option<int>

  /** An unsigned 8-bit integer (`byte`). */
  type Byte = q: nat | q <= Strconv.MaxUint8

  /** `Duration`: a `time.Duration` that decodes from text. */
  datatype Duration = Duration(nanos: int)

  /** `NUTConfig`. */
  datatype NutConfig = NutConfig(
    host: string,
    port: int,
    username: string,
    password: string,
    upsName: string,
    pollInterval: Duration)

  /** `MQTTConfig`. */
  datatype MqttConfig = MqttConfig(
    broker: string,
    username: string,
    password: string,
    clientId: string,
    topicPrefix: string,
    retained: bool,
    qos: Byte,
    tlsCaCert: string)

  /** `Config`: both sections. */
  datatype Config = Config(nut: NutConfig, mqtt: MqttConfig)

  /** `Duration.UnmarshalText`: a parse error leaves the receiver as it was
      and reports the offending text; otherwise the parsed length replaces
      it. */
  function UnmarshalText(d: Duration, text: string, parse: DurationParser): (r: (Duration, Option<string>))
    ensures r.1.Some? <==> parse(text).None?
    ensures r.1.Some? ==> r.0 == d && r.1.value == text
    ensures r.1.None? ==> r.0.nanos == parse(text).value
  {
    match parse(text)
    case None => (d, Some(text))
    case Some(n) => (Duration(n), None)
  }

  /** `defaults`: the configuration before any file or variable is read. */
  const Defaults: Config := Config(
    NutConfig("localhost", 3493, "", "", "cyberpower", Duration(30 * Second)),
    MqttConfig("tcp://localhost:1883", "", "", "ups-mqtt", "ups", true, 1, ""))

  // ---------------------------------------------------------------------------
  // Environment overrides
  // ---------------------------------------------------------------------------

  /** The process environment. */
  type Env = map<string, string>

  /** `os.Getenv`: the empty string for an unset variable. */
  function Getenv(env: Env, key: string): string {
    if key in env then env[key] else ""
  }

  const NutHostVar := "UPS_MQTT_NUT_HOST"
  const NutPortVar := "UPS_MQTT_NUT_PORT"
  const NutUsernameVar := "UPS_MQTT_NUT_USERNAME"
  const NutPasswordVar := "UPS_MQTT_NUT_PASSWORD"
  const NutUpsNameVar := "UPS_MQTT_NUT_UPS_NAME"
  const NutPollIntervalVar := "UPS_MQTT_NUT_POLL_INTERVAL"
  const MqttBrokerVar := "UPS_MQTT_MQTT_BROKER"
  const MqttUsernameVar := "UPS_MQTT_MQTT_USERNAME"
  const MqttPasswordVar := "UPS_MQTT_MQTT_PASSWORD"
  const MqttClientIdVar := "UPS_MQTT_MQTT_CLIENT_ID"
  const MqttTopicPrefixVar := "UPS_MQTT_MQTT_TOPIC_PREFIX"
  const MqttRetainedVar := "UPS_MQTT_MQTT_RETAINED"
  const MqttQosVar := "UPS_MQTT_MQTT_QOS"
  const MqttTlsCaCertVar := "UPS_MQTT_MQTT_TLS_CA_CERT"

  /** The fourteen variables the loader reads. */
  const OverrideVars: set<string> := {
    NutHostVar, NutPortVar, NutUsernameVar, NutPasswordVar, NutUpsNameVar, NutPollIntervalVar,
    MqttBrokerVar, MqttUsernameVar, MqttPasswordVar, MqttClientIdVar, MqttTopicPrefixVar,
    MqttRetainedVar, MqttQosVar, MqttTlsCaCertVar}

  /** A variable takes effect only when it is set to a non-empty value. */
  predicate IsSet(env: Env, key: string) {
    Getenv(env, key) != ""
  }

  /** How `UPS_MQTT_MQTT_RETAINED` reads: only "true" and "1" mean true. */
  predicate RetainedFlag(v: string) {
    v == "true" || v == "1"
  }

  /** One string field: a set variable replaces the value. */
  function StringOverride(env: Env, key: string, current: string): string {
    if IsSet(env, key) then env[key] else current
  }

  /** The NUT section with its overrides applied. */
  function NutOverrides(c: NutConfig, env: Env, parse: DurationParser): NutConfig {
    var port := Strconv.Atoi(Getenv(env, NutPortVar));
    var interval := parse(Getenv(env, NutPollIntervalVar));
    NutConfig(
      StringOverride(env, NutHostVar, c.host),
      if IsSet(env, NutPortVar) && port.Some? then port.value else c.port,
      StringOverride(env, NutUsernameVar, c.username),
      StringOverride(env, NutPasswordVar, c.password),
      StringOverride(env, NutUpsNameVar, c.upsName),
      if IsSet(env, NutPollIntervalVar) && interval.Some? then Duration(interval.value) else c.pollInterval)
  }

  /** The MQTT section with its overrides applied. */
  function MqttOverrides(c: MqttConfig, env: Env): MqttConfig {
    var qos := Strconv.ParseUint8(Getenv(env, MqttQosVar));
    MqttConfig(
      StringOverride(env, MqttBrokerVar, c.broker),
      StringOverride(env, MqttUsernameVar, c.username),
      StringOverride(env, MqttPasswordVar, c.password),
      StringOverride(env, MqttClientIdVar, c.clientId),
      StringOverride(env, MqttTopicPrefixVar, c.topicPrefix),
      if IsSet(env, MqttRetainedVar) then RetainedFlag(env[MqttRetainedVar]) else c.retained,
      if IsSet(env, MqttQosVar) && qos.Some? then qos.value else c.qos,
      StringOverride(env, MqttTlsCaCertVar, c.tlsCaCert))
  }

  /** `applyEnvOverrides`. Every field has its own variable. A string field
      takes the variable's value when it is set; the port, poll interval and
      QoS take it only when it also parses (a signed 64-bit integer, a Go
      duration, an unsigned 8-bit integer), and keep their value otherwise;
      a set retain variable decides the flag by `RetainedFlag`. */
  function ApplyEnvOverrides(c: Config, env: Env, parse: DurationParser): (r: Config)
    ensures r.nut.host == (if IsSet(env, NutHostVar) then env[NutHostVar] else c.nut.host)
    ensures r.nut.username == (if IsSet(env, NutUsernameVar) then env[NutUsernameVar] else c.nut.username)
    ensures r.nut.password == (if IsSet(env, NutPasswordVar) then env[NutPasswordVar] else c.nut.password)
    ensures r.nut.upsName == (if IsSet(env, NutUpsNameVar) then env[NutUpsNameVar] else c.nut.upsName)
    ensures r.nut.port == (if IsSet(env, NutPortVar) && Strconv.Atoi(env[NutPortVar]).Some?
                           then Strconv.Atoi(env[NutPortVar]).value else c.nut.port)
    ensures r.nut.pollInterval == (if IsSet(env, NutPollIntervalVar) && parse(env[NutPollIntervalVar]).Some?
                                   then Duration(parse(env[NutPollIntervalVar]).value) else c.nut.pollInterval)
    ensures r.mqtt.broker == (if IsSet(env, MqttBrokerVar) then env[MqttBrokerVar] else c.mqtt.broker)
    ensures r.mqtt.username == (if IsSet(env, MqttUsernameVar) then env[MqttUsernameVar] else c.mqtt.username)
    ensures r.mqtt.password == (if IsSet(env, MqttPasswordVar) then env[MqttPasswordVar] else c.mqtt.password)
    ensures r.mqtt.clientId == (if IsSet(env, MqttClientIdVar) then env[MqttClientIdVar] else c.mqtt.clientId)
    ensures r.mqtt.topicPrefix == (if IsSet(env, MqttTopicPrefixVar) then env[MqttTopicPrefixVar] else c.mqtt.topicPrefix)
    ensures r.mqtt.retained == (if IsSet(env, MqttRetainedVar) then RetainedFlag(env[MqttRetainedVar]) else c.mqtt.retained)
    ensures r.mqtt.qos == (if IsSet(env, MqttQosVar) && Strconv.ParseUint8(env[MqttQosVar]).Some?
                           then Strconv.ParseUint8(env[MqttQosVar]).value else c.mqtt.qos)
    ensures r.mqtt.tlsCaCert == (if IsSet(env, MqttTlsCaCertVar) then env[MqttTlsCaCertVar] else c.mqtt.tlsCaCert)
  {
    Config(NutOverrides(c.nut, env, parse), MqttOverrides(c.mqtt, env))
  }

  /** Variables that are unset or empty change nothing. */
  lemma NoOverridesIsIdentity(c: Config, env: Env, parse: DurationParser)
    requires forall key :: key in OverrideVars ==> !IsSet(env, key)
    ensures ApplyEnvOverrides(c, env, parse) == c
  {
  }

  /** Applying the same environment twice is the same as applying it once:
      every field ends up depending on the environment alone or on nothing. */
  lemma OverridesIdempotent(c: Config, env: Env, parse: DurationParser)
    ensures ApplyEnvOverrides(ApplyEnvOverrides(c, env, parse), env, parse) ==
            ApplyEnvOverrides(c, env, parse)
  {
  }

  /** A set variable that fails to parse keeps the previous value, whatever
      that value was. */
  lemma InvalidNumbersKeepValue(c: Config, env: Env, parse: DurationParser)
    requires IsSet(env, NutPortVar) && Strconv.Atoi(env[NutPortVar]).None?
    requires IsSet(env, NutPollIntervalVar) && parse(env[NutPollIntervalVar]).None?
    requires IsSet(env, MqttQosVar) && Strconv.ParseUint8(env[MqttQosVar]).None?
    ensures ApplyEnvOverrides(c, env, parse).nut.port == c.nut.port
    ensures ApplyEnvOverrides(c, env, parse).nut.pollInterval == c.nut.pollInterval
    ensures ApplyEnvOverrides(c, env, parse).mqtt.qos == c.mqtt.qos
  {
  }

  /** Any decimal port in the 64-bit range given as its canonical text is
      taken over, and every byte value is accepted as QoS. */
  lemma CanonicalNumbersOverride(c: Config, parse: DurationParser, port: int, qos: Byte)
    requires Strconv.MinInt64 <= port <= Strconv.MaxInt64
    ensures var env := map[NutPortVar := Strconv.Itoa(port), MqttQosVar := Strconv.NatToDecimal(qos)];
      var r := ApplyEnvOverrides(c, env, parse);
      r.nut.port == port && r.mqtt.qos == qos
  {
    Strconv.AtoiItoa(port);
    Strconv.ParseUint8RoundTrip(qos);
    assert Strconv.Itoa(port) != "" by {
      if port < 0 {
        assert |Strconv.Itoa(port)| > 0;
      }
    }
  }

  /** A QoS above 255 is rejected and the previous value kept. */
  lemma QosOutOfRangeKept(c: Config, parse: DurationParser)
    ensures ApplyEnvOverrides(c, map[MqttQosVar := "256"], parse).mqtt.qos == c.mqtt.qos
  {
    assert Strconv.IsDecimal("256");
    assert Strconv.DecimalValue("256") == 256 by {
      assert "256"[..2] == "25" && "25"[..1] == "2" && "2"[..0] == "";
    }
  }

  // ---------------------------------------------------------------------------
  // Load
  // ---------------------------------------------------------------------------

  /** What `os.Stat` says about a path. */
  datatype StatResult = Exists | NotExist | StatError(cause: string)

  /** `toml.DecodeFile(path, cfg)`: the configuration with the file's values
      laid over it, or a decoding error. */
  type Decoder = (string, Config) -> Result<Config, string>

  /** Why `Load` fails. */
  datatype LoadError = ParseFailed(path: string, cause: string) | CheckFailed(path: string, cause: string)

  /** A path the loop passes over: empty, or absent from the file system. */
  predicate Skipped(path: string, stat: string -> StatResult) {
    path == "" || stat(path) == NotExist
  }

  /** The file-reading part of `Load`: the first non-empty path that exists
      is decoded over `base` and ends the search; empty and missing paths are
      skipped; any other stat error ends the search with an error. */
  function ReadFirstFile(paths: seq<string>, stat: string -> StatResult, decode: Decoder,
                         base: Config): (r: Result<Config, LoadError>)
    ensures (forall i :: 0 <= i < |paths| ==> Skipped(paths[i], stat)) ==> r == Ok(base)
    decreases |paths|
  {
    if paths == [] then Ok(base)
    else if paths[0] == "" then ReadFirstFile(paths[1..], stat, decode, base)
    else match stat(paths[0])
      case Exists =>
        (match decode(paths[0], base)
         case Ok(c) => Ok(c)
         case Err(cause) => Err(ParseFailed(paths[0], cause)))
      case NotExist => ReadFirstFile(paths[1..], stat, decode, base)
      case StatError(cause) => Err(CheckFailed(paths[0], cause))
  }

  /** The search stops at the first path that is neither skipped: it decides
      the outcome on its own, and later paths are never looked at. */
  lemma {:induction false} FirstUnskippedDecides(paths: seq<string>, stat: string -> StatResult,
                                                 decode: Decoder, base: Config, i: nat)
    requires i < |paths| && !Skipped(paths[i], stat)
    requires forall j :: 0 <= j < i ==> Skipped(paths[j], stat)
    ensures ReadFirstFile(paths, stat, decode, base) == ReadFirstFile([paths[i]], stat, decode, base)
    ensures stat(paths[i]).Exists? ==>
      ReadFirstFile(paths, stat, decode, base) ==
        (match decode(paths[i], base)
         case Ok(c) => Ok(c)
         case Err(cause) => Err(ParseFailed(paths[i], cause)))
    ensures stat(paths[i]).StatError? ==>
      ReadFirstFile(paths, stat, decode, base) == Err(CheckFailed(paths[i], stat(paths[i]).cause))
    decreases i
  {
    if i > 0 {
      assert Skipped(paths[0], stat);
      FirstUnskippedDecides(paths[1..], stat, decode, base, i - 1);
    }
  }

  /** `Load`: defaults, then the first existing file, then the environment. */
  function Load(paths: seq<string>, stat: string -> StatResult, decode: Decoder, env: Env,
                parse: DurationParser): (r: Result<Config, LoadError>)
    ensures (forall i :: 0 <= i < |paths| ==> Skipped(paths[i], stat)) ==>
      r == Ok(ApplyEnvOverrides(Defaults, env, parse))
  {
    match ReadFirstFile(paths, stat, decode, Defaults)
    case Ok(c) => Ok(ApplyEnvOverrides(c, env, parse))
    case Err(e) => Err(e)
  }

  /** When the first path that is neither empty nor missing exists and
      decodes, `Load` returns that file's configuration with the environment
      applied on top; a decoding error or a failed stat is returned as is,
      and the environment is never read. */
  lemma LoadFromFile(paths: seq<string>, stat: string -> StatResult, decode: Decoder, env: Env,
                     parse: DurationParser, i: nat)
    requires i < |paths| && !Skipped(paths[i], stat)
    requires forall j :: 0 <= j < i ==> Skipped(paths[j], stat)
    ensures stat(paths[i]).Exists? && decode(paths[i], Defaults).Ok? ==>
      Load(paths, stat, decode, env, parse) == Ok(ApplyEnvOverrides(decode(paths[i], Defaults).value, env, parse))
    ensures stat(paths[i]).Exists? && decode(paths[i], Defaults).Err? ==>
      Load(paths, stat, decode, env, parse) == Err(ParseFailed(paths[i], decode(paths[i], Defaults).error))
    ensures stat(paths[i]).StatError? ==>
      Load(paths, stat, decode, env, parse) == Err(CheckFailed(paths[i], stat(paths[i]).cause))
  {
    FirstUnskippedDecides(paths, stat, decode, Defaults, i);
  }

  /** Loading with no files and an environment without `UPS_MQTT_*` values
      yields the built-in defaults: NUT on localhost:3493 for the UPS
      `cyberpower`, polled every 30 s; MQTT at tcp://localhost:1883 as
      client `ups-mqtt` under prefix `ups`, retained, QoS 1. */
  lemma LoadDefaults(paths: seq<string>, stat: string -> StatResult, decode: Decoder, env: Env,
                     parse: DurationParser)
    requires forall i :: 0 <= i < |paths| ==> Skipped(paths[i], stat)
    requires forall key :: key in OverrideVars ==> !IsSet(env, key)
    ensures Load(paths, stat, decode, env, parse) == Ok(Defaults)
    ensures Defaults.nut.host == "localhost" && Defaults.nut.port == 3493
    ensures Defaults.nut.upsName == "cyberpower" && Defaults.nut.pollInterval.nanos == 30 * Second
    ensures Defaults.mqtt.broker == "tcp://localhost:1883" && Defaults.mqtt.clientId == "ups-mqtt"
    ensures Defaults.mqtt.topicPrefix == "ups" && Defaults.mqtt.retained && Defaults.mqtt.qos == 1
  {
    NoOverridesIsIdentity(Defaults, env, parse);
  }
}
