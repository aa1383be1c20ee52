/** The derived-metrics transform of `internal/metrics`: a total function
    from a snapshot of NUT variables (name to string value) to a fixed record
    of seven metrics.

    Floating point is modelled with exact reals. `strconv.ParseFloat` is an
    oracle (`FloatParser`): the model only knows that it either yields a
    number or fails. `math.Round` (half away from zero) is modelled exactly on
    reals, so rounding error of IEEE-754 arithmetic is not part of the model. */
module Metrics {
  import opened Wrappers
  import Text
  import Collections

  /** A snapshot of NUT variables, as `map[string]string`. */
  type Vars = map<string, string>

  /** `strconv.ParseFloat(s, 64)`: a number, or `None` when it reports an error. */
  type FloatParser = string -> Option<real>

  /** `strconv.FormatFloat(v, 'f', -1, 64)`: the shortest decimal rendering. */
  type FloatFormatter = real -> string

  /** Values derived from raw NUT variables (the Go struct `Metrics`). */
  datatype Metrics = Metrics(
    loadWatts: real,
    batteryRuntimeMins: real,
    batteryRuntimeHours: real,
    onBattery: bool,
    lowBattery: bool,
    statusDisplay: string,
    inputVoltageDeviationPct: real)

  // NUT variables the transform reads.
  const UpsLoad := "ups.load"
  const RealPowerNominal := "ups.realpower.nominal"
  const BatteryRuntime := "battery.runtime"
  const UpsStatus := "ups.status"
  const InputVoltage := "input.voltage"
  const InputVoltageNominal := "input.voltage.nominal"

  // Canonical metric names: JSON field names and `computed/` topic suffixes.
  const LoadWattsKey := "load_watts"
  const BatteryRuntimeMinsKey := "battery_runtime_mins"
  const BatteryRuntimeHoursKey := "battery_runtime_hours"
  const OnBatteryKey := "on_battery"
  const LowBatteryKey := "low_battery"
  const StatusDisplayKey := "status_display"
  const InputVoltageDeviationPctKey := "input_voltage_deviation_pct"

  /** The seven metric names, in the order the struct declares its fields. */
  const MetricNames: seq<string> := [
    LoadWattsKey, BatteryRuntimeMinsKey, BatteryRuntimeHoursKey, OnBatteryKey,
    LowBatteryKey, StatusDisplayKey, InputVoltageDeviationPctKey]

  /** NUT status tokens and their human-readable labels (`statusTokens`). */
  const StatusLabels: map<string, string> := map[
    "OL" := "Online",
    "OB" := "On Battery",
    "LB" := "Low Battery",
    "HB" := "High Battery",
    "RB" := "Replace Battery",
    "CHRG" := "Charging",
    "DISCHRG" := "Discharging",
    "BYPASS" := "Bypass",
    "CAL" := "Calibrating",
    "OFF" := "Offline",
    "OVER" := "Overloaded",
    "TRIM" := "Trimming",
    "BOOST" := "Boosting",
    "FSD" := "Forced Shutdown"]

  /** Go's map index `vars[name]`: the empty string when the name is absent. */
  function Get(vars: Vars, name: string): string {
    if name in vars then vars[name] else ""
  }

  /** `parseFloat`: the empty string is rejected before the parser is asked. */
  function ParseFloat(s: string, parse: FloatParser): Option<real> {
    if s == "" then None else parse(s)
  }

  /** The number stored under `name`, if present and parseable: a missing
      or empty value has none, any other value is whatever the parser makes
      of it. */
  function Reading(vars: Vars, name: string, parse: FloatParser): (r: Option<real>)
    ensures name !in vars ==> r == None
    ensures Get(vars, name) == "" ==> r == None
    ensures Get(vars, name) != "" ==> r == parse(vars[name])
  {
    ParseFloat(Get(vars, name), parse)
  }

  /** `math.Round`: the nearest integer, halves rounded away from zero. */
  function RoundHalfAwayFromZero(x: real): (n: int)
    ensures x - 1.0 / 2.0 <= n as real <= x + 1.0 / 2.0
    ensures n as real - x == 1.0 / 2.0 ==> x > 0.0
    ensures x - n as real == 1.0 / 2.0 ==> x < 0.0
  {
    if x >= 0.0 then (x + 1.0 / 2.0).Floor else -((-x + 1.0 / 2.0).Floor)
  }

  /** `math.Round(x*100) / 100`: `x` rounded to two decimal places. */
  function Round2(x: real): (r: real)
    ensures -1.0 / 200.0 <= r - x <= 1.0 / 200.0
    ensures (r * 100.0).Floor as real == r * 100.0
  {
    var n := RoundHalfAwayFromZero(x * 100.0);
    assert (n as real / 100.0 - x) * 100.0 == n as real - x * 100.0;
    n as real / 100.0
  }

  /** A value exactly halfway between two hundredths rounds away from zero:
      up when positive, down when negative. */
  lemma Round2Ties(x: real)
    ensures Round2(x) - x == 1.0 / 200.0 ==> x > 0.0
    ensures x - Round2(x) == 1.0 / 200.0 ==> x < 0.0
  {
    var n := RoundHalfAwayFromZero(x * 100.0);
    assert Round2(x) == n as real / 100.0;
    assert (Round2(x) - x) * 100.0 == n as real - x * 100.0;
  }

  /** A whole number is already rounded. */
  lemma RoundWhole(k: int)
    ensures Round2(k as real) == k as real
  {
    assert RoundHalfAwayFromZero(k as real * 100.0) == k * 100;
  }

  /** `computeLoadWatts`: load percentage times real-power nominal, in watts. */
  function LoadWatts(vars: Vars, parse: FloatParser): (w: real)
    ensures Reading(vars, UpsLoad, parse).None? ==> w == 0.0
    ensures Reading(vars, RealPowerNominal, parse).None? ==> w == 0.0
    ensures Reading(vars, UpsLoad, parse).Some? && Reading(vars, RealPowerNominal, parse).Some? ==>
      var load := Reading(vars, UpsLoad, parse).value;
      var nominal := Reading(vars, RealPowerNominal, parse).value;
      -1.0 / 200.0 <= w - load * nominal / 100.0 <= 1.0 / 200.0
    ensures (w * 100.0).Floor as real == w * 100.0
  {
    match Reading(vars, UpsLoad, parse)
    case None => 0.0
    case Some(load) =>
      match Reading(vars, RealPowerNominal, parse)
      case None => 0.0
      case Some(nominal) => Round2(load / 100.0 * nominal)
  }

  /** `computeBatteryRuntimeMins`: battery runtime (seconds) in minutes. */
  function BatteryRuntimeMins(vars: Vars, parse: FloatParser): (m: real)
    ensures Reading(vars, BatteryRuntime, parse).None? ==> m == 0.0
    ensures Reading(vars, BatteryRuntime, parse).Some? ==>
      -1.0 / 200.0 <= m - Reading(vars, BatteryRuntime, parse).value / 60.0 <= 1.0 / 200.0
    ensures (m * 100.0).Floor as real == m * 100.0
  {
    match Reading(vars, BatteryRuntime, parse)
    case None => 0.0
    case Some(runtime) => Round2(runtime / 60.0)
  }

  /** `computeBatteryRuntimeHours`: battery runtime (seconds) in hours. */
  function BatteryRuntimeHours(vars: Vars, parse: FloatParser): (h: real)
    ensures Reading(vars, BatteryRuntime, parse).None? ==> h == 0.0
    ensures Reading(vars, BatteryRuntime, parse).Some? ==>
      -1.0 / 200.0 <= h - Reading(vars, BatteryRuntime, parse).value / 3600.0 <= 1.0 / 200.0
    ensures (h * 100.0).Floor as real == h * 100.0
  {
    match Reading(vars, BatteryRuntime, parse)
    case None => 0.0
    case Some(runtime) => Round2(runtime / 3600.0)
  }

  /** `computeInputVoltageDeviationPct`: how far the input voltage is from its
      nominal value, in percent. A zero nominal is guarded (the result is 0);
      a zero voltage is not. */
  function InputVoltageDeviationPct(vars: Vars, parse: FloatParser): (d: real)
    ensures Reading(vars, InputVoltage, parse).None? ==> d == 0.0
    ensures Reading(vars, InputVoltageNominal, parse).None? ==> d == 0.0
    ensures Reading(vars, InputVoltageNominal, parse) == Some(0.0) ==> d == 0.0
    ensures Reading(vars, InputVoltage, parse).Some? && Reading(vars, InputVoltageNominal, parse).Some? &&
            Reading(vars, InputVoltageNominal, parse).value != 0.0 ==>
      var voltage := Reading(vars, InputVoltage, parse).value;
      var nominal := Reading(vars, InputVoltageNominal, parse).value;
      -1.0 / 200.0 <= d - (voltage - nominal) / nominal * 100.0 <= 1.0 / 200.0
    ensures (Reading(vars, InputVoltage, parse) == Some(0.0) && Reading(vars, InputVoltageNominal, parse).Some? &&
             Reading(vars, InputVoltageNominal, parse).value != 0.0) ==> d == -100.0
    ensures (d * 100.0).Floor as real == d * 100.0
  {
    match Reading(vars, InputVoltage, parse)
    case None => 0.0
    case Some(voltage) =>
      match Reading(vars, InputVoltageNominal, parse)
      case None => 0.0
      case Some(nominal) =>
        if nominal == 0.0 then 0.0
        else
          assert voltage == 0.0 ==> (voltage - nominal) / nominal * 100.0 == -100.0;
          RoundWhole(-100);
          Round2((voltage - nominal) / nominal * 100.0)
  }

  /** Whether `token` is one of `tokens`, searched front to back. */
  function ContainsToken(tokens: seq<string>, token: string): (found: bool)
    ensures found <==> token in tokens
    decreases |tokens|
  {
    if tokens == [] then false
    else if tokens[0] == token then true
    else ContainsToken(tokens[1..], token)
  }

  /** `hasStatusToken`: `token` is exactly one of the whitespace-separated
      fields of `status` (a substring match does not count). */
  function HasStatusToken(status: string, token: string): (found: bool)
    ensures found <==> token in Text.Fields(status)
  {
    ContainsToken(Text.Fields(status), token)
  }

  /** The label of one status token; unknown tokens stand for themselves. */
  function DecodeToken(token: string): (shown: string)
    ensures token in StatusLabels ==> shown == StatusLabels[token]
    ensures token !in StatusLabels ==> shown == token
    ensures token != "" ==> shown != ""
  {
    if token in StatusLabels then StatusLabels[token] else token
  }

  /** Every token decoded, in the same order. */
  function DecodeTokens(tokens: seq<string>): (labels: seq<string>)
    ensures |labels| == |tokens|
    ensures forall i :: 0 <= i < |tokens| ==> labels[i] == DecodeToken(tokens[i])
    decreases |tokens|
  {
    if tokens == [] then [] else [DecodeToken(tokens[0])] + DecodeTokens(tokens[1..])
  }

  /** `computeStatusDisplay`: the decoded status fields joined with ", ";
      empty exactly when the status has no fields. */
  function StatusDisplay(vars: Vars): (display: string)
    ensures display == Text.Join(DecodeTokens(Text.Fields(Get(vars, UpsStatus))), ", ")
    ensures display == "" <==> Text.Fields(Get(vars, UpsStatus)) == []
  {
    var status := Get(vars, UpsStatus);
    var labels := DecodeTokens(Text.Fields(status));
    Text.JoinEmptyIff(labels, ", ");
    if status == "" then "" else Text.Join(labels, ", ")
  }

  /** `Compute`: every metric from one snapshot. Total: any map, including the
      empty one, yields a record, with 0 for each numeric field whose inputs
      are missing or unparseable. */
  function Compute(vars: Vars, parse: FloatParser): (m: Metrics)
    ensures m.onBattery <==> "OB" in Text.Fields(Get(vars, UpsStatus))
    ensures m.lowBattery <==> "LB" in Text.Fields(Get(vars, UpsStatus))
    ensures m.statusDisplay == Text.Join(DecodeTokens(Text.Fields(Get(vars, UpsStatus))), ", ")
    ensures UpsLoad !in vars || RealPowerNominal !in vars ==> m.loadWatts == 0.0
    ensures BatteryRuntime !in vars ==> m.batteryRuntimeMins == 0.0 && m.batteryRuntimeHours == 0.0
    ensures InputVoltage !in vars || InputVoltageNominal !in vars ==> m.inputVoltageDeviationPct == 0.0
    ensures UpsStatus !in vars ==> !m.onBattery && !m.lowBattery && m.statusDisplay == ""
  {
    Metrics(
      LoadWatts(vars, parse),
      BatteryRuntimeMins(vars, parse),
      BatteryRuntimeHours(vars, parse),
      HasStatusToken(Get(vars, UpsStatus), "OB"),
      HasStatusToken(Get(vars, UpsStatus), "LB"),
      StatusDisplay(vars),
      InputVoltageDeviationPct(vars, parse))
  }

  /** `strconv.FormatBool`. */
  function FormatBool(b: bool): string {
    if b then "true" else "false"
  }

  /** `AsTopicMap`: each metric as a name to string-payload pair, keyed by
      exactly the seven canonical names (`AsTopicMapValues` gives the
      payloads). */
  function AsTopicMap(m: Metrics, format: FloatFormatter): (t: map<string, string>)
    ensures t.Keys == Collections.Elements(MetricNames)
    ensures |t| == 7
  {
    MetricNamesDistinct();
    KeysDistinct();
    var t := map[
      LoadWattsKey := format(m.loadWatts),
      BatteryRuntimeMinsKey := format(m.batteryRuntimeMins),
      BatteryRuntimeHoursKey := format(m.batteryRuntimeHours),
      OnBatteryKey := FormatBool(m.onBattery),
      LowBatteryKey := FormatBool(m.lowBattery),
      StatusDisplayKey := m.statusDisplay,
      InputVoltageDeviationPctKey := format(m.inputVoltageDeviationPct)];
    t
  }

  /** The payloads of the topic map: flags render as "true"/"false" and can
      be read back; the status display passes through unchanged; numbers go
      through the float formatter. */
  lemma AsTopicMapValues(m: Metrics, format: FloatFormatter)
    ensures var t := AsTopicMap(m, format);
      && t[OnBatteryKey] in {"true", "false"} && (t[OnBatteryKey] == "true" <==> m.onBattery)
      && t[LowBatteryKey] in {"true", "false"} && (t[LowBatteryKey] == "true" <==> m.lowBattery)
      && t[StatusDisplayKey] == m.statusDisplay
      && t[LoadWattsKey] == format(m.loadWatts)
      && t[BatteryRuntimeMinsKey] == format(m.batteryRuntimeMins)
      && t[BatteryRuntimeHoursKey] == format(m.batteryRuntimeHours)
      && t[InputVoltageDeviationPctKey] == format(m.inputVoltageDeviationPct)
  {
    KeysDistinct();
  }

  /** The seven metric names are pairwise different; `MetricNamesDistinct`
      lifts this to the name list. */
  lemma KeysDistinct()
    ensures LoadWattsKey != BatteryRuntimeMinsKey && LoadWattsKey != BatteryRuntimeHoursKey
    ensures LoadWattsKey != OnBatteryKey && LoadWattsKey != LowBatteryKey
    ensures LoadWattsKey != StatusDisplayKey && LoadWattsKey != InputVoltageDeviationPctKey
    ensures BatteryRuntimeMinsKey != BatteryRuntimeHoursKey && BatteryRuntimeMinsKey != OnBatteryKey
    ensures BatteryRuntimeMinsKey != LowBatteryKey && BatteryRuntimeMinsKey != StatusDisplayKey
    ensures BatteryRuntimeMinsKey != InputVoltageDeviationPctKey
    ensures BatteryRuntimeHoursKey != OnBatteryKey && BatteryRuntimeHoursKey != LowBatteryKey
    ensures BatteryRuntimeHoursKey != StatusDisplayKey && BatteryRuntimeHoursKey != InputVoltageDeviationPctKey
    ensures OnBatteryKey != LowBatteryKey && OnBatteryKey != StatusDisplayKey
    ensures OnBatteryKey != InputVoltageDeviationPctKey
    ensures LowBatteryKey != StatusDisplayKey && LowBatteryKey != InputVoltageDeviationPctKey
    ensures StatusDisplayKey != InputVoltageDeviationPctKey
  {
  }

  /** The seven metric names are pairwise different, so the topic map is
      one-to-one with the record's fields. */
  lemma MetricNamesDistinct()
    ensures Collections.NoDuplicates(MetricNames)
    ensures Collections.Elements(MetricNames) == {
      LoadWattsKey, BatteryRuntimeMinsKey, BatteryRuntimeHoursKey, OnBatteryKey,
      LowBatteryKey, StatusDisplayKey, InputVoltageDeviationPctKey}
    ensures |Collections.Elements(MetricNames)| == 7
  {
    KeysDistinct();
    Collections.EnumerationSize(MetricNames, Collections.Elements(MetricNames));
  }

  /** For a status written as space-separated tokens, the flags are exact
      token membership and the display decodes the tokens in order. */
  lemma StatusFromTokens(status: string, tokens: seq<string>)
    requires Text.AllFields(tokens) && status == Text.Join(tokens, " ")
    ensures forall token :: HasStatusToken(status, token) <==> token in tokens
    ensures StatusDisplay(map[UpsStatus := status]) == Text.Join(DecodeTokens(tokens), ", ")
  {
    Text.FieldsOfJoin(tokens);
    StatusFromFields(status, tokens);
  }

  /** Flags and display read off the tokens of the status. */
  lemma StatusFromFields(status: string, tokens: seq<string>)
    requires Text.Fields(status) == tokens
    ensures forall token :: HasStatusToken(status, token) <==> token in tokens
    ensures StatusDisplay(map[UpsStatus := status]) == Text.Join(DecodeTokens(tokens), ", ")
  {
    assert Get(map[UpsStatus := status], UpsStatus) == status;
  }

  /** "OB LB": the two flags are independent and both hold. */
  lemma OnBatteryAndLowBattery(parse: FloatParser)
    ensures var m := Compute(map[UpsStatus := "OB LB"], parse);
      m.onBattery && m.lowBattery
  {
    Text.JoinTwo("OB", "LB", " ");
    StatusFromTokens("OB LB", ["OB", "LB"]);
    assert Get(map[UpsStatus := "OB LB"], UpsStatus) == "OB LB";
  }

  /** An unknown token appears verbatim, after the known one before it. */
  lemma UnknownTokenVerbatim()
    ensures StatusDisplay(map[UpsStatus := "OL NEWTOKEN"]) == "Online, NEWTOKEN"
  {
    assert "OL" + " " + "NEWTOKEN" == "OL NEWTOKEN";
    assert "Online" + ", " + "NEWTOKEN" == "Online, NEWTOKEN";
    assert DecodeToken("OL") == "Online" && DecodeToken("NEWTOKEN") == "NEWTOKEN";
    TwoTokens("OL", "NEWTOKEN");
  }

  /** A status of two tokens displays their labels separated by ", ". */
  lemma TwoTokens(a: string, b: string)
    requires Text.IsField(a) && Text.IsField(b)
    ensures StatusDisplay(map[UpsStatus := a + " " + b]) == DecodeToken(a) + ", " + DecodeToken(b)
  {
    Text.JoinTwo(a, b, " ");
    StatusFromTokens(a + " " + b, [a, b]);
    assert DecodeTokens([a, b]) == [DecodeToken(a), DecodeToken(b)];
    Text.JoinTwo(DecodeToken(a), DecodeToken(b), ", ");
  }

  /** A status made of one known token displays exactly that token's label. */
  lemma KnownTokenAlone(token: string)
    requires token in StatusLabels
    ensures StatusDisplay(map[UpsStatus := token]) == StatusLabels[token]
  {
    LabelKeysAreFields();
    OneToken(token);
  }

  /** Any whitespace character separates two status tokens, not only a
      space: a tab or a newline between them gives the same flags and the
      same display. */
  lemma AnySeparator(a: string, c: char, b: string)
    requires Text.IsField(a) && Text.IsField(b) && Text.IsSpace(c)
    ensures forall token :: HasStatusToken(a + [c] + b, token) <==> token == a || token == b
    ensures StatusDisplay(map[UpsStatus := a + [c] + b]) == DecodeToken(a) + ", " + DecodeToken(b)
  {
    Text.FieldsOfPair(a, c, b);
    StatusFromFields(a + [c] + b, [a, b]);
    assert DecodeTokens([a, b]) == [DecodeToken(a), DecodeToken(b)];
    Text.JoinTwo(DecodeToken(a), DecodeToken(b), ", ");
  }

  /** A status of one token displays that token's label. */
  lemma OneToken(token: string)
    requires Text.IsField(token)
    ensures StatusDisplay(map[UpsStatus := token]) == DecodeToken(token)
  {
    assert Text.Join([token], " ") == token;
    StatusFromTokens(token, [token]);
    assert DecodeTokens([token]) == [DecodeToken(token)];
  }

  /** Every status code the table knows is a single field. */
  lemma LabelKeysAreFields()
    ensures forall token :: token in StatusLabels ==> Text.IsField(token)
  {
  }

  /** A status with no tokens (absent, empty or all blanks) shows nothing and
      sets neither flag. */
  lemma BlankStatus(vars: Vars, parse: FloatParser)
    requires forall i :: 0 <= i < |Get(vars, UpsStatus)| ==> Text.IsSpace(Get(vars, UpsStatus)[i])
    ensures var m := Compute(vars, parse);
      m.statusDisplay == "" && !m.onBattery && !m.lowBattery
  {
  }

  /** Hours and minutes are computed from the same runtime reading, so they
      agree up to the two roundings. */
  lemma HoursTrackMinutes(vars: Vars, parse: FloatParser)
    requires Reading(vars, BatteryRuntime, parse).Some?
    ensures var m := Compute(vars, parse);
      -1.0 / 100.0 <= m.batteryRuntimeHours - m.batteryRuntimeMins / 60.0 <= 1.0 / 100.0
  {
  }

  /** The parser the sample snapshot needs: each of its numeric strings reads
      as the number it spells. */
  function SampleParser(s: string): Option<real> {
    if s == "8" then Some(8.0)
    else if s == "900" then Some(900.0)
    else if s == "4920" then Some(4920.0)
    else if s == "242.0" then Some(242.0)
    else if s == "230" then Some(230.0)
    else if s == "0" then Some(0.0)
    else None
  }

  /** The sample snapshot of a CyberPower unit on mains power. */
  const SampleVars: Vars := map[
    UpsLoad := "8",
    RealPowerNominal := "900",
    BatteryRuntime := "4920",
    InputVoltage := "242.0",
    InputVoltageNominal := "230",
    UpsStatus := "OL"]

  /** The sample snapshot yields 72 W, 82 min, 1.37 h, on mains, "Online" and
      a deviation of +5.22 %. */
  lemma SampleMetrics()
    ensures Compute(SampleVars, SampleParser) ==
      Metrics(72.0, 82.0, 1.37, false, false, "Online", 5.22)
  {
    SampleStatus();
    SampleNumbers();
  }

  /** The sample status "OL" is on mains, not low, and shows "Online". */
  lemma SampleStatus()
    ensures StatusDisplay(SampleVars) == "Online"
    ensures !HasStatusToken(Get(SampleVars, UpsStatus), "OB")
    ensures !HasStatusToken(Get(SampleVars, UpsStatus), "LB")
  {
    assert Get(SampleVars, UpsStatus) == "OL";
    assert Text.Join(["OL"], " ") == "OL";
    StatusFromTokens("OL", ["OL"]);
    assert DecodeTokens(["OL"]) == ["Online"];
  }

  /** The numeric metrics of the sample, each rounded to two decimals. */
  lemma SampleNumbers()
    ensures LoadWatts(SampleVars, SampleParser) == 72.0
    ensures BatteryRuntimeMins(SampleVars, SampleParser) == 82.0
    ensures BatteryRuntimeHours(SampleVars, SampleParser) == 1.37
    ensures InputVoltageDeviationPct(SampleVars, SampleParser) == 5.22
  {
    assert Get(SampleVars, UpsLoad) == "8" && Get(SampleVars, RealPowerNominal) == "900";
    assert Get(SampleVars, BatteryRuntime) == "4920";
    assert Get(SampleVars, InputVoltage) == "242.0" && Get(SampleVars, InputVoltageNominal) == "230";
    assert RoundHalfAwayFromZero(8.0 / 100.0 * 900.0 * 100.0) == 7200;
    assert RoundHalfAwayFromZero(4920.0 / 60.0 * 100.0) == 8200;
    assert RoundHalfAwayFromZero(4920.0 / 3600.0 * 100.0) == 137;
    assert RoundHalfAwayFromZero((242.0 - 230.0) / 230.0 * 100.0 * 100.0) == 522;
  }

  /** A zero voltage reading against a non-zero nominal is not guarded: the
      deviation is -100 %, while a zero nominal gives 0. */
  lemma ZeroVoltageIsNotGuarded()
    ensures InputVoltageDeviationPct(map[InputVoltage := "0", InputVoltageNominal := "230"], SampleParser) == -100.0
    ensures InputVoltageDeviationPct(map[InputVoltage := "242.0", InputVoltageNominal := "0"], SampleParser) == 0.0
  {
  }

  /** An empty `ups.load` has no value, whatever the parser would make of
      the empty string, so the load in watts is 0 even with a nominal set. */
  lemma EmptyLoadIsZero(parse: FloatParser)
    ensures Reading(map[UpsLoad := "", RealPowerNominal := "900"], UpsLoad, parse).None?
    ensures Compute(map[UpsLoad := "", RealPowerNominal := "900"], parse).loadWatts == 0.0
  {
    assert Get(map[UpsLoad := "", RealPowerNominal := "900"], UpsLoad) == "";
  }
}
