/** Package `internal/nut`: the NUT variable record and its map conversion
    (`poller.go`), the in-memory test double (`fake.go`) and the upsd client
    with its lazy-reconnect state machine (`client.go`).

    The go.nut library is foreign: every answer it would give (dial,
    authenticate, list, fetch, disconnect) is an input to the model. */
module Nut {
  import opened Wrappers

  /** One NUT variable name/value pair; the value is always a string. */
  datatype Variable = Variable(name: string, value: string)

  /** The errors a poll can report. `Other` stands for an arbitrary error
      value a test injects into the fake. */
  datatype PollError =
    | ConnectFailed(host: string, port: int, cause: string)
    | AuthFailed(cause: string)
    | ListFailed(cause: string)
    | UpsNotFound(upsName: string)
    | FetchFailed(upsName: string, cause: string)
    | Other(cause: string)

  // ---------------------------------------------------------------------------
  // poller.go
  // ---------------------------------------------------------------------------

  /** The names occurring in `vars`. */
  function NameSet(vars: seq<Variable>): set<string> {
    set i | 0 <= i < |vars| :: vars[i].name
  }

  /** `value` is the value of the last pair in `vars` named `name`. */
  ghost predicate IsLastValue(vars: seq<Variable>, name: string, value: string) {
    exists i :: 0 <= i < |vars| && vars[i] == Variable(name, value) &&
      forall j :: i < j < |vars| ==> vars[j].name != name
  }

  /** No name occurs twice. */
  predicate DistinctNames(vars: seq<Variable>) {
    forall i, j :: 0 <= i < j < |vars| ==> vars[i].name != vars[j].name
  }

  /** Appending a pair adds its name to the names. */
  lemma NameSetSnoc(init: seq<Variable>, last: Variable)
    ensures NameSet(init + [last]) == NameSet(init) + {last.name}
  {
    var vars := init + [last];
    assert forall i :: 0 <= i < |init| ==> vars[i] == init[i];
    assert vars[|init|] == last;
  }

  /** Appending a pair with another name keeps every last value. */
  lemma LastValueSnoc(init: seq<Variable>, last: Variable, name: string, value: string)
    requires name != last.name && IsLastValue(init, name, value)
    ensures IsLastValue(init + [last], name, value)
  {
    var vars := init + [last];
    var i :| 0 <= i < |init| && init[i] == Variable(name, value) &&
      forall j :: i < j < |init| ==> init[j].name != name;
    assert vars[i] == init[i];
    assert forall j :: i < j < |init| ==> vars[j] == init[j];
  }

  /** `VarsToMap`: the pairs, in order, written into a map; a later pair
      overwrites an earlier one with the same name. */
  function VarsToMap(vars: seq<Variable>): (m: map<string, string>)
    ensures m.Keys == NameSet(vars)
    decreases |vars|
  {
    if vars == [] then map[]
    else
      var init := vars[..|vars| - 1];
      var last := vars[|vars| - 1];
      assert vars == init + [last];
      NameSetSnoc(init, last);
      VarsToMap(init)[last.name := last.value]
  }

  /** Every entry of the map holds the value of the last pair with its name. */
  lemma {:induction false} VarsToMapLastValue(vars: seq<Variable>, name: string)
    requires name in VarsToMap(vars)
    ensures IsLastValue(vars, name, VarsToMap(vars)[name])
    decreases |vars|
  {
    var init := vars[..|vars| - 1];
    var last := vars[|vars| - 1];
    assert vars == init + [last];
    if name == last.name {
      assert vars[|vars| - 1] == Variable(name, VarsToMap(vars)[name]);
    } else {
      VarsToMapLastValue(init, name);
      LastValueSnoc(init, last, name, VarsToMap(vars)[name]);
    }
  }

  /** Converting distinct names keeps every pair; a repeated name makes the
      map strictly smaller than the list. */
  lemma {:induction false} VarsToMapSize(vars: seq<Variable>)
    ensures DistinctNames(vars) ==> |VarsToMap(vars)| == |vars|
    ensures !DistinctNames(vars) ==> |VarsToMap(vars)| < |vars|
    decreases |vars|
  {
    if vars != [] {
      var init := vars[..|vars| - 1];
      var last := vars[|vars| - 1];
      var m := VarsToMap(init);
      VarsToMapSize(init);
      assert vars == init + [last];
      assert VarsToMap(vars) == m[last.name := last.value];
      DistinctNamesSnoc(init, last);
      MapUpdateSize(m, last.name, last.value);
    }
  }

  /** Writing a key grows a map by one exactly when the key is new. */
  lemma MapUpdateSize(m: map<string, string>, k: string, v: string)
    ensures k in m ==> |m[k := v]| == |m|
    ensures k !in m ==> |m[k := v]| == |m| + 1
  {
    if k in m {
      assert m[k := v].Keys == m.Keys;
    } else {
      assert m[k := v].Keys == m.Keys + {k};
    }
  }

  /** Appending a pair keeps names distinct exactly when its name is new. */
  lemma DistinctNamesSnoc(init: seq<Variable>, last: Variable)
    ensures DistinctNames(init + [last]) <==> DistinctNames(init) && last.name !in NameSet(init)
  {
    var vars := init + [last];
    assert forall i :: 0 <= i < |init| ==> vars[i] == init[i];
    if DistinctNames(vars) {
      forall i | 0 <= i < |init| ensures init[i].name != last.name {
        assert vars[i].name != vars[|init|].name;
      }
    }
  }

  // ---------------------------------------------------------------------------
  // fake.go
  // ---------------------------------------------------------------------------

  /** `FakePoller`: a pre-seeded source of snapshots. With a non-empty
      `sequence` each poll advances through it and then repeats its last
      element; otherwise every poll returns `variables`. A set `err` makes
      every poll fail. */
  datatype FakePoller = FakePoller(
    variables: seq<Variable>,
    sequence: seq<seq<Variable>>,
    err: Option<PollError>,
    callCount: nat,
    closed: bool)

  /** The smaller of two integers. */
  function Min(a: int, b: int): int {
    if a <= b then a else b
  }

  /** `FakePoller.Poll`. Every call, failing or not, counts; the k-th call
      (from 1) of a sequence reads element `min(k, len) - 1`. Only the counter
      changes, so the returned snapshot is independent of the fake's data. */
  function FakePoll(f: FakePoller): (r: (FakePoller, Result<seq<Variable>, PollError>))
    ensures r.0 == f.(callCount := f.callCount + 1)
    ensures f.err.Some? ==> r.1 == Err(f.err.value)
    ensures f.err.None? && f.sequence == [] ==> r.1 == Ok(f.variables)
    ensures f.err.None? && f.sequence != [] ==>
      r.1 == Ok(f.sequence[Min(f.callCount + 1, |f.sequence|) - 1])
  {
    var f' := f.(callCount := f.callCount + 1);
    if f.err.Some? then (f', Err(f.err.value))
    else
      var src :=
        if |f.sequence| > 0 then
          var idx := f'.callCount - 1;
          f.sequence[if idx >= |f.sequence| then |f.sequence| - 1 else idx]
        else f.variables;
      (f', Ok(src))
  }

  /** The fake after `k` more polls, and what each of those polls returned. */
  function FakePollTimes(f: FakePoller, k: nat): (FakePoller, seq<Result<seq<Variable>, PollError>>)
    decreases k
  {
    if k == 0 then (f, [])
    else
      var (g, results) := FakePollTimes(f, k - 1);
      var (h, r) := FakePoll(g);
      (h, results + [r])
  }

  /** Replaying a sequence: call number `i + 1` after `f.callCount` earlier
      calls returns element `min(f.callCount + i + 1, len) - 1`, so once the
      sequence is exhausted its last element repeats. */
  lemma {:induction false} FakeSequenceReplay(f: FakePoller, k: nat)
    requires f.err.None? && f.sequence != []
    ensures FakePollTimes(f, k).0 == f.(callCount := f.callCount + k)
    ensures |FakePollTimes(f, k).1| == k
    ensures forall i :: 0 <= i < k ==>
      FakePollTimes(f, k).1[i] == Ok(f.sequence[Min(f.callCount + i + 1, |f.sequence|) - 1])
    decreases k
  {
    if k > 0 {
      FakeSequenceReplay(f, k - 1);
    }
  }

  /** `FakePoller.Close`: records the close and reports no error. */
  function FakeClose(f: FakePoller): (r: (FakePoller, Option<PollError>))
    ensures r.0.closed && r.1.None?
    ensures r.0.(closed := f.closed) == f
  {
    (f.(closed := true), None)
  }

  /** `FakePoller.Reset`: back to the zero value, so the next poll succeeds
      with an empty snapshot and counts as call number 1. */
  function FakeReset(f: FakePoller): (r: FakePoller)
    ensures r.variables == [] && r.sequence == [] && r.err.None?
    ensures r.callCount == 0 && !r.closed
  {
    FakePoller([], [], None, 0, false)
  }

  // ---------------------------------------------------------------------------
  // client.go
  // ---------------------------------------------------------------------------

  /** An open go.nut connection, identified by a handle. */
  type Conn = nat

  /** A variable as go.nut reports it, with its value already rendered by
      `fmt.Sprintf("%v", …)`. */
  datatype NutVariable = NutVariable(name: string, value: string)

  /** One entry of upsd's UPS list, with the answer its variable fetch gives. */
  datatype Ups = Ups(name: string, variables: Result<seq<NutVariable>, string>)

  /** What go.nut answers when the client (re)connects: the dial result and,
      when a username is configured, the authentication result. */
  datatype DialOutcome = DialOutcome(connect: Result<Conn, string>, authenticate: Option<string>)

  /** What go.nut answers during one poll: the reconnect (consulted only when
      the client is stale) and the UPS listing. */
  datatype PollOutcome = PollOutcome(reconnect: DialOutcome, list: Result<seq<Ups>, string>)

  /** `Client`: the connection parameters, the current connection (if any)
      and whether the last poll failed in a way that owes a reconnect. */
  datatype Client = Client(
    host: string,
    port: int,
    username: string,
    password: string,
    upsName: string,
    conn: Option<Conn>,
    stale: bool)

  /** `connect`: dial, then authenticate when a username is set. Success
      installs the new connection and clears `stale`; a failure leaves the
      client exactly as it was. */
  function ClientConnect(c: Client, d: DialOutcome): (r: (Client, Option<PollError>))
    ensures r.1.None? <==> d.connect.Ok? && (c.username == "" || d.authenticate.None?)
    ensures r.1.None? ==> r.0 == c.(conn := Some(d.connect.value), stale := false)
    ensures r.1.Some? ==> r.0 == c
  {
    match d.connect
    case Err(cause) => (c, Some(ConnectFailed(c.host, c.port, cause)))
    case Ok(conn) =>
      if c.username != "" && d.authenticate.Some? then (c, Some(AuthFailed(d.authenticate.value)))
      else (c.(conn := Some(conn), stale := false), None)
  }

  /** `NewClient`: a client exists exactly when the first connect succeeds,
      and it starts connected and not stale. */
  function NewClient(host: string, port: int, username: string, password: string, upsName: string,
                     d: DialOutcome): (r: Result<Client, PollError>)
    ensures r.Ok? <==> d.connect.Ok? && (username == "" || d.authenticate.None?)
    ensures r.Ok? ==> r.value.conn == Some(d.connect.value) && !r.value.stale
    ensures r.Ok? ==> r.value.host == host && r.value.port == port && r.value.upsName == upsName
    ensures r.Ok? ==> r.value.username == username && r.value.password == password
  {
    var (c, e) := ClientConnect(Client(host, port, username, password, upsName, None, false), d);
    if e.Some? then Err(e.value) else Ok(c)
  }

  /** The position of the first UPS called `name`, if any. */
  function FindUps(list: seq<Ups>, name: string): (r: Option<nat>)
    ensures r.Some? ==> r.value < |list| && list[r.value].name == name
    ensures r.Some? ==> forall j :: 0 <= j < r.value ==> list[j].name != name
    ensures r.None? ==> forall j :: 0 <= j < |list| ==> list[j].name != name
    decreases |list|
  {
    if list == [] then None
    else if list[0].name == name then Some(0)
    else match FindUps(list[1..], name)
      case None => None
      case Some(i) => Some(i + 1)
  }

  /** One `Variable` per upstream variable, same order, same names. */
  function ConvertVariables(vs: seq<NutVariable>): (r: seq<Variable>)
    ensures |r| == |vs|
    ensures forall i :: 0 <= i < |vs| ==> r[i] == Variable(vs[i].name, vs[i].value)
    decreases |vs|
  {
    if vs == [] then [] else [Variable(vs[0].name, vs[0].value)] + ConvertVariables(vs[1..])
  }

  /** A client a poll can use without dereferencing a missing connection:
      either it is connected, or it is stale and will reconnect first. */
  predicate Pollable(c: Client) {
    c.stale || c.conn.Some?
  }

  /** List the UPSes, locate the configured one and fetch its variables on a
      client that needs no reconnect. */
  function ListAndFetch(c: Client, list: Result<seq<Ups>, string>): (r: (Client, Result<seq<Variable>, PollError>))
  {
    match list
    case Err(cause) => (c.(stale := true), Err(ListFailed(cause)))
    case Ok(upses) =>
      match FindUps(upses, c.upsName)
      case None => (c, Err(UpsNotFound(c.upsName)))
      case Some(i) =>
        match upses[i].variables
        case Err(cause) => (c.(stale := true), Err(FetchFailed(c.upsName, cause)))
        case Ok(vs) => (c, Ok(ConvertVariables(vs)))
  }

  /** `Client.Poll`. A stale client reconnects first; if that fails the poll
      stops there and the client stays stale. A failure to list or fetch marks
      the client stale (reconnect on the next poll); a missing UPS does not.
      On success the snapshot is the first matching UPS's variables. */
  function ClientPoll(c: Client, o: PollOutcome): (r: (Client, Result<seq<Variable>, PollError>))
    requires Pollable(c)
    ensures r.0.host == c.host && r.0.port == c.port && r.0.username == c.username
    ensures r.0.password == c.password && r.0.upsName == c.upsName
    ensures c.conn.Some? ==> r.0.conn.Some?
    ensures c.stale && ClientConnect(c, o.reconnect).1.Some? ==>
      r == (c, Err(ClientConnect(c, o.reconnect).1.value))
    ensures (!c.stale || ClientConnect(c, o.reconnect).1.None?) && o.list.Err? ==>
      r.0.stale && r.1 == Err(ListFailed(o.list.error))
    ensures (!c.stale || ClientConnect(c, o.reconnect).1.None?) && o.list.Ok? &&
            FindUps(o.list.value, c.upsName).None? ==>
      !r.0.stale && r.1 == Err(UpsNotFound(c.upsName))
    ensures (!c.stale || ClientConnect(c, o.reconnect).1.None?) && o.list.Ok? &&
            FindUps(o.list.value, c.upsName).Some? ==>
      var ups := o.list.value[FindUps(o.list.value, c.upsName).value];
      && (ups.variables.Err? ==> r.0.stale && r.1 == Err(FetchFailed(c.upsName, ups.variables.error)))
      && (ups.variables.Ok? ==> !r.0.stale && r.1 == Ok(ConvertVariables(ups.variables.value)))
    ensures r.1.Ok? ==> !r.0.stale && r.0.conn.Some?
    ensures Pollable(r.0)
  {
    if c.stale then
      var (c1, e) := ClientConnect(c, o.reconnect);
      if e.Some? then (c1, Err(e.value)) else ListAndFetch(c1, o.list)
    else ListAndFetch(c, o.list)
  }

  /** `Client.Close`: without a connection it does nothing and succeeds;
      otherwise it disconnects (reporting go.nut's answer) and forgets the
      connection, so a second close is a no-op. */
  function ClientClose(c: Client, disconnect: Option<string>): (r: (Client, Option<string>))
    ensures r.0.conn.None?
    ensures c.conn.None? ==> r == (c, None)
    ensures c.conn.Some? ==> r == (c.(conn := None), disconnect)
  {
    if c.conn.Some? then (c.(conn := None), disconnect) else (c, None)
  }

  /** Closing twice: the second close changes nothing and reports no error,
      whatever go.nut would have answered. */
  lemma CloseIdempotent(c: Client, first: Option<string>, second: Option<string>)
    ensures var (c1, _) := ClientClose(c, first);
      ClientClose(c1, second) == (c1, None)
  {
  }

  /** A client that keeps its connection stays pollable across any number of
      polls: a poll never drops the connection. */
  lemma PollKeepsConnection(c: Client, o: PollOutcome)
    requires c.conn.Some?
    ensures Pollable(ClientPoll(c, o).0) && ClientPoll(c, o).0.conn.Some?
  {
  }

  // ---------------------------------------------------------------------------
  // The Poller interface
  // ---------------------------------------------------------------------------

  /** A `Poller`: the real client or the fake. */
  datatype Poller = NutClient(client: Client) | Fake(fake: FakePoller)

  /** A poller whose next poll cannot dereference a missing connection. */
  predicate PollerReady(p: Poller) {
    p.NutClient? ==> Pollable(p.client)
  }

  /** `Poller.Poll`, dispatched to the implementation; go.nut's answers are
      only consulted by the real client. The kind of poller never changes. */
  function PollerPoll(p: Poller, o: PollOutcome): (r: (Poller, Result<seq<Variable>, PollError>))
    requires PollerReady(p)
    ensures p.NutClient? ==> r == (NutClient(ClientPoll(p.client, o).0), ClientPoll(p.client, o).1)
    ensures p.Fake? ==> r == (Fake(FakePoll(p.fake).0), FakePoll(p.fake).1)
    ensures PollerReady(r.0)
  {
    match p
    case NutClient(c) => var (c', res) := ClientPoll(c, o); (NutClient(c'), res)
    case Fake(f) => var (f', res) := FakePoll(f); (Fake(f'), res)
  }

  /** `Poller.Close`, dispatched to the implementation; `disconnect` is
      go.nut's answer should the real client still hold a connection. */
  function PollerClose(p: Poller, disconnect: Option<string>): (r: (Poller, Option<string>))
    ensures p.NutClient? ==> r.0.NutClient? && r.0.client.conn.None?
    ensures p.NutClient? ==> r == (NutClient(ClientClose(p.client, disconnect).0), ClientClose(p.client, disconnect).1)
    ensures p.Fake? ==> r.0.Fake? && r.0.fake.closed && r.1.None?
  {
    match p
    case NutClient(c) => var (c', e) := ClientClose(c, disconnect); (NutClient(c'), e)
    case Fake(f) => var (f', e) := FakeClose(f); (Fake(f'), None)
  }
}
