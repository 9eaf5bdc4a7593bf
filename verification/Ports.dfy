/** The ports an agent listens on, as far as its configuration tells. */
module Ports {
  import opened Wrappers
  import opened Naming
  import opened Strings

  datatype Protocol = TCP | UDP | SCTP

  datatype ServicePort = ServicePort(name: Text, port: nat, protocol: Protocol)

  /** Ports by number, in the order in which they were found. */
  type PortMap = map<nat, seq<ServicePort>>

  // ---------------------------------------------------------------- the agent's configuration

  datatype Otlp = Otlp(grpc: string, http: string)
  datatype MetricsCollected = MetricsCollected(statsD: Option<string>, collectD: Option<string>, otlp: Option<Otlp>,
      jmx: bool)
  datatype LogMetricsCollected = LogMetricsCollected(emf: bool, otlp: Option<Otlp>, jmxContainerInsights: bool,
      signals: bool)
  datatype XRay = XRay(bindAddress: string, tcpProxy: Option<string>)
  datatype TracesCollected = TracesCollected(otlp: Option<Otlp>, xray: Option<XRay>, signals: bool)
  datatype AgentConfig = AgentConfig(metrics: Option<MetricsCollected>, logs: Option<LogMetricsCollected>,
      traces: Option<TracesCollected>)

  datatype Receiver =
    | StatsD | CollectD | XrayProxy | XrayTraces | OtlpGrpc | OtlpHttp
    | AppSignalsGrpc | AppSignalsHttp | AppSignalsProxy | JmxHttp | Server

  function NameOf(r: Receiver): Text {
    match r
    case StatsD => "statsd"
    case CollectD => "collectd"
    case XrayProxy => "aws-proxy"
    case XrayTraces => "aws-traces"
    case OtlpGrpc => "otlp-grpc"
    case OtlpHttp => "otlp-http"
    case AppSignalsGrpc => "cwa-appsig-grpc"
    case AppSignalsHttp => "cwa-appsig-http"
    case AppSignalsProxy => "cwa-appsig-xray"
    case JmxHttp => "jmx-http"
    case Server => "cwa-server"
  }

  function DefaultPort(r: Receiver): nat {
    match r
    case StatsD => 8125
    case CollectD => 25826
    case XrayProxy => 2000
    case XrayTraces => 2000
    case OtlpGrpc => 4317
    case OtlpHttp => 4318
    case AppSignalsGrpc => 4315
    case AppSignalsHttp => 4316
    case AppSignalsProxy => 2000
    case JmxHttp => 4314
    case Server => 4311
  }

  const EMF_PORT: nat := 25888

  // ---------------------------------------------------------------- the port of an endpoint

  predicate IsDigit(c: char) {
    '0' <= c <= '9'
  }

  /** The number written at the beginning of a text. */
  function Digits(s: string, value: nat): nat {
    if s == "" || !IsDigit(s[0]) then value else Digits(s[1..], 10 * value + (s[0] as int - '0' as int))
  }

  function Decimal(n: nat): Text {
    if n < 10 then [('0' as int + n) as char] else Decimal(n / 10) + [('0' as int + n % 10) as char]
  }

  /** The number after the first colon that has a digit behind it, unless it is zero or exceeds 32 bits. */
  function PortFromEndpoint(endpoint: string): (port: Option<nat>)
    ensures port.Some? ==> 0 < port.value < 0x8000_0000
  {
    if |endpoint| < 2 then None
    else if endpoint[0] == ':' && IsDigit(endpoint[1]) then
      var port := Digits(endpoint[1..], 0);
      if 0 < port < 0x8000_0000 then Some(port) else None
    else PortFromEndpoint(endpoint[1..])
  }

  /** The port a receiver asks for: none if its address cannot be read. */
  function Wanted(address: string, r: Receiver, protocol: Protocol): seq<ServicePort> {
    if address == "" then [ServicePort(NameOf(r), DefaultPort(r), protocol)]
    else match PortFromEndpoint(address)
      case None => []
      case Some(port) =>
        var name := if r == OtlpGrpc || r == OtlpHttp
                    then NameOf(r) + "-" + Decimal(port) else "cwa-" + NameOf(r);
        [ServicePort(name, port, protocol)]
  }

  // ---------------------------------------------------------------- the accumulator

  predicate Serves(ports: seq<ServicePort>, protocol: Protocol) {
    exists i | 0 <= i < |ports| :: ports[i].protocol == protocol
  }

  function At(m: PortMap, port: nat): seq<ServicePort> {
    if port in m then m[port] else []
  }

  /** A request for ports: one port, which is granted unless its number and protocol are taken, or all ports of one
      number, which are granted only if the number is not in use at all. */
  datatype Request = One(port: ServicePort) | Whole(number: nat, ports: seq<ServicePort>)

  function Granted(m: PortMap, r: Request): PortMap {
    match r
    case One(p) => if Serves(At(m, p.port), p.protocol) then m else m[p.port := At(m, p.port) + [p]]
    case Whole(n, ps) => if n in m then m else m[n := ps]
  }

  function GrantedAll(m: PortMap, rs: seq<Request>): PortMap {
    if rs == [] then m else Granted(GrantedAll(m, rs[..|rs| - 1]), rs[|rs| - 1])
  }

  /** Every port is filed under its number, and no number has a protocol twice. */
  ghost predicate Filed(m: PortMap) {
    forall n | n in m :: FiledUnder(m[n], n)
  }

  ghost predicate FiledUnder(ports: seq<ServicePort>, n: nat) {
    && (forall i | 0 <= i < |ports| :: ports[i].port == n)
    && (forall i, j | 0 <= i < j < |ports| :: ports[i].protocol != ports[j].protocol)
  }

  /** Requests that put nothing in the wrong place. */
  ghost predicate Sound(rs: seq<Request>) {
    forall i | 0 <= i < |rs| && rs[i].Whole? :: FiledUnder(rs[i].ports, rs[i].number)
  }

  predicate OnlyOnes(rs: seq<Request>) {
    forall i | 0 <= i < |rs| :: rs[i].One?
  }

  function Requests(address: string, r: Receiver, protocol: Protocol): (requests: seq<Request>)
    ensures Sound(requests) && OnlyOnes(requests)
  {
    var wanted := Wanted(address, r, protocol);
    if wanted == [] then [] else [One(wanted[0])]
  }

  function OtlpRequests(otlp: Option<Otlp>): (requests: seq<Request>)
    ensures Sound(requests) && OnlyOnes(requests)
  {
    if otlp.None? then []
    else Requests(otlp.value.grpc, OtlpGrpc, TCP) + Requests(otlp.value.http, OtlpHttp, TCP)
  }

  function SignalsRequests(config: AgentConfig): (requests: seq<Request>)
    ensures Sound(requests) && OnlyOnes(requests)
  {
    var onMetrics := config.logs.Some? && config.logs.value.signals;
    var onTraces := config.traces.Some? && config.traces.value.signals;
    (if onMetrics || onTraces
     then Requests("", AppSignalsGrpc, TCP) + Requests("", AppSignalsHttp, TCP) + Requests("", Server, TCP) else [])
    + if onTraces then Requests("", AppSignalsProxy, TCP) else []
  }

  function MetricsRequests(metrics: Option<MetricsCollected>): (requests: seq<Request>)
    ensures Sound(requests) && OnlyOnes(requests)
  {
    if metrics.None? then []
    else
      (if metrics.value.statsD.Some? then Requests(metrics.value.statsD.value, StatsD, UDP) else [])
      + (if metrics.value.collectD.Some? then Requests(metrics.value.collectD.value, CollectD, UDP) else [])
      + OtlpRequests(metrics.value.otlp)
      + if metrics.value.jmx then Requests("", JmxHttp, TCP) else []
  }

  const EMF_REQUEST := Whole(EMF_PORT, [ServicePort("emf-tcp", EMF_PORT, TCP), ServicePort("emf-udp", EMF_PORT, UDP)])
  const JMX_REQUEST := Whole(DefaultPort(JmxHttp), [ServicePort(NameOf(JmxHttp), DefaultPort(JmxHttp), TCP)])

  function LogsRequests(logs: Option<LogMetricsCollected>): (requests: seq<Request>)
    ensures Sound(requests)
  {
    if logs.None? then []
    else (if logs.value.emf then [EMF_REQUEST] else []) + OtlpRequests(logs.value.otlp)
         + if logs.value.jmxContainerInsights then [JMX_REQUEST] else []
  }

  function TracesRequests(traces: Option<TracesCollected>): (requests: seq<Request>)
    ensures Sound(requests)
  {
    if traces.None? then []
    else
      OtlpRequests(traces.value.otlp)
      + if traces.value.xray.None? then []
        else
          var xray := traces.value.xray.value;
          Requests(xray.bindAddress, XrayTraces, UDP)
          + Requests(if xray.tcpProxy.Some? then xray.tcpProxy.value else "", XrayProxy, TCP)
  }

  /** Everything a configuration asks for, in the order in which it is granted. */
  function AllRequests(config: AgentConfig): (requests: seq<Request>)
    ensures Sound(requests)
  {
    SignalsRequests(config) + MetricsRequests(config.metrics) + LogsRequests(config.logs)
      + TracesRequests(config.traces)
  }

  lemma {:induction false} GrantedInParts(m: PortMap, a: seq<Request>, b: seq<Request>)
    ensures GrantedAll(m, a + b) == GrantedAll(GrantedAll(m, a), b)
  {
    if b == [] {
      assert a + b == a;
    } else {
      var before := b[..|b| - 1];
      assert (a + b)[..|a + b| - 1] == a + before;
      GrantedInParts(m, a, before);
    }
  }

  class PortTable {
    var ports: PortMap

    constructor ()
      ensures ports == map[]
    {
      ports := map[];
    }

    method GetReceiverServicePort(address: string, r: Receiver, protocol: Protocol)
      modifies this
      ensures ports == GrantedAll(old(ports), Requests(address, r, protocol))
    {
      ghost var before := ports;
      var name, port := NameOf(r), DefaultPort(r);
      if address != "" {
        var parsed := PortFromEndpoint(address);
        if parsed.None? {
          return;
        }
        port := parsed.value;
        name := if r == OtlpGrpc || r == OtlpHttp
                then NameOf(r) + "-" + Decimal(parsed.value) else "cwa-" + NameOf(r);
      }
      var p := ServicePort(name, port, protocol);
      OneRequest(before, One(p));
      assert Requests(address, r, protocol) == [One(p)];
      var existing := At(ports, port);
      for i := 0 to |existing|
        invariant forall j | 0 <= j < i :: existing[j].protocol != protocol
      {
        if existing[i].protocol == protocol {
          return;
        }
      }
      ports := ports[port := existing + [p]];
    }

    method GetOtlpServicePorts(otlp: Option<Otlp>)
      modifies this
      ensures ports == GrantedAll(old(ports), OtlpRequests(otlp))
    {
      if otlp.Some? {
        GetReceiverServicePort(otlp.value.grpc, OtlpGrpc, TCP);
        GetReceiverServicePort(otlp.value.http, OtlpHttp, TCP);
        GrantedInParts(old(ports), Requests(otlp.value.grpc, OtlpGrpc, TCP), Requests(otlp.value.http, OtlpHttp, TCP));
      }
    }

    method GetSignalsServicePorts(config: AgentConfig)
      modifies this
      ensures ports == GrantedAll(old(ports), SignalsRequests(config))
    {
      ghost var m := ports;
      var onMetrics := config.logs.Some? && config.logs.value.signals;
      var onTraces := config.traces.Some? && config.traces.value.signals;
      ghost var g, h, s := Requests("", AppSignalsGrpc, TCP), Requests("", AppSignalsHttp, TCP),
          Requests("", Server, TCP);
      if onMetrics || onTraces {
        GetReceiverServicePort("", AppSignalsGrpc, TCP);
        GetReceiverServicePort("", AppSignalsHttp, TCP);
        GetReceiverServicePort("", Server, TCP);
        GrantedInParts(m, g, h);
        GrantedInParts(m, g + h, s);
      }
      if onTraces {
        GetReceiverServicePort("", AppSignalsProxy, TCP);
      }
      GrantedInParts(m, if onMetrics || onTraces then g + h + s else [],
                     if onTraces then Requests("", AppSignalsProxy, TCP) else []);
    }

    method GetMetricsServicePorts(metrics: Option<MetricsCollected>)
      modifies this
      ensures ports == GrantedAll(old(ports), MetricsRequests(metrics))
    {
      if metrics.None? {
        return;
      }
      ghost var m := ports;
      ghost var s := if metrics.value.statsD.Some? then Requests(metrics.value.statsD.value, StatsD, UDP) else [];
      ghost var c := if metrics.value.collectD.Some? then Requests(metrics.value.collectD.value, CollectD, UDP) else [];
      if metrics.value.statsD.Some? {
        GetReceiverServicePort(metrics.value.statsD.value, StatsD, UDP);
      }
      if metrics.value.collectD.Some? {
        GetReceiverServicePort(metrics.value.collectD.value, CollectD, UDP);
      }
      GetOtlpServicePorts(metrics.value.otlp);
      if metrics.value.jmx {
        GetReceiverServicePort("", JmxHttp, TCP);
      }
      GrantedInParts(m, s, c);
      GrantedInParts(m, s + c, OtlpRequests(metrics.value.otlp));
      GrantedInParts(m, s + c + OtlpRequests(metrics.value.otlp), if metrics.value.jmx then Requests("", JmxHttp, TCP)
        else []);
    }

    method GetWhole(number: nat, whole: seq<ServicePort>)
      modifies this
      ensures ports == GrantedAll(old(ports), [Whole(number, whole)])
    {
      OneRequest(ports, Whole(number, whole));
      if number !in ports {
        ports := ports[number := whole];
      }
    }

    method GetLogsServicePorts(logs: Option<LogMetricsCollected>)
      modifies this
      ensures ports == GrantedAll(old(ports), LogsRequests(logs))
    {
      if logs.None? {
        return;
      }
      ghost var m := ports;
      ghost var e := if logs.value.emf then [EMF_REQUEST] else [];
      if logs.value.emf {
        GetWhole(EMF_PORT, [ServicePort("emf-tcp", EMF_PORT, TCP), ServicePort("emf-udp", EMF_PORT, UDP)]);
      }
      GetOtlpServicePorts(logs.value.otlp);
      if logs.value.jmxContainerInsights {
        GetWhole(DefaultPort(JmxHttp), [ServicePort(NameOf(JmxHttp), DefaultPort(JmxHttp), TCP)]);
      }
      GrantedInParts(m, e, OtlpRequests(logs.value.otlp));
      GrantedInParts(m, e + OtlpRequests(logs.value.otlp), if logs.value.jmxContainerInsights then [JMX_REQUEST]
        else []);
    }

    method GetTracesServicePorts(traces: Option<TracesCollected>)
      modifies this
      ensures ports == GrantedAll(old(ports), TracesRequests(traces))
    {
      if traces.None? {
        return;
      }
      ghost var m := ports;
      GetOtlpServicePorts(traces.value.otlp);
      if traces.value.xray.None? {
        assert TracesRequests(traces) == OtlpRequests(traces.value.otlp);
        return;
      }
      var xray := traces.value.xray.value;
      var proxy := if xray.tcpProxy.Some? then xray.tcpProxy.value else "";
      ghost var before := ports;
      GetReceiverServicePort(xray.bindAddress, XrayTraces, UDP);
      GetReceiverServicePort(proxy, XrayProxy, TCP);
      ghost var t, p := Requests(xray.bindAddress, XrayTraces, UDP), Requests(proxy, XrayProxy, TCP);
      GrantedInParts(before, t, p);
      GrantedInParts(m, OtlpRequests(traces.value.otlp), t + p);
    }
  }

  lemma OneRequest(m: PortMap, r: Request)
    ensures GrantedAll(m, [r]) == Granted(m, r)
  {
    assert [r][..0] == [];
  }

  // ---------------------------------------------------------------- laws of the accumulator

  lemma {:induction false} GrantedAllIsFiled(m: PortMap, rs: seq<Request>)
    requires Filed(m) && Sound(rs)
    ensures Filed(GrantedAll(m, rs))
  {
    if rs != [] {
      GrantedAllIsFiled(m, rs[..|rs| - 1]);
    }
  }

  /** What is granted stays: later requests add to what a number serves and take nothing away. */
  lemma {:induction false} GrantsStay(m: PortMap, rs: seq<Request>, n: nat)
    ensures At(m, n) <= At(GrantedAll(m, rs), n)
  {
    if rs != [] {
      GrantsStay(m, rs[..|rs| - 1], n);
    }
  }

  // ---------------------------------------------------------------- who is served in the end

  predicate Concerns(r: Request, n: nat) {
    match r
    case One(p) => p.port == n
    case Whole(number, _) => number == n
  }

  predicate Concerned(rs: seq<Request>, n: nat) {
    exists i | 0 <= i < |rs| :: Concerns(rs[i], n)
  }

  /** Somebody asks for this one port. */
  predicate AskedFor(rs: seq<Request>, n: nat, protocol: Protocol) {
    exists i | 0 <= i < |rs| && rs[i].One? :: rs[i].port.port == n && rs[i].port.protocol == protocol
  }

  /** Somebody asks for all of a number before anybody else has anything to do with it, and the protocol is among it. */
  predicate TakenWhole(rs: seq<Request>, n: nat, protocol: Protocol) {
    exists i | 0 <= i < |rs| && rs[i].Whole? ::
      rs[i].number == n && Serves(rs[i].ports, protocol) && !Concerned(rs[..i], n)
  }

  lemma OneMoreConcerned(rs: seq<Request>, n: nat, protocol: Protocol)
    requires rs != []
    ensures var before, last := rs[..|rs| - 1], rs[|rs| - 1];
            && (Concerned(rs, n) <==> Concerned(before, n) || Concerns(last, n))
            && (AskedFor(rs, n, protocol) <==>
                  AskedFor(before, n, protocol) || (last.One? && last.port.port == n && last.port.protocol == protocol))
            && (TakenWhole(rs, n, protocol) <==>
                  || TakenWhole(before, n, protocol)
                  || (last.Whole? && last.number == n && Serves(last.ports, protocol) && !Concerned(before, n)))
  {
    OneMoreAsked(rs, n, protocol);
    OneMoreTaken(rs, n, protocol);
    var before := rs[..|rs| - 1];
    if i :| 0 <= i < |before| && Concerns(before[i], n) {
      assert Concerns(rs[i], n);
    }
  }

  lemma OneMoreAsked(rs: seq<Request>, n: nat, protocol: Protocol)
    requires rs != []
    ensures var before, last := rs[..|rs| - 1], rs[|rs| - 1];
            AskedFor(rs, n, protocol) <==>
              AskedFor(before, n, protocol) || (last.One? && last.port.port == n && last.port.protocol == protocol)
  {
    var before := rs[..|rs| - 1];
    if i :| 0 <= i < |before| && before[i].One? && before[i].port.port == n && before[i].port.protocol == protocol {
      assert rs[i].One?;
    }
  }

  lemma OneMoreTaken(rs: seq<Request>, n: nat, protocol: Protocol)
    requires rs != []
    ensures var before, last := rs[..|rs| - 1], rs[|rs| - 1];
            TakenWhole(rs, n, protocol) <==>
              || TakenWhole(before, n, protocol)
              || (last.Whole? && last.number == n && Serves(last.ports, protocol) && !Concerned(before, n))
  {
    var before := rs[..|rs| - 1];
    assert forall i | 0 <= i < |before| :: before[i] == rs[i] && before[..i] == rs[..i];
    if i :| 0 <= i < |before| && before[i].Whole? && before[i].number == n && Serves(before[i].ports, protocol)
            && !Concerned(before[..i], n) {
      assert rs[i].Whole? && rs[..i] == before[..i];
    }
  }

  lemma ServesOneMore(ports: seq<ServicePort>, p: ServicePort, protocol: Protocol)
    ensures Serves(ports + [p], protocol) <==> Serves(ports, protocol) || p.protocol == protocol
  {
    if i :| 0 <= i < |ports| && ports[i].protocol == protocol {
      assert (ports + [p])[i] == ports[i];
    }
    assert (ports + [p])[|ports|] == p;
  }

  /** Exactly what is served: a number and protocol that somebody asks for, whoever came first, and what comes with a
      whole number that nobody had anything to do with before. */
  lemma {:induction false} ServedExactly(rs: seq<Request>, n: nat, protocol: Protocol)
    ensures n in GrantedAll(map[], rs) <==> Concerned(rs, n)
    ensures Serves(At(GrantedAll(map[], rs), n), protocol) <==> AskedFor(rs, n, protocol) || TakenWhole(rs, n, protocol)
  {
    if rs != [] {
      var before, last := rs[..|rs| - 1], rs[|rs| - 1];
      var m := GrantedAll(map[], before);
      ServedExactly(before, n, protocol);
      OneMoreConcerned(rs, n, protocol);
      if last.One? && last.port.port == n {
        ServesOneMore(At(m, n), last.port, protocol);
      }
    }
  }

  /** A request for a whole number behind requests for single ones: each of its protocols is served in the end if and
      only if the number was not asked for before, or somebody asks for that protocol. */
  lemma WholeAfterOnes(first: seq<Request>, n: nat, ps: seq<ServicePort>, rest: seq<Request>, protocol: Protocol)
    requires OnlyOnes(first) && Serves(ps, protocol)
    ensures var all := first + [Whole(n, ps)] + rest;
            Serves(At(GrantedAll(map[], all), n), protocol) <==> !Concerned(first, n) || AskedFor(all, n, protocol)
  {
    var all := first + [Whole(n, ps)] + rest;
    ServedExactly(all, n, protocol);
    assert all[|first|] == Whole(n, ps) && all[..|first|] == first;
    if !Concerned(first, n) {
      assert TakenWhole(all, n, protocol);
    } else {
      var j :| 0 <= j < |first| && Concerns(first[j], n);
      assert forall i | 0 <= i < |first| :: all[i] == first[i];
      forall i | 0 <= i < |all| && all[i].Whole? && all[i].number == n
        ensures Concerned(all[..i], n)
      {
        assert all[..i][j] == first[j];
      }
    }
  }

  lemma EmfProtocols()
    ensures Serves(EMF_REQUEST.ports, TCP) && Serves(EMF_REQUEST.ports, UDP)
  {
    assert EMF_REQUEST.ports[0].protocol == TCP && EMF_REQUEST.ports[1].protocol == UDP;
  }

  /** With the embedded metric format configured, its port is served for a protocol if and only if no receiver that
      comes before asks for the number, or some receiver asks for the number and the protocol. */
  lemma EmfIsServed(config: AgentConfig, protocol: Protocol)
    requires config.logs.Some? && config.logs.value.emf && protocol != SCTP
    ensures Serves(At(GrantedAll(map[], AllRequests(config)), EMF_PORT), protocol) <==>
              || !Concerned(SignalsRequests(config) + MetricsRequests(config.metrics), EMF_PORT)
              || AskedFor(AllRequests(config), EMF_PORT, protocol)
  {
    var s, m, t := SignalsRequests(config), MetricsRequests(config.metrics), TracesRequests(config.traces);
    var o := OtlpRequests(config.logs.value.otlp);
    var j := if config.logs.value.jmxContainerInsights then [JMX_REQUEST] else [];
    Regrouped(s + m, [EMF_REQUEST] + o + j, t);
    Regrouped([EMF_REQUEST], o, j);
    Regrouped([EMF_REQUEST], o + j, t);
    Regrouped(s + m, [EMF_REQUEST], o + j + t);
    EmfProtocols();
    WholeAfterOnes(s + m, EMF_PORT, EMF_REQUEST.ports, o + j + t, protocol);
  }

  /** Whoever asks for one port finds it served in the end, under its own name or somebody else's. */
  lemma OneIsServed(before: seq<Request>, p: ServicePort, after: seq<Request>)
    ensures Serves(At(GrantedAll(map[], before + [One(p)] + after), p.port), p.protocol)
  {
    var all := before + [One(p)] + after;
    ServedExactly(all, p.port, p.protocol);
    assert all[|before|] == One(p);
  }

  /** Whoever is the first to ask for a number and protocol gets it under its own name. */
  lemma FirstIsGranted(before: seq<Request>, p: ServicePort, after: seq<Request>)
    requires !AskedFor(before, p.port, p.protocol) && !TakenWhole(before, p.port, p.protocol)
    ensures p in At(GrantedAll(map[], before + [One(p)] + after), p.port)
  {
    ServedExactly(before, p.port, p.protocol);
    GrantedInParts(map[], before, [One(p)]);
    OneRequest(GrantedAll(map[], before), One(p));
    GrantedInParts(map[], before + [One(p)], after);
    GrantsStay(GrantedAll(map[], before + [One(p)]), after, p.port);
    var ports := At(GrantedAll(map[], before), p.port) + [p];
    assert ports[|ports| - 1] == p;
  }

  /** Some request is for a port of this name. */
  predicate Named(rs: seq<Request>, name: Text) {
    exists i | 0 <= i < |rs| :: IsNamed(rs[i], name)
  }

  predicate IsNamed(r: Request, name: Text) {
    match r
    case One(p) => p.name == name
    case Whole(_, ps) => exists j | 0 <= j < |ps| :: ps[j].name == name
  }

  lemma NamedInParts(a: seq<Request>, b: seq<Request>, name: Text)
    ensures Named(a + b, name) <==> Named(a, name) || Named(b, name)
  {
    if i :| 0 <= i < |a| && IsNamed(a[i], name) {
      assert (a + b)[i] == a[i];
    }
    if i :| 0 <= i < |b| && IsNamed(b[i], name) {
      assert (a + b)[|a| + i] == b[i];
    }
  }

  /** Nobody serves under a name that was not asked for. */
  lemma {:induction false} GrantedIsNamed(rs: seq<Request>, p: ServicePort, n: nat)
    requires p in At(GrantedAll(map[], rs), n)
    ensures Named(rs, p.name)
  {
    var before, last := rs[..|rs| - 1], rs[|rs| - 1];
    assert rs == before + [last];
    NamedInParts(before, [last], p.name);
    if p in At(GrantedAll(map[], before), n) {
      GrantedIsNamed(before, p, n);
    } else {
      assert IsNamed([last][0], p.name);
    }
  }

  const SIGNALS_NAMES: set<Text> := {"cwa-appsig-grpc", "cwa-appsig-http", "cwa-server", "cwa-appsig-xray"}

  const SIGNALS_PORTS := [
    ServicePort("cwa-appsig-grpc", 4315, TCP), ServicePort("cwa-appsig-http", 4316, TCP),
    ServicePort("cwa-server", 4311, TCP), ServicePort("cwa-appsig-xray", 2000, TCP)]

  /** The ports of Application Signals have names of their own. */
  lemma OthersAreNotSignals(address: string, r: Receiver, protocol: Protocol, name: Text)
    requires r !in {AppSignalsGrpc, AppSignalsHttp, AppSignalsProxy, Server} && name in SIGNALS_NAMES
    ensures !Named(Requests(address, r, protocol), name)
  {
    assert name[0] == 'c' && name[3] == '-' && (name[4] == 'a' || name[4] == 's') && (name[5] == 'p' || name[5] == 'e');
    if address != "" && PortFromEndpoint(address).Some? && r != OtlpGrpc && r != OtlpHttp {
      var own := "cwa-" + NameOf(r);
      assert own[4] == NameOf(r)[0] && own[5] == NameOf(r)[1];
    }
  }

  lemma OthersAreNotSignalsAll(config: AgentConfig, name: Text)
    requires name in SIGNALS_NAMES
    ensures Named(AllRequests(config), name) <==> Named(SignalsRequests(config), name)
  {
    MetricsAreNotSignals(config.metrics, name);
    LogsAreNotSignals(config.logs, name);
    TracesAreNotSignals(config.traces, name);
    var s, m := SignalsRequests(config), MetricsRequests(config.metrics);
    var l, t := LogsRequests(config.logs), TracesRequests(config.traces);
    NamedInParts(s, m, name);
    NamedInParts(s + m, l, name);
    NamedInParts(s + m + l, t, name);
  }

  lemma OtlpIsNotSignals(otlp: Option<Otlp>, name: Text)
    requires name in SIGNALS_NAMES
    ensures !Named(OtlpRequests(otlp), name)
  {
    if otlp.Some? {
      OthersAreNotSignals(otlp.value.grpc, OtlpGrpc, TCP, name);
      OthersAreNotSignals(otlp.value.http, OtlpHttp, TCP, name);
      NamedInParts(Requests(otlp.value.grpc, OtlpGrpc, TCP), Requests(otlp.value.http, OtlpHttp, TCP), name);
    }
  }

  lemma MetricsAreNotSignals(metrics: Option<MetricsCollected>, name: Text)
    requires name in SIGNALS_NAMES
    ensures !Named(MetricsRequests(metrics), name)
  {
    if metrics.Some? {
      var s := if metrics.value.statsD.Some? then Requests(metrics.value.statsD.value, StatsD, UDP) else [];
      var c := if metrics.value.collectD.Some? then Requests(metrics.value.collectD.value, CollectD, UDP) else [];
      var o := OtlpRequests(metrics.value.otlp);
      var j := if metrics.value.jmx then Requests("", JmxHttp, TCP) else [];
      if metrics.value.statsD.Some? {
        OthersAreNotSignals(metrics.value.statsD.value, StatsD, UDP, name);
      }
      if metrics.value.collectD.Some? {
        OthersAreNotSignals(metrics.value.collectD.value, CollectD, UDP, name);
      }
      OtlpIsNotSignals(metrics.value.otlp, name);
      OthersAreNotSignals("", JmxHttp, TCP, name);
      NamedInParts(s, c, name);
      NamedInParts(s + c, o, name);
      NamedInParts(s + c + o, j, name);
    }
  }

  lemma LogsAreNotSignals(logs: Option<LogMetricsCollected>, name: Text)
    requires name in SIGNALS_NAMES
    ensures !Named(LogsRequests(logs), name)
  {
    if logs.Some? {
      var e := if logs.value.emf then [EMF_REQUEST] else [];
      var o := OtlpRequests(logs.value.otlp);
      var j := if logs.value.jmxContainerInsights then [JMX_REQUEST] else [];
      OtlpIsNotSignals(logs.value.otlp, name);
      assert name[0] == 'c';
      NamedInParts(e, o, name);
      NamedInParts(e + o, j, name);
    }
  }

  lemma TracesAreNotSignals(traces: Option<TracesCollected>, name: Text)
    requires name in SIGNALS_NAMES
    ensures !Named(TracesRequests(traces), name)
  {
    if traces.Some? {
      OtlpIsNotSignals(traces.value.otlp, name);
      if traces.value.xray.Some? {
        var xray := traces.value.xray.value;
        var proxy := if xray.tcpProxy.Some? then xray.tcpProxy.value else "";
        var t, p := Requests(xray.bindAddress, XrayTraces, UDP), Requests(proxy, XrayProxy, TCP);
        OthersAreNotSignals(xray.bindAddress, XrayTraces, UDP, name);
        OthersAreNotSignals(proxy, XrayProxy, TCP, name);
        NamedInParts(t, p, name);
        NamedInParts(OtlpRequests(traces.value.otlp), t + p, name);
      }
    }
  }

  /** The port is served, under its name, by whoever has the configuration. */
  ghost predicate IsServed(config: AgentConfig, p: ServicePort) {
    p in At(GrantedAll(map[], AllRequests(config)), p.port)
  }

  lemma SignalsAreFirst(config: AgentConfig)
    ensures |SignalsRequests(config)| ==
            if config.traces.Some? && config.traces.value.signals then 4
            else if config.logs.Some? && config.logs.value.signals then 3 else 0
    ensures forall i | 0 <= i < |SignalsRequests(config)| :: SignalsRequests(config)[i] == One(SIGNALS_PORTS[i])
  {
  }

  /** The other requests come after those for Application Signals. */
  lemma RequestsAfterSignals(config: AgentConfig) returns (rest: seq<Request>)
    ensures AllRequests(config) == SignalsRequests(config) + rest
    ensures rest == MetricsRequests(config.metrics) + (LogsRequests(config.logs) + TracesRequests(config.traces))
  {
    var l, t := LogsRequests(config.logs), TracesRequests(config.traces);
    rest := MetricsRequests(config.metrics) + (l + t);
    Regrouped(SignalsRequests(config), MetricsRequests(config.metrics), l + t);
    Regrouped(SignalsRequests(config) + MetricsRequests(config.metrics), l, t);
  }

  lemma FirstAmong(s: seq<Request>, rest: seq<Request>, i: nat, p: ServicePort)
    requires OnlyOnes(s) && i < |s| && s[i] == One(p)
    requires forall j | 0 <= j < i :: s[j].port.port != p.port || s[j].port.protocol != p.protocol
    ensures p in At(GrantedAll(map[], s + rest), p.port)
  {
    assert s + rest == s[..i] + [One(p)] + (s[i + 1..] + rest);
    FirstIsGranted(s[..i], p, s[i + 1..] + rest);
  }

  lemma SignalsAreDistinct(config: AgentConfig)
    ensures OnlyOnes(SignalsRequests(config))
    ensures forall i, j | 0 <= j < i < |SignalsRequests(config)| ::
              SignalsRequests(config)[j].port.port != SignalsRequests(config)[i].port.port
  {
    SignalsAreFirst(config);
  }

  lemma SignalNamesDiffer()
    ensures forall i | 0 <= i < 4 :: SIGNALS_PORTS[i].name in SIGNALS_NAMES
    ensures forall i, j | 0 <= i < j < 4 :: SIGNALS_PORTS[i].name != SIGNALS_PORTS[j].name
  {
    assert "cwa-appsig-grpc"[11] == 'g' && "cwa-appsig-http"[11] == 'h' && "cwa-appsig-xray"[11] == 'x';
    assert |"cwa-server"| < |"cwa-appsig-grpc"|;
  }

  /** What is asked for under the name of an Application Signals port is granted, and nothing else under that name. */
  lemma SignalIsGranted(config: AgentConfig, k: nat)
    requires k < 4
    ensures IsServed(config, SIGNALS_PORTS[k]) <==> k < |SignalsRequests(config)|
  {
    var s, p := SignalsRequests(config), SIGNALS_PORTS[k];
    SignalsAreFirst(config);
    SignalNamesDiffer();
    if k < |s| {
      var rest := RequestsAfterSignals(config);
      SignalsAreDistinct(config);
      FirstAmong(s, rest, k, p);
    }
    if IsServed(config, p) {
      GrantedIsNamed(AllRequests(config), p, p.port);
      OthersAreNotSignalsAll(config, p.name);
      var i :| 0 <= i < |s| && IsNamed(s[i], p.name);
      assert SIGNALS_PORTS[i].name == SIGNALS_PORTS[k].name;
    }
  }

  /** The ports of Application Signals are served whatever else is configured, and only if it is switched on: three of
      them for logs or traces, the proxy for traces alone. */
  lemma SignalsAreServed(config: AgentConfig)
    ensures var onTraces := config.traces.Some? && config.traces.value.signals;
            var on := onTraces || (config.logs.Some? && config.logs.value.signals);
            && (forall k | 0 <= k < 3 :: IsServed(config, SIGNALS_PORTS[k]) <==> on)
            && (IsServed(config, SIGNALS_PORTS[3]) <==> onTraces)
  {
    SignalsAreFirst(config);
    forall k | 0 <= k < 4
      ensures IsServed(config, SIGNALS_PORTS[k]) <==> k < |SignalsRequests(config)|
    {
      SignalIsGranted(config, k);
    }
  }

  /** So is the port of StatsD, under the name for its address, if the address can be read. */
  lemma StatsDIsServed(config: AgentConfig, p: ServicePort)
    requires config.metrics.Some? && config.metrics.value.statsD.Some?
    requires var address := config.metrics.value.statsD.value;
             if address == "" then p == ServicePort("statsd", 8125, UDP)
             else p.name == "cwa-statsd" && PortFromEndpoint(address) == Some(p.port) && p.protocol == UDP
    ensures IsServed(config, p)
  {
    StatsDIsFirst(config.metrics.value, p);
    var s, m := SignalsRequests(config), MetricsRequests(config.metrics);
    var rest := RequestsAfterSignals(config);
    SignalsAreTcp(config, p.port);
    assert s + rest == s + [One(p)] + rest[1..];
    FirstIsGranted(s, p, rest[1..]);
  }

  lemma StatsDIsFirst(metrics: MetricsCollected, p: ServicePort)
    requires metrics.statsD.Some?
    requires if metrics.statsD.value == "" then p == ServicePort("statsd", 8125, UDP)
             else p.name == "cwa-statsd" && PortFromEndpoint(metrics.statsD.value) == Some(p.port) && p.protocol == UDP
    ensures MetricsRequests(Some(metrics)) != [] && MetricsRequests(Some(metrics))[0] == One(p)
  {
    assert "cwa-" + NameOf(StatsD) == "cwa-statsd";
    assert Requests(metrics.statsD.value, StatsD, UDP) == [One(p)];
  }

  lemma SignalsAreTcp(config: AgentConfig, n: nat)
    ensures !AskedFor(SignalsRequests(config), n, UDP) && !TakenWhole(SignalsRequests(config), n, UDP)
  {
    SignalsAreFirst(config);
  }

  lemma EmfEndpoint()
    ensures PortFromEndpoint(":25888") == Some(25888)
  {
    var s := ":25888";
    assert s[1..] == "25888" && "25888"[1..] == "5888" && "5888"[1..] == "888" && "888"[1..] == "88"
        && "88"[1..] == "8" && "8"[1..] == "";
    assert Digits("8", 2588) == 25888;
    assert Digits("88", 258) == 25888;
    assert Digits("888", 25) == 25888;
    assert Digits("5888", 2) == 25888;
    assert Digits("25888", 0) == 25888;
  }

  /** A StatsD receiver moved to the port of the embedded metric format leaves the latter without TCP. */
  lemma EmfMayBeCutOff()
    ensures var config := AgentConfig(Some(MetricsCollected(Some(":25888"), None, None, false)),
                                      Some(LogMetricsCollected(true, None, false, false)), None);
            !Serves(At(GrantedAll(map[], AllRequests(config)), EMF_PORT), TCP)
  {
    var p := ServicePort("cwa-" + NameOf(StatsD), EMF_PORT, UDP);
    StatsDOnEmfPort(p);
    GrantedInParts(map[], [One(p)], [EMF_REQUEST]);
    OneRequest(map[], One(p));
    OneRequest(Granted(map[], One(p)), EMF_REQUEST);
  }

  lemma StatsDOnEmfPort(p: ServicePort)
    requires p == ServicePort("cwa-" + NameOf(StatsD), EMF_PORT, UDP)
    ensures var config := AgentConfig(Some(MetricsCollected(Some(":25888"), None, None, false)),
                                      Some(LogMetricsCollected(true, None, false, false)), None);
            AllRequests(config) == [One(p)] + [EMF_REQUEST]
  {
    EmfEndpoint();
    assert Requests(":25888", StatsD, UDP) == [One(p)];
  }

  // ---------------------------------------------------------------- the sorted list

  /** How many entries a number and protocol have. */
  function Count(ports: seq<ServicePort>, n: nat, protocol: Protocol): nat {
    if ports == [] then 0
    else
      var last := ports[|ports| - 1];
      Count(ports[..|ports| - 1], n, protocol) + if last.port == n && last.protocol == protocol then 1 else 0
  }

  lemma {:induction false} CountInParts(a: seq<ServicePort>, b: seq<ServicePort>, n: nat, protocol: Protocol)
    ensures Count(a + b, n, protocol) == Count(a, n, protocol) + Count(b, n, protocol)
  {
    if b == [] {
      assert a + b == a;
    } else {
      assert (a + b)[..|a + b| - 1] == a + b[..|b| - 1];
      CountInParts(a, b[..|b| - 1], n, protocol);
    }
  }

  lemma {:induction false} CountUnderNumber(ports: seq<ServicePort>, n: nat, k: nat, protocol: Protocol)
    requires FiledUnder(ports, n)
    ensures Count(ports, k, protocol) == if k == n && Serves(ports, protocol) then 1 else 0
  {
    if ports != [] {
      var before, last := ports[..|ports| - 1], ports[|ports| - 1];
      CountUnderNumber(before, n, k, protocol);
      assert Serves(ports, protocol) <==> Serves(before, protocol) || last.protocol == protocol by {
        assert forall i | 0 <= i < |before| :: before[i] == ports[i];
        if last.protocol == protocol {
          assert ports[|ports| - 1].protocol == protocol;
        }
        if i :| 0 <= i < |before| && before[i].protocol == protocol {
          assert ports[i].protocol == protocol;
        }
      }
    }
  }

  predicate SortedByName(ports: seq<ServicePort>) {
    forall i, j | 0 <= i < j < |ports| :: !Less(ports[j].name, ports[i].name)
  }

  function Inserted(sorted: seq<ServicePort>, p: ServicePort): seq<ServicePort> {
    if sorted == [] || !Less(p.name, sorted[|sorted| - 1].name) then sorted + [p]
    else Inserted(sorted[..|sorted| - 1], p) + [sorted[|sorted| - 1]]
  }

  lemma {:induction false} InsertedHasAll(sorted: seq<ServicePort>, p: ServicePort)
    ensures multiset(Inserted(sorted, p)) == multiset(sorted) + multiset{p}
  {
    if sorted != [] && Less(p.name, sorted[|sorted| - 1].name) {
      var before, last := sorted[..|sorted| - 1], sorted[|sorted| - 1];
      InsertedHasAll(before, p);
      assert sorted == before + [last];
    }
  }

  lemma {:induction false} InsertedCounts(sorted: seq<ServicePort>, p: ServicePort, n: nat, protocol: Protocol)
    ensures Count(Inserted(sorted, p), n, protocol) == Count(sorted, n, protocol) + Count([p], n, protocol)
  {
    if sorted != [] && Less(p.name, sorted[|sorted| - 1].name) {
      var before, last := sorted[..|sorted| - 1], sorted[|sorted| - 1];
      InsertedCounts(before, p, n, protocol);
      assert sorted == before + [last];
      CountInParts(Inserted(before, p), [last], n, protocol);
      CountInParts(before, [last], n, protocol);
    } else {
      CountInParts(sorted, [p], n, protocol);
    }
  }

  lemma {:induction false} InsertedIsSorted(sorted: seq<ServicePort>, p: ServicePort)
    requires SortedByName(sorted)
    ensures SortedByName(Inserted(sorted, p))
  {
    if sorted != [] && Less(p.name, sorted[|sorted| - 1].name) {
      var before, last := sorted[..|sorted| - 1], sorted[|sorted| - 1];
      var inner := Inserted(before, p);
      InsertedIsSorted(before, p);
      InsertedHasAll(before, p);
      LessIsTotal(p.name, last.name);
      forall i | 0 <= i < |inner|
        ensures !Less(last.name, inner[i].name)
      {
        assert inner[i] in multiset(inner);
        assert inner[i] == p || inner[i] in before;
      }
    } else {
      forall i | 0 <= i < |sorted|
        ensures !Less(p.name, sorted[i].name)
      {
        NotLessThanEarlier(sorted, p, i);
      }
    }
  }

  lemma NotLessThanEarlier(sorted: seq<ServicePort>, p: ServicePort, i: nat)
    requires SortedByName(sorted) && i < |sorted| && !Less(p.name, sorted[|sorted| - 1].name)
    ensures !Less(p.name, sorted[i].name)
  {
    var last := sorted[|sorted| - 1];
    if Less(p.name, sorted[i].name) {
      LessIsTotal(sorted[i].name, last.name);
      if Less(sorted[i].name, last.name) {
        LessIsTransitive(p.name, sorted[i].name, last.name);
      }
    }
  }

  method SortByName(ports: seq<ServicePort>) returns (sorted: seq<ServicePort>)
    ensures SortedByName(sorted) && multiset(sorted) == multiset(ports)
    ensures forall n: nat, protocol :: Count(sorted, n, protocol) == Count(ports, n, protocol)
  {
    sorted := [];
    for i := 0 to |ports|
      invariant SortedByName(sorted) && multiset(sorted) == multiset(ports[..i])
      invariant forall n: nat, protocol :: Count(sorted, n, protocol) == Count(ports[..i], n, protocol)
    {
      assert ports[..i + 1] == ports[..i] + [ports[i]];
      InsertedIsSorted(sorted, ports[i]);
      InsertedHasAll(sorted, ports[i]);
      forall n: nat, protocol
        ensures Count(Inserted(sorted, ports[i]), n, protocol) == Count(ports[..i + 1], n, protocol) {
        InsertedCounts(sorted, ports[i], n, protocol);
        CountInParts(ports[..i], [ports[i]], n, protocol);
      }
      sorted := Inserted(sorted, ports[i]);
    }
    assert ports[..|ports|] == ports;
  }

  /** The list of all ports, whatever the order in which the map gives them: sorted by name, with the same entries as
      the map, each as often as there. */
  method PortMapToServicePortList(m: PortMap) returns (ports: seq<ServicePort>)
    ensures SortedByName(ports)
    ensures forall p :: p in ports <==> exists n | n in m :: p in m[n]
    ensures Filed(m) ==> forall n: nat, protocol ::
              Count(ports, n, protocol) == if Serves(At(m, n), protocol) then 1 else 0
  {
    var all: seq<ServicePort> := [];
    var rest := m.Keys;
    while rest != {}
      invariant rest <= m.Keys
      invariant forall p :: p in all <==> exists n | n in m && n !in rest :: p in m[n]
      invariant Filed(m) ==> forall n: nat, protocol ::
                  Count(all, n, protocol) == if n !in rest && Serves(At(m, n), protocol) then 1 else 0
    {
      var n :| n in rest;
      ghost var before := all;
      all := all + m[n];
      if Filed(m) {
        forall k: nat, protocol
          ensures Count(all, k, protocol) == if k !in rest - {n} && Serves(At(m, k), protocol) then 1 else 0 {
          CountInParts(before, m[n], k, protocol);
          CountUnderNumber(m[n], n, k, protocol);
        }
      }
      rest := rest - {n};
    }
    ports := SortByName(all);
    forall p ensures p in ports <==> p in all {
      assert p in ports <==> p in multiset(ports);
      assert p in all <==> p in multiset(all);
    }
  }

  /** The ports of a configuration: sorted by name, never two with the same number and protocol, and one for each number
      and protocol that is granted. */
  method GetServicePorts(config: AgentConfig) returns (ports: seq<ServicePort>)
    ensures SortedByName(ports)
    ensures var m := GrantedAll(map[], AllRequests(config));
            && Filed(m)
            && (forall p :: p in ports <==> exists n | n in m :: p in m[n])
            && (forall n: nat, protocol :: Count(ports, n, protocol) == if Serves(At(m, n), protocol) then 1 else 0)
  {
    var table := new PortTable();
    table.GetSignalsServicePorts(config);
    table.GetMetricsServicePorts(config.metrics);
    table.GetLogsServicePorts(config.logs);
    table.GetTracesServicePorts(config.traces);
    ghost var s, m := SignalsRequests(config), MetricsRequests(config.metrics);
    ghost var l, t := LogsRequests(config.logs), TracesRequests(config.traces);
    GrantedInParts(map[], s, m);
    GrantedInParts(map[], s + m, l);
    GrantedInParts(map[], s + m + l, t);
    GrantedAllIsFiled(map[], AllRequests(config));
    ports := PortMapToServicePortList(table.ports);
  }

  // ---------------------------------------------------------------- container ports

  const MAX_PORT_LEN := 15

  /** The name of a port as a container may have it; it is a format without arguments. */
  function ShortName(p: ServicePort): Text {
    Truncated([p.name], MAX_PORT_LEN, [])
  }

  lemma ShortNamesFit(p: ServicePort)
    ensures |ShortName(p)| <= MAX_PORT_LEN
    ensures |p.name| <= MAX_PORT_LEN ==> ShortName(p) == Trim(p.name)
    ensures |p.name| > MAX_PORT_LEN ==> ShortName(p) == p.name[..MAX_PORT_LEN]
  {
    assert Sprintf([p.name], []) == p.name;
    TruncatedFits([p.name], MAX_PORT_LEN, []);
  }

  /** Container ports by name. */
  type ContainerPorts = map<Text, ServicePort>

  /** Entries are kept under their own names, and no number and protocol has two. */
  ghost predicate Distinct(ports: ContainerPorts) {
    && (forall k | k in ports :: ports[k].name == k)
    && (forall k, l | k in ports && l in ports && SamePlace(ports[k], ports[l]) :: k == l)
  }

  predicate SamePlace(p: ServicePort, q: ServicePort) {
    p.port == q.port && p.protocol == q.protocol
  }

  /** The checks of the Kubernetes library on names and numbers. */
  type Check = (Text, nat) -> bool

  /** Some entry has the number and protocol of the port. */
  predicate HasPlace(ports: ContainerPorts, p: ServicePort) {
    exists k | k in ports :: SamePlace(ports[k], p)
  }

  method IsDuplicatePort(ports: ContainerPorts, p: ServicePort) returns (duplicate: bool)
    ensures duplicate <==> HasPlace(ports, p)
  {
    var rest := ports.Keys;
    while rest != {}
      invariant rest <= ports.Keys
      invariant forall k | k in ports && k !in rest :: !SamePlace(ports[k], p)
    {
      var k :| k in rest;
      if SamePlace(ports[k], p) {
        return true;
      }
      rest := rest - {k};
    }
    return false;
  }

  /** The entry is that of the port, under its shortened name. */
  predicate ComesFrom(entry: ServicePort, p: ServicePort) {
    SamePlace(entry, p) && entry.name == ShortName(p)
  }

  /** A port of the same place is followed by one of another place that has its shortened name. */
  ghost predicate Overwritten(inferred: seq<ServicePort>, p: ServicePort) {
    exists j, l | 0 <= j < l < |inferred| ::
      && SamePlace(inferred[j], p) && !SamePlace(inferred[j], inferred[l])
      && ShortName(inferred[j]) == ShortName(inferred[l])
  }

  /** Some port of the list is what the entry was made from. */
  ghost predicate HasSource(inferred: seq<ServicePort>, entry: ServicePort) {
    exists p | p in inferred :: ComesFrom(entry, p)
  }

  /** What the entries made from a list of ports have in common. */
  ghost predicate Inferred(ports: ContainerPorts, inferred: seq<ServicePort>, isValid: Check) {
    && Distinct(ports)
    && (forall k | k in ports :: isValid(k, ports[k].port) && HasSource(inferred, ports[k]))
    && (forall p | p in inferred && isValid(ShortName(p), p.port) :: HasPlace(ports, p) || Overwritten(inferred, p))
  }

  lemma StillHasSource(inferred: seq<ServicePort>, entry: ServicePort, next: ServicePort)
    requires HasSource(inferred, entry) || ComesFrom(entry, next)
    ensures HasSource(inferred + [next], entry)
  {
    if HasSource(inferred, entry) {
      var p :| p in inferred && ComesFrom(entry, p);
      assert p in inferred + [next];
    } else {
      assert next in inferred + [next];
    }
  }

  lemma StillOverwritten(inferred: seq<ServicePort>, p: ServicePort, next: ServicePort)
    requires Overwritten(inferred, p)
    ensures Overwritten(inferred + [next], p)
  {
    var more := inferred + [next];
    var j, l :| 0 <= j < l < |inferred| && SamePlace(inferred[j], p) && !SamePlace(inferred[j], inferred[l])
                && ShortName(inferred[j]) == ShortName(inferred[l]);
    assert more[j] == inferred[j] && more[l] == inferred[l];
  }

  lemma NowOverwritten(inferred: seq<ServicePort>, p: ServicePort, q: ServicePort, next: ServicePort)
    requires q in inferred && SamePlace(q, p) && !SamePlace(q, next) && ShortName(q) == ShortName(next)
    ensures Overwritten(inferred + [next], p)
  {
    var more := inferred + [next];
    var j :| 0 <= j < |inferred| && inferred[j] == q;
    assert more[j] == q && more[|inferred|] == next;
  }

  /** A port that is invalid or has its place taken leaves the entries as they are. */
  lemma PassedOver(ports: ContainerPorts, inferred: seq<ServicePort>, isValid: Check, p: ServicePort)
    requires Inferred(ports, inferred, isValid) && (isValid(ShortName(p), p.port) ==> HasPlace(ports, p))
    ensures Inferred(ports, inferred + [p], isValid)
  {
    forall k | k in ports
      ensures HasSource(inferred + [p], ports[k])
    {
      StillHasSource(inferred, ports[k], p);
    }
    forall q | q in inferred + [p] && isValid(ShortName(q), q.port)
      ensures HasPlace(ports, q) || Overwritten(inferred + [p], q)
    {
      if q in inferred && Overwritten(inferred, q) {
        StillOverwritten(inferred, q, p);
      }
    }
  }

  lemma Entered(ports: ContainerPorts, inferred: seq<ServicePort>, isValid: Check, p: ServicePort)
    requires Inferred(ports, inferred, isValid) && isValid(ShortName(p), p.port) && !HasPlace(ports, p)
    ensures Inferred(ports[ShortName(p) := ServicePort(ShortName(p), p.port, p.protocol)], inferred + [p], isValid)
  {
    var name := ShortName(p);
    var ports' := ports[name := ServicePort(name, p.port, p.protocol)];
    forall k | k in ports'
      ensures HasSource(inferred + [p], ports'[k])
    {
      StillHasSource(inferred, ports'[k], p);
    }
    EnteredIsDistinct(ports, ShortName(p), p);
    forall q | q in inferred + [p] && isValid(ShortName(q), q.port)
      ensures HasPlace(ports', q) || Overwritten(inferred + [p], q)
    {
      EnteredOther(ports, ports', inferred, p, q);
    }
  }

  lemma EnteredIsDistinct(ports: ContainerPorts, name: Text, p: ServicePort)
    requires Distinct(ports) && !HasPlace(ports, p)
    ensures Distinct(ports[name := ServicePort(name, p.port, p.protocol)])
  {
  }

  lemma EnteredOther(ports: ContainerPorts, ports': ContainerPorts, inferred: seq<ServicePort>, p: ServicePort,
                     q: ServicePort)
    requires ports' == ports[ShortName(p) := ServicePort(ShortName(p), p.port, p.protocol)]
    requires Distinct(ports) && !HasPlace(ports, p)
    requires forall k | k in ports :: HasSource(inferred, ports[k])
    requires q == p || HasPlace(ports, q) || Overwritten(inferred, q)
    ensures HasPlace(ports', q) || Overwritten(inferred + [p], q)
  {
    var name := ShortName(p);
    if q == p {
      assert SamePlace(ports'[name], q);
    } else if HasPlace(ports, q) {
      var k :| k in ports && SamePlace(ports[k], q);
      if k != name {
        assert SamePlace(ports'[k], q);
      } else {
        var r :| r in inferred && ComesFrom(ports[k], r);
        NowOverwritten(inferred, q, r, p);
      }
    } else {
      StillOverwritten(inferred, q, p);
    }
  }

  /** The ports inferred from the configurations, under their shortened names. No number and protocol has two entries,
      shortened and overwritten names notwithstanding; and a valid port finds no entry for its number and protocol only
      if a port of that place was followed by one of another place with the same shortened name. */
  method InferContainerPorts(inferred: seq<ServicePort>, isValid: Check) returns (ports: ContainerPorts)
    ensures Inferred(ports, inferred, isValid)
  {
    ports := map[];
    for i := 0 to |inferred|
      invariant Inferred(ports, inferred[..i], isValid)
    {
      var p := inferred[i];
      var name := ShortName(p);
      assert inferred[..i + 1] == inferred[..i] + [p];
      if !isValid(name, p.port) {
        PassedOver(ports, inferred[..i], isValid, p);
        continue;
      }
      var duplicate := IsDuplicatePort(ports, p);
      if duplicate {
        PassedOver(ports, inferred[..i], isValid, p);
        continue;
      }
      Entered(ports, inferred[..i], isValid, p);
      ports := ports[name := ServicePort(name, p.port, p.protocol)];
    }
    assert inferred[..|inferred|] == inferred;
  }

  method AddSpecPorts(before: ContainerPorts, specPorts: seq<ServicePort>) returns (ports: ContainerPorts)
    requires forall k | k in before :: before[k].name == k
    ensures forall p | p in specPorts :: p.name in ports && ports[p.name].name == p.name && ports[p.name] in specPorts
    ensures forall k | k in before && (forall p | p in specPorts :: p.name != k) :: k in ports && ports[k] == before[k]
    ensures forall k | k in ports :: k in before || exists p | p in specPorts :: p.name == k
    ensures specPorts == [] ==> ports == before
  {
    ports := before;
    for j := 0 to |specPorts|
      invariant forall p | p in specPorts[..j] ::
                  p.name in ports && ports[p.name].name == p.name && ports[p.name] in specPorts
      invariant forall k | k in before && (forall p | p in specPorts[..j] :: p.name != k) ::
                  k in ports && ports[k] == before[k]
      invariant forall k | k in ports :: k in before || exists p | p in specPorts[..j] :: p.name == k
      invariant j == 0 ==> ports == before
    {
      assert specPorts[..j + 1] == specPorts[..j] + [specPorts[j]];
      ports := ports[specPorts[j].name := specPorts[j]];
    }
    assert specPorts[..|specPorts|] == specPorts;
  }

  /** A port of the same place gives its shortened name to a port of the specification. */
  ghost predicate Overridden(inferred: seq<ServicePort>, specPorts: seq<ServicePort>, p: ServicePort) {
    exists q, r | q in inferred && r in specPorts :: SamePlace(q, p) && ShortName(q) == r.name
  }

  lemma PlaceKeptOrOverridden(own: ContainerPorts, ports: ContainerPorts, inferred: seq<ServicePort>,
                              specPorts: seq<ServicePort>, p: ServicePort)
    requires forall k | k in own && (forall r | r in specPorts :: r.name != k) :: k in ports && ports[k] == own[k]
    requires forall k | k in own :: own[k].name == k && HasSource(inferred, own[k])
    requires HasPlace(own, p)
    ensures HasPlace(ports, p) || Overridden(inferred, specPorts, p)
  {
    var k :| k in own && SamePlace(own[k], p);
    var q :| q in inferred && ComesFrom(own[k], q);
    if forall r | r in specPorts :: r.name != k {
      assert SamePlace(ports[k], p);
    } else {
      var r :| r in specPorts && r.name == k;
      assert SamePlace(q, p) && ShortName(q) == r.name;
    }
  }

  /** The ports of the container: those of the agent's configuration and of the other one, then those of the
      specification on top. A valid port of the configurations is missing only if another took its shortened name. */
  method GetContainerPorts(config: AgentConfig, otelPorts: seq<ServicePort>, specPorts: seq<ServicePort>,
                           isValid: Check)
    returns (ports: ContainerPorts, servicePorts: seq<ServicePort>)
    ensures var m := GrantedAll(map[], AllRequests(config));
            forall p :: p in servicePorts <==> exists n | n in m :: p in m[n]
    ensures forall p | p in specPorts :: p.name in ports
    ensures forall p | p in servicePorts + otelPorts && isValid(ShortName(p), p.port) ::
              || HasPlace(ports, p) || Overwritten(servicePorts + otelPorts, p)
              || Overridden(servicePorts + otelPorts, specPorts, p)
    ensures specPorts == [] ==> Inferred(ports, servicePorts + otelPorts, isValid)
  {
    servicePorts := GetServicePorts(config);
    var own := InferContainerPorts(servicePorts + otelPorts, isValid);
    ports := MergeSpecPorts(own, servicePorts + otelPorts, specPorts, isValid);
  }

  method MergeSpecPorts(own: ContainerPorts, ghost inferred: seq<ServicePort>, specPorts: seq<ServicePort>,
                        ghost isValid: Check) returns (ports: ContainerPorts)
    requires Inferred(own, inferred, isValid)
    ensures forall p | p in specPorts :: p.name in ports
    ensures forall p | p in inferred && isValid(ShortName(p), p.port) ::
              HasPlace(ports, p) || Overwritten(inferred, p) || Overridden(inferred, specPorts, p)
    ensures specPorts == [] ==> ports == own
  {
    ports := AddSpecPorts(own, specPorts);
    forall p | p in inferred && isValid(ShortName(p), p.port) && !Overwritten(inferred, p)
      ensures HasPlace(ports, p) || Overridden(inferred, specPorts, p)
    {
      PlaceKeptOrOverridden(own, ports, inferred, specPorts, p);
    }
  }
}
