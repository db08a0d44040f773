/** The installation pipeline of one Grafana instance: nine stages that share a status and a few
    variables (controllers/grafana_controller.go and the stage reconcilers). */
module Pipeline {
  import opened Wrappers
  import Strings
  import Ini
  import Plugins
  import PluginsConfig

  datatype Stage =
    | NoStage | AdminUserStage | ConfigStage | PvcStage | ServiceAccountStage | ServiceStage | IngressStage
    | PluginsStage | DeploymentStage | CompleteStage

  datatype StageStatus = NoStatus | Success | Failed | InProgress

  datatype Status = Status(stage: Stage, stageStatus: StageStatus, lastMessage: string, adminUrl: string,
                           dashboards: seq<string>, datasources: seq<string>, folders: seq<string>)

  /** What a stage reports. */
  datatype Report = Report(result: StageStatus, error: Option<string>)

  const SUCCEEDED := Report(Success, None)

  /** Variables passed between the stages of one pass. */
  datatype Vars = Vars(configHash: string, plugins: string)

  /** The parts of the specification that decide a branch. `preferIngress` is false when unset. */
  datatype Spec = Spec(external: Option<string>, preferIngress: bool, hasPvc: bool, namespace: string)

  datatype LoadBalancer = LoadBalancer(hostname: string, ip: string)

  /** An ingress: the host of every rule, the hosts of every TLS entry, the load balancers. */
  datatype Ingress = Ingress(rules: seq<string>, tls: seq<seq<string>>, loadBalancers: seq<LoadBalancer>)

  /** The answer to a create-or-update call; one that reports an error may still have been applied. */
  datatype Answer = Done | Refused(error: string, applied: bool)

  datatype PluginsAnswer =
    | Missing(create: Answer)
    | Unavailable(error: string)
    | Stored(data: map<string, string>, order: seq<string>)

  /** What the API server answers during one pass: errors, and the objects after merging. */
  datatype Answers = Answers(adminUser: Answer, config: Answer, pvc: Answer, serviceAccount: Answer,
                             service: Answer, serviceName: string, networking: Answer, ingress: Ingress,
                             routeHost: string, plugins: PluginsAnswer, deployment: Answer, update: Answer)

  /** SHA-256 in hexadecimal, `strconv.Atoi`, `semver.Parse` and JSON. */
  datatype Library = Library(sha: string -> string, atoi: string -> Option<int>, parse: Plugins.Parser,
                             json: PluginsConfig.Json)

  /** What the pods are started with. */
  datatype Env = Env(configHash: string, plugins: string)

  const GRAFANA_HTTP_PORT := 3000
  const GRAFANA_SERVER_PROTOCOL := "http"

  const STAGES: seq<Stage> :=
    [AdminUserStage, ConfigStage, PvcStage, ServiceAccountStage, ServiceStage, IngressStage, PluginsStage,
     DeploymentStage, CompleteStage]

  function Sections(config: Option<Ini.Sections>): Ini.Sections {
    if config.None? then map[] else config.value
  }

  // The admin URL

  function ServerSetting(config: Option<Ini.Sections>, key: string): string {
    Ini.Setting(Ini.Section(Sections(config), "server"), key)
  }

  function GetGrafanaServerProtocol(config: Option<Ini.Sections>): string {
    var protocol := ServerSetting(config, "protocol");
    if protocol != "" then protocol else GRAFANA_SERVER_PROTOCOL
  }

  function GetGrafanaPort(config: Option<Ini.Sections>, lib: Library): int {
    var port := ServerSetting(config, "http_port");
    if port == "" || lib.atoi(port).None? then GRAFANA_HTTP_PORT else lib.atoi(port).value
  }

  /** Go's conversion to int32. */
  function Int32(x: int): int {
    (x + 0x8000_0000) % 0x1_0000_0000 - 0x8000_0000
  }

  function Digit(d: nat): (c: char)
    requires d < 10
    ensures '0' <= c <= '9'
  {
    '0' + d as char
  }

  function Digits(n: nat): string {
    (if n < 10 then "" else Digits(n / 10)) + [Digit(n % 10)]
  }

  function Decimal(n: int): string {
    if n < 0 then "-" + Digits(-n) else Digits(n)
  }

  function ServiceUrl(spec: Spec, config: Option<Ini.Sections>, name: string, lib: Library): string {
    GetGrafanaServerProtocol(config) + "://" + name + "." + spec.namespace + ".svc.cluster.local:"
    + Decimal(Int32(GetGrafanaPort(config, lib)))
  }

  lemma {:induction false} DigitsAreDigits(n: nat)
    ensures Digits(n) != "" && forall c | c in Digits(n) :: '0' <= c <= '9'
  {
    if n >= 10 { DigitsAreDigits(n / 10); }
  }

  lemma {:induction false} DigitsDiffer(m: nat, n: nat)
    requires m != n
    ensures Digits(m) != Digits(n)
  {
    DigitsAreDigits(m / 10);
    DigitsAreDigits(n / 10);
    if m >= 10 && n >= 10 && m / 10 != n / 10 { DigitsDiffer(m / 10, n / 10); }
    var a, b := if m < 10 then "" else Digits(m / 10), if n < 10 then "" else Digits(n / 10);
    LastDiffers(a, b, Digit(m % 10), Digit(n % 10));
  }

  lemma LastDiffers(a: string, b: string, c: char, d: char)
    requires a != b || c != d
    ensures a + [c] != b + [d]
  {
    assert (a + [c])[..|a|] == a && (b + [d])[..|b|] == b;
    assert (a + [c])[|a|] == c && (b + [d])[|b|] == d;
  }

  lemma DecimalsDiffer(m: int, n: int)
    requires m != n
    ensures Decimal(m) != Decimal(n)
  {
    var a, b := if m < 0 then -m else m, if n < 0 then -n else n;
    DigitsAreDigits(a);
    DigitsAreDigits(b);
    if (m < 0) == (n < 0) {
      DigitsDiffer(a, b);
      assert m < 0 ==> Decimal(m)[1..] == Digits(a) && Decimal(n)[1..] == Digits(b);
    } else {
      assert Digits(a)[0] in Digits(a) && Digits(b)[0] in Digits(b);
      assert (m < 0 ==> Decimal(m)[0] == '-') && (n < 0 ==> Decimal(n)[0] == '-');
    }
  }

  /** The URL names the configured port if and only if that fits into 32 bits with a sign. */
  lemma ServiceUrlNamesPort(spec: Spec, config: Option<Ini.Sections>, name: string, lib: Library)
    ensures var port := GetGrafanaPort(config, lib);
            var host := GetGrafanaServerProtocol(config) + "://" + name + "." + spec.namespace + ".svc.cluster.local:";
            ServiceUrl(spec, config, name, lib) == host + Decimal(port) <==> -0x8000_0000 <= port < 0x8000_0000
  {
    var port := GetGrafanaPort(config, lib);
    var host := GetGrafanaServerProtocol(config) + "://" + name + "." + spec.namespace + ".svc.cluster.local:";
    SameAfter(host, Decimal(Int32(port)), Decimal(port));
    if Int32(port) != port {
      DecimalsDiffer(Int32(port), port);
    }
  }

  lemma SameAfter(host: string, a: string, b: string)
    ensures host + a == host + b <==> a == b
  {
    assert (host + a)[|host|..] == a && (host + b)[|host|..] == b;
  }

  /** The first string that is set, "" if none is. */
  function FirstSet(xs: seq<string>): string {
    if xs == [] then "" else if xs[0] != "" then xs[0] else FirstSet(xs[1..])
  }

  function LastSet(xs: seq<string>): string {
    if xs == [] then "" else if xs[|xs| - 1] != "" then xs[|xs| - 1] else LastSet(xs[..|xs| - 1])
  }

  function Hostnames(lbs: seq<LoadBalancer>): seq<string> {
    seq(|lbs|, i requires 0 <= i < |lbs| => lbs[i].hostname)
  }

  function Ips(lbs: seq<LoadBalancer>): seq<string> {
    seq(|lbs|, i requires 0 <= i < |lbs| => lbs[i].ip)
  }

  /** The load balancer's name, or its address if no load balancer has a name. */
  function LoadBalancerHost(lbs: seq<LoadBalancer>): string {
    if FirstSet(Hostnames(lbs)) != "" then FirstSet(Hostnames(lbs)) else LastSet(Ips(lbs))
  }

  function IngressHost(ingress: Ingress): string {
    if FirstSet(ingress.rules) != "" then FirstSet(ingress.rules) else LoadBalancerHost(ingress.loadBalancers)
  }

  predicate Secured(ingress: Ingress, host: string) {
    exists hosts | hosts in ingress.tls :: host in hosts
  }

  /** The host of the rules, possibly "", decides about TLS even if a load balancer is used. */
  function IngressUrl(ingress: Ingress): string {
    if IngressHost(ingress) == "" then ""
    else (if Secured(ingress, FirstSet(ingress.rules)) then "https" else "http") + "://" + IngressHost(ingress)
  }

  method GetIngressAdminURL(ingress: Ingress) returns (adminUrl: string)
    ensures adminUrl == IngressUrl(ingress)
  {
    var protocol, hostname := "http", "";
    for i := 0 to |ingress.rules|
      invariant hostname == "" && FirstSet(ingress.rules[i..]) == FirstSet(ingress.rules)
    {
      assert ingress.rules[i..][1..] == ingress.rules[i + 1..];
      if ingress.rules[i] != "" {
        hostname := ingress.rules[i];
        break;
      }
    }
    var secured := FindHost(ingress.tls, hostname);
    if secured {
      protocol := "https";
    }
    if hostname == "" {
      hostname := FindLoadBalancer(ingress.loadBalancers);
    }
    return if hostname == "" then "" else protocol + "://" + hostname;
  }

  method FindHost(tls: seq<seq<string>>, hostname: string) returns (found: bool)
    ensures found <==> exists hosts | hosts in tls :: hostname in hosts
  {
    found := false;
    for i := 0 to |tls|
      invariant found <==> exists k | 0 <= k < i :: hostname in tls[k]
    {
      for j := 0 to |tls[i]|
        invariant hostname !in tls[i][..j]
        invariant found <==> exists k | 0 <= k < i :: hostname in tls[k]
      {
        if tls[i][j] == hostname {
          found := true;
          break;
        }
      }
    }
    assert found ==> exists k | 0 <= k < |tls| :: tls[k] in tls && hostname in tls[k];
  }

  method FindLoadBalancer(lbs: seq<LoadBalancer>) returns (hostname: string)
    ensures hostname == LoadBalancerHost(lbs)
  {
    hostname := "";
    var loadBalancerIp := "";
    var names, ips := Hostnames(lbs), Ips(lbs);
    for i := 0 to |lbs|
      invariant hostname == "" && FirstSet(names[i..]) == FirstSet(names) && loadBalancerIp == LastSet(ips[..i])
    {
      assert names[i..][1..] == names[i + 1..] && ips[..i + 1][..i] == ips[..i];
      if lbs[i].hostname != "" {
        hostname := lbs[i].hostname;
        break;
      }
      if lbs[i].ip != "" {
        loadBalancerIp := lbs[i].ip;
      }
    }
    assert ips[..|lbs|] == ips;
    if hostname == "" && loadBalancerIp != "" {
      hostname := loadBalancerIp;
    }
  }

  lemma {:induction false} FirstSetIsSet(xs: seq<string>)
    ensures FirstSet(xs) == "" <==> forall x | x in xs :: x == ""
    ensures FirstSet(xs) != "" ==> FirstSet(xs) in xs
  {
    if xs != [] {
      assert xs[0] in xs && forall x :: x in xs <==> x == xs[0] || x in xs[1..];
      FirstSetIsSet(xs[1..]);
    }
  }

  lemma {:induction false} LastSetIsSet(xs: seq<string>)
    ensures LastSet(xs) == "" <==> forall x | x in xs :: x == ""
    ensures LastSet(xs) != "" ==> LastSet(xs) in xs
  {
    if xs != [] {
      var rest, last := xs[..|xs| - 1], xs[|xs| - 1];
      assert xs == rest + [last];
      assert last in xs && forall x :: x in xs <==> x == last || x in rest;
      LastSetIsSet(rest);
    }
  }

  /** An ingress has no URL exactly when neither a rule nor a load balancer names a host; otherwise
      the URL has one of those hosts. */
  lemma IngressUrlHasHost(ingress: Ingress)
    ensures IngressUrl(ingress) == "" <==>
              (forall h | h in ingress.rules :: h == "")
              && forall lb | lb in ingress.loadBalancers :: lb.hostname == "" && lb.ip == ""
    ensures IngressHost(ingress) != "" ==>
              || IngressHost(ingress) in ingress.rules
              || exists lb :: lb in ingress.loadBalancers && IngressHost(ingress) in {lb.hostname, lb.ip}
  {
    var lbs := ingress.loadBalancers;
    var names, ips := Hostnames(lbs), Ips(lbs);
    FirstSetIsSet(ingress.rules);
    FirstSetIsSet(names);
    LastSetIsSet(ips);
    assert forall i | 0 <= i < |lbs| :: lbs[i] in lbs && names[i] in names && ips[i] in ips;
  }

  lemma {:induction false} FirstSetAt(xs: seq<string>, k: nat)
    requires k < |xs| && xs[k] != "" && forall j: nat | j < k :: xs[j] == ""
    ensures FirstSet(xs) == xs[k]
  {
    if k > 0 {
      assert xs[1..][k - 1] == xs[k];
      FirstSetAt(xs[1..], k - 1);
    }
  }

  lemma {:induction false} LastSetAt(xs: seq<string>, k: nat)
    requires k < |xs| && xs[k] != "" && forall j: nat | k < j < |xs| :: xs[j] == ""
    ensures LastSet(xs) == xs[k]
    decreases |xs|
  {
    if k < |xs| - 1 {
      LastSetAt(xs[..|xs| - 1], k);
    }
  }

  predicate NoneSet(xs: seq<string>) { forall x | x in xs :: x == "" }

  /** The scheme for a host in TLS terms: https exactly if some TLS entry lists it. */
  function Scheme(ingress: Ingress, host: string): string {
    if exists hosts | hosts in ingress.tls :: host in hosts then "https://" else "http://"
  }

  /** MAIN: the URL of an ingress. Of the rules the first that has a host gives it, with https exactly if a
      TLS entry lists this host. */
  lemma RuleUrl(ingress: Ingress, k: nat)
    requires k < |ingress.rules| && ingress.rules[k] != "" && forall j: nat | j < k :: ingress.rules[j] == ""
    ensures (exists hosts | hosts in ingress.tls :: ingress.rules[k] in hosts) ==>
              IngressUrl(ingress) == "https://" + ingress.rules[k]
    ensures (forall hosts | hosts in ingress.tls :: ingress.rules[k] !in hosts) ==>
              IngressUrl(ingress) == "http://" + ingress.rules[k]
  {
    FirstSetAt(ingress.rules, k);
    assert "https" + "://" == "https://" && "http" + "://" == "http://";
  }

  /** MAIN: without one, the first load balancer with a name gives it, or else the last with an address;
      then it is https only if a TLS entry lists the empty host. */
  lemma LoadBalancerUrl(ingress: Ingress, k: nat)
    requires NoneSet(ingress.rules) && k < |ingress.loadBalancers|
    ensures var lbs := ingress.loadBalancers;
            lbs[k].hostname != "" && (forall j: nat | j < k :: lbs[j].hostname == "") ==>
              IngressUrl(ingress) == Scheme(ingress, "") + lbs[k].hostname
    ensures var lbs := ingress.loadBalancers;
            lbs[k].ip != "" && (forall lb | lb in lbs :: lb.hostname == "")
            && (forall j: nat | k < j < |lbs| :: lbs[j].ip == "") ==>
              IngressUrl(ingress) == Scheme(ingress, "") + lbs[k].ip
  {
    var lbs := ingress.loadBalancers;
    var names, ips := Hostnames(lbs), Ips(lbs);
    FirstSetIsSet(ingress.rules);
    FirstSetIsSet(names);
    assert "https" + "://" == "https://" && "http" + "://" == "http://";
    if lbs[k].hostname != "" && (forall j: nat | j < k :: lbs[j].hostname == "") {
      assert names[k] == lbs[k].hostname;
      FirstSetAt(names, k);
    }
    if lbs[k].ip != "" && (forall lb | lb in lbs :: lb.hostname == "") && (forall j: nat | k < j < |lbs| :: lbs[j].ip == "") {
      forall x | x in names ensures x == "" {
        var j :| 0 <= j < |names| && names[j] == x;
        assert lbs[j] in lbs;
      }
      LastSetAt(ips, k);
    }
  }

  /** A server setting of the specification, if it is set. */
  function Configured(config: Option<Ini.Sections>, key: string): Option<string> {
    if config.Some? && "server" in config.value && key in config.value["server"] && config.value["server"][key] != ""
    then Some(config.value["server"][key]) else None
  }

  /** The protocol is the configured one, "http" by default; the port is the configured one if it is a
      number, 3000 by default. */
  lemma ServerDefaults(config: Option<Ini.Sections>, lib: Library)
    ensures var protocol := Configured(config, "protocol");
            GetGrafanaServerProtocol(config) == if protocol.Some? then protocol.value else "http"
    ensures var port := Configured(config, "http_port");
            GetGrafanaPort(config, lib)
            == if port.Some? && lib.atoi(port.value).Some? then lib.atoi(port.value).value else 3000
  {
  }

  /** Decimal digits read as a number. */
  function ValueOf(s: string): int {
    if s == "" then 0 else 10 * ValueOf(s[..|s| - 1]) + (s[|s| - 1] as int - '0' as int)
  }

  lemma ValueOfLonger(s: string, c: char)
    ensures ValueOf(s + [c]) == 10 * ValueOf(s) + (c as int - '0' as int)
  {
    var t := s + [c];
    assert t[..|t| - 1] == s && t[|t| - 1] == c;
  }

  /** The printed number reads back. */
  lemma {:induction false} DigitsRead(n: nat)
    ensures ValueOf(Digits(n)) == n
  {
    ValueOfLonger(if n < 10 then "" else Digits(n / 10), Digit(n % 10));
    if n >= 10 {
      DigitsRead(n / 10);
    }
  }

  // The stages

  /** All that one pass depends on besides the state it changes. */
  datatype Input = Input(spec: Spec, openShift: bool, answers: Answers, lib: Library)

  /** `config` and `status` are the pass's own copies; `ini` is the text in the config map and `env`
      what the deployment sets for its pods, in the cluster. */
  datatype State = State(status: Status, vars: Vars, config: Option<Ini.Sections>, ini: string, env: Option<Env>)

  function ReportOf(a: Answer): Report {
    match a
    case Done => SUCCEEDED
    case Refused(error, _) => Report(Failed, Some(error))
  }

  predicate Applied(a: Answer) { a.Done? || a.applied }

  function WithUrl(s: State, url: string): State {
    s.(status := s.status.(adminUrl := url))
  }

  function IngressReport(inp: Input): Report {
    var a := inp.answers;
    if a.networking.Refused? || inp.openShift || !inp.spec.preferIngress then ReportOf(a.networking)
    else if a.ingress.loadBalancers == [] then Report(InProgress, Some("ingress is not ready yet"))
    else if IngressUrl(a.ingress) == "" then Report(Failed, Some("ingress spec is incomplete"))
    else SUCCEEDED
  }

  /** The URL that the ingress or route gives, if any. */
  function NetworkUrl(inp: Input): Option<string> {
    var a := inp.answers;
    if !inp.spec.preferIngress || IngressReport(inp) != SUCCEEDED then None
    else if !inp.openShift then Some(IngressUrl(a.ingress))
    else if a.routeHost != "" then Some("https://" + a.routeHost)
    else None
  }

  function PluginsResult(inp: Input): Result<string> {
    match inp.answers.plugins
    case Missing(create) => if create.Done? then Ok("") else Err(create.error)
    case Unavailable(error) => Err(error)
    case Stored(data, order) => PluginsConfig.PluginsVar(data, order, inp.lib.parse, inp.lib.json)
  }

  /** The URL that the service gives, if any. */
  function ServiceUrlOf(config: Option<Ini.Sections>, inp: Input): Option<string> {
    if inp.answers.service.Refused? || inp.spec.preferIngress then None
    else Some(ServiceUrl(inp.spec, config, inp.answers.serviceName, inp.lib))
  }

  /** The values that the stages compute. */
  datatype Facts = Facts(text: string, hash: string, serviceUrl: Option<string>, networkUrl: Option<string>,
                         plugins: Result<string>)

  /** How they compute them. */
  ghost function FactsOf(config: Option<Ini.Sections>, inp: Input): Facts {
    var text := Ini.Text(Sections(config));
    Facts(text, inp.lib.sha(text), ServiceUrlOf(config, inp), NetworkUrl(inp), PluginsResult(inp))
  }

  function ForcedConfig(config: Option<Ini.Sections>): Option<Ini.Sections> {
    if config.None? then None else Some(Ini.Forced(config.value))
  }

  /** What a stage does to the state. */
  function Effect(stage: Stage, s: State, f: Facts, a: Answers): State {
    match stage
    case ConfigStage =>
      s.(vars := s.vars.(configHash := f.hash), config := ForcedConfig(s.config),
         ini := if Applied(a.config) then f.text else s.ini)
    case ServiceStage => if f.serviceUrl.None? then s else WithUrl(s, f.serviceUrl.value)
    case IngressStage => if f.networkUrl.None? then s else WithUrl(s, f.networkUrl.value)
    case PluginsStage => if f.plugins.Err? then s else s.(vars := s.vars.(plugins := f.plugins.value))
    case DeploymentStage => if Applied(a.deployment) then s.(env := Some(Env(s.vars.configHash, s.vars.plugins))) else s
    case _ => s
  }

  /** What a stage reports. */
  function Verdict(stage: Stage, inp: Input): Report {
    var a := inp.answers;
    match stage
    case AdminUserStage => ReportOf(a.adminUser)
    case ConfigStage => ReportOf(a.config)
    case PvcStage => if inp.spec.hasPvc then ReportOf(a.pvc) else SUCCEEDED
    case ServiceAccountStage => ReportOf(a.serviceAccount)
    case ServiceStage => ReportOf(a.service)
    case IngressStage => IngressReport(inp)
    case PluginsStage =>
      if PluginsResult(inp).Err? then Report(Failed, Some(PluginsResult(inp).message)) else SUCCEEDED
    case DeploymentStage => ReportOf(a.deployment)
    case _ => SUCCEEDED
  }

  /** A pass from stage n on: the state it ends in and the stages it ran. */
  datatype Pass = Pass(state: State, ran: seq<Stage>)

  function Entered(s: State, stage: Stage): State {
    s.(status := s.status.(stage := stage))
  }

  function Noted(s: State, r: Report): State {
    s.(status := s.status.(stageStatus := r.result, lastMessage := if r.error.None? then "" else r.error.value))
  }

  ghost function AfterStage(s: State, stage: Stage, inp: Input): State {
    Noted(Effect(stage, Entered(s, stage), FactsOf(s.config, inp), inp.answers), Verdict(stage, inp))
  }

  /** What a stage does to the state, and whether the pass goes on after it. */
  datatype Steps = Steps(step: (State, Stage) -> State, good: Stage -> bool)

  ghost function StepsOf(inp: Input): Steps {
    Steps((s, stage) => AfterStage(s, stage, inp), stage => Verdict(stage, inp).result == Success)
  }

  ghost function PassFrom(stages: seq<Stage>, s: State, n: nat, ran: seq<Stage>, w: Steps): Pass
    requires n <= |stages|
    decreases |stages| - n
  {
    if n == |stages| then Pass(s, ran)
    else
      var next, log := w.step(s, stages[n]), ran + [stages[n]];
      if w.good(stages[n]) then PassFrom(stages, next, n + 1, log, w) else Pass(next, log)
  }

  function Started(s: State): State { s.(vars := Vars("", "")) }

  /** One pass over an instance. */
  ghost function Reconciled(s: State, inp: Input): Pass {
    match inp.spec.external
    case Some(url) =>
      Pass(WithUrl(s, url).(status := s.status.(stage := CompleteStage, stageStatus := Success, adminUrl := url)), [])
    case None => PassFrom(STAGES, Started(s), 0, [], StepsOf(inp))
  }

  // Imperative form

  /** A Grafana resource in the operator's memory. */
  class Grafana {
    const spec: Spec
    const config: Ini.Config?
    var status: Status

    constructor (spec: Spec, config: Ini.Config?, status: Status)
      ensures this.spec == spec && this.config == config && this.status == status
    {
      this.spec, this.config, this.status := spec, config, status;
    }
  }

  /** The variables and the next status of a pass, which the stages update. */
  class Progress {
    var vars: Vars
    var status: Status

    constructor (status: Status)
      ensures this.status == status && vars == Vars("", "")
    {
      this.status, vars := status, Vars("", "");
    }
  }

  ghost predicate LegalAnswers(a: Answers) {
    a.plugins.Stored? ==> Strings.IsOrder(a.plugins.order, a.plugins.data.Keys)
  }

  /** The reconciler's request to be called again, and whether it returned an error. */
  datatype Again = Again(requeue: bool, failed: bool)

  /** The cluster as far as the pipeline changes it: the saved status, the config map and the
      pods' environment. `writes` counts status updates. */
  class GrafanaReconciler {
    const openShift: bool
    var stored: Status
    var writes: nat
    var ini: string
    var env: Option<Env>

    constructor (openShift: bool, stored: Status, ini: string, env: Option<Env>)
      ensures this.openShift == openShift && this.stored == stored && writes == 0 && this.ini == ini && this.env == env
    {
      this.openShift, this.stored, writes, this.ini, this.env := openShift, stored, 0, ini, env;
    }

    function ConfigOf(cr: Grafana): Option<Ini.Sections>
      reads cr.config
    {
      if cr.config == null then None else Some(cr.config.sections)
    }

    ghost function StateOf(cr: Grafana, next: Progress): State
      reads this, cr.config, next
    {
      State(next.status, next.vars, ConfigOf(cr), ini, env)
    }

    ghost function InputOf(cr: Grafana, a: Answers, lib: Library): Input {
      Input(cr.spec, openShift, a, lib)
    }

    ghost function FactsFor(cr: Grafana, a: Answers, lib: Library): Facts
      reads cr.config
    {
      FactsOf(ConfigOf(cr), InputOf(cr, a, lib))
    }

    method ReconcileConfig(cr: Grafana, next: Progress, a: Answers, lib: Library) returns (r: Report)
      modifies this`ini, cr.config, next`vars
      ensures StateOf(cr, next) == Effect(ConfigStage, old(StateOf(cr, next)), old(FactsFor(cr, a, lib)), a)
      ensures r == ReportOf(a.config)
    {
      var text, hash := Ini.WriteIni(cr.config, lib.sha);
      next.vars := next.vars.(configHash := hash);
      if Applied(a.config) {
        ini := text;
      }
      return ReportOf(a.config);
    }

    method ReconcileService(cr: Grafana, next: Progress, a: Answers, lib: Library) returns (r: Report)
      modifies next`status
      ensures StateOf(cr, next) == Effect(ServiceStage, old(StateOf(cr, next)), old(FactsFor(cr, a, lib)), a)
      ensures r == ReportOf(a.service)
    {
      if a.service.Refused? {
        return ReportOf(a.service);
      }
      if !cr.spec.preferIngress {
        next.status := next.status.(adminUrl := ServiceUrl(cr.spec, ConfigOf(cr), a.serviceName, lib));
      }
      return SUCCEEDED;
    }

    method ReconcileIngress(cr: Grafana, next: Progress, a: Answers, lib: Library) returns (r: Report)
      requires !openShift
      modifies next`status
      ensures StateOf(cr, next) == Effect(IngressStage, old(StateOf(cr, next)), old(FactsFor(cr, a, lib)), a)
      ensures r == IngressReport(InputOf(cr, a, lib))
    {
      if a.networking.Refused? {
        return ReportOf(a.networking);
      }
      if cr.spec.preferIngress {
        var adminUrl := GetIngressAdminURL(a.ingress);
        if a.ingress.loadBalancers == [] {
          return Report(InProgress, Some("ingress is not ready yet"));
        }
        if adminUrl == "" {
          return Report(Failed, Some("ingress spec is incomplete"));
        }
        next.status := next.status.(adminUrl := adminUrl);
      }
      return SUCCEEDED;
    }

    method ReconcileRoute(cr: Grafana, next: Progress, a: Answers, lib: Library) returns (r: Report)
      requires openShift
      modifies next`status
      ensures StateOf(cr, next) == Effect(IngressStage, old(StateOf(cr, next)), old(FactsFor(cr, a, lib)), a)
      ensures r == IngressReport(InputOf(cr, a, lib))
    {
      if a.networking.Refused? {
        return ReportOf(a.networking);
      }
      if cr.spec.preferIngress {
        if a.routeHost != "" {
          next.status := next.status.(adminUrl := "https://" + a.routeHost);
        }
      }
      return SUCCEEDED;
    }

    method ReconcilePlugins(cr: Grafana, next: Progress, a: Answers, lib: Library) returns (r: Report)
      requires LegalAnswers(a)
      modifies next`vars
      ensures StateOf(cr, next) == Effect(PluginsStage, old(StateOf(cr, next)), old(FactsFor(cr, a, lib)), a)
      ensures r == Verdict(PluginsStage, InputOf(cr, a, lib))
    {
      r := SUCCEEDED;
      match a.plugins
      case Missing(create) =>
        if create.Refused? {
          return ReportOf(create);
        }
        next.vars := next.vars.(plugins := "");
      case Unavailable(error) =>
        return Report(Failed, Some(error));
      case Stored(data, order) =>
        var configMap := new PluginsConfig.PluginsConfigMap();
        configMap.binaryData := data;
        var plugins := configMap.ConsolidatePlugins(order, lib.parse, lib.json);
        if plugins.Err? {
          return Report(Failed, Some(plugins.message));
        }
        next.vars := next.vars.(plugins := plugins.value);
    }

    method ReconcileDeployment(cr: Grafana, next: Progress, a: Answers, lib: Library) returns (r: Report)
      modifies this`env
      ensures StateOf(cr, next) == Effect(DeploymentStage, old(StateOf(cr, next)), old(FactsFor(cr, a, lib)), a)
      ensures r == ReportOf(a.deployment)
    {
      if Applied(a.deployment) {
        env := Some(Env(next.vars.configHash, next.vars.plugins));
      }
      return ReportOf(a.deployment);
    }

    /** The reconciler of one stage. */
    method RunStage(stage: Stage, cr: Grafana, next: Progress, a: Answers, lib: Library) returns (r: Report)
      requires LegalAnswers(a)
      modifies this`ini, this`env, cr.config, next
      ensures StateOf(cr, next) == Effect(stage, old(StateOf(cr, next)), old(FactsFor(cr, a, lib)), a)
      ensures r == Verdict(stage, InputOf(cr, a, lib))
    {
      match stage
      case AdminUserStage => r := ReportOf(a.adminUser);
      case ConfigStage => r := ReconcileConfig(cr, next, a, lib);
      case PvcStage => r := if cr.spec.hasPvc then ReportOf(a.pvc) else SUCCEEDED;
      case ServiceAccountStage => r := ReportOf(a.serviceAccount);
      case ServiceStage => r := ReconcileService(cr, next, a, lib);
      case IngressStage =>
        if openShift {
          r := ReconcileRoute(cr, next, a, lib);
        } else {
          r := ReconcileIngress(cr, next, a, lib);
        }
      case PluginsStage => r := ReconcilePlugins(cr, next, a, lib);
      case DeploymentStage => r := ReconcileDeployment(cr, next, a, lib);
      case _ => r := SUCCEEDED;
    }

    method RunStages(cr: Grafana, next: Progress, a: Answers, lib: Library) returns (ran: seq<Stage>)
      requires LegalAnswers(a)
      modifies this`ini, this`env, cr.config, next
      ensures Pass(StateOf(cr, next), ran) == PassFrom(STAGES, old(StateOf(cr, next)), 0, [], StepsOf(InputOf(cr, a, lib)))
    {
      ran := [];
      for n := 0 to |STAGES|
        invariant PassFrom(STAGES, StateOf(cr, next), n, ran, StepsOf(InputOf(cr, a, lib)))
               == PassFrom(STAGES, old(StateOf(cr, next)), 0, [], StepsOf(InputOf(cr, a, lib)))
      {
        PassOnce(STAGES, StateOf(cr, next), n, ran, StepsOf(InputOf(cr, a, lib)));
        ran := ran + [STAGES[n]];
        var result := RunNext(STAGES[n], cr, next, a, lib);
        if result != Success {
          return;
        }
      }
    }

    /** The body of the stage loop. */
    method RunNext(stage: Stage, cr: Grafana, next: Progress, a: Answers, lib: Library) returns (result: StageStatus)
      requires LegalAnswers(a)
      modifies this`ini, this`env, cr.config, next
      ensures StateOf(cr, next) == AfterStage(old(StateOf(cr, next)), stage, InputOf(cr, a, lib))
      ensures result == Verdict(stage, InputOf(cr, a, lib)).result
    {
      next.status := next.status.(stage := stage);
      var r := RunStage(stage, cr, next, a, lib);
      next.status := next.status.(lastMessage := if r.error.Some? then r.error.value else "");
      next.status := next.status.(stageStatus := r.result);
      return r.result;
    }

    /** Save the next status if it differs. */
    method UpdateStatus(cr: Grafana, next: Progress, update: Answer) returns (again: Again)
      requires cr.status == stored
      modifies this`stored, this`writes, cr`status
      ensures writes == old(writes) + (if next.status != old(stored) && Applied(update) then 1 else 0)
      ensures stored == if Applied(update) then next.status else old(stored)
      ensures cr.status == next.status
      ensures again == if next.status != old(stored) && update.Refused? then Again(true, true)
                       else Again(next.status.stageStatus != Success, false)
    {
      if cr.status != next.status {
        cr.status := next.status;
        if Applied(update) {
          stored, writes := next.status, writes + 1;
        }
        if update.Refused? {
          return Again(true, true);
        }
      }
      return Again(next.status.stageStatus != Success, false);
    }

    /** One pass over a resource that was just read from the API server. */
    method Reconcile(cr: Grafana, a: Answers, lib: Library) returns (again: Again, ran: seq<Stage>)
      requires LegalAnswers(a) && cr.status == stored
      modifies this`stored, this`writes, this`ini, this`env, cr`status, cr.config
      ensures var start := State(old(stored), Vars("", ""), old(ConfigOf(cr)), old(ini), old(env));
              var r := Reconciled(start, InputOf(cr, a, lib));
              var changed := r.state.status != old(stored);
              && ran == r.ran && ini == r.state.ini && env == r.state.env && cr.status == r.state.status
              && ConfigOf(cr) == r.state.config
              && stored == (if Applied(a.update) then r.state.status else old(stored))
              && writes == old(writes) + (if changed && Applied(a.update) then 1 else 0)
              && again == (if changed && a.update.Refused? then Again(true, true)
                           else Again(r.state.status.stageStatus != Success, false))
    {
      var next := new Progress(cr.status);
      ran := [];
      if cr.spec.external.Some? {
        next.status := next.status.(stage := CompleteStage);
        next.status := next.status.(stageStatus := Success);
        next.status := next.status.(adminUrl := cr.spec.external.value);
      } else {
        ran := RunStages(cr, next, a, lib);
      }
      again := UpdateStatus(cr, next, a.update);
    }
  }

  // What a pass achieves

  ghost predicate Succeeds(stage: Stage, inp: Input) { Verdict(stage, inp).result == Success }

  ghost predicate AllSucceed(inp: Input) {
    forall st | st != NoStage :: Succeeds(st, inp)
  }

  lemma AllSucceedIff(inp: Input)
    ensures AllSucceed(inp) <==> FailsFirst(STAGES, |STAGES|, inp)
  {
    forall st | st != NoStage ensures FailsFirst(STAGES, |STAGES|, inp) ==> Succeeds(st, inp) {
      assert STAGES[Position(st)] == st;
    }
  }

  lemma PassOnce(stages: seq<Stage>, s: State, n: nat, ran: seq<Stage>, w: Steps)
    requires n < |stages|
    ensures var next, log := w.step(s, stages[n]), ran + [stages[n]];
            PassFrom(stages, s, n, ran, w)
            == if w.good(stages[n]) then PassFrom(stages, next, n + 1, log, w) else Pass(next, log)
  {
  }

  /** The state after the first n stages, whatever they report. */
  ghost function Reached(stages: seq<Stage>, s: State, n: nat, w: Steps): State
    requires n <= |stages|
  {
    if n == 0 then s else w.step(Reached(stages, s, n - 1, w), stages[n - 1])
  }

  /** All stages before the k-th succeed, and the k-th does not. */
  ghost predicate FailsFirst(stages: seq<Stage>, k: nat, inp: Input)
    requires k <= |stages|
  {
    && (forall i: nat | i < k :: Succeeds(stages[i], inp))
    && (k < |stages| ==> !Succeeds(stages[k], inp))
  }

  function RunLength(stages: seq<Stage>, k: nat): nat { if k < |stages| then k + 1 else k }

  lemma {:induction false} PassFromReached(stages: seq<Stage>, s: State, n: nat, k: nat, w: Steps)
    requires n <= k <= |stages|
    requires (forall i: nat | i < k :: w.good(stages[i])) && (k < |stages| ==> !w.good(stages[k]))
    ensures PassFrom(stages, Reached(stages, s, n, w), n, stages[..n], w)
         == Pass(Reached(stages, s, RunLength(stages, k), w), stages[..RunLength(stages, k)])
    decreases k - n
  {
    if n < |stages| {
      assert stages[..n] + [stages[n]] == stages[..n + 1];
      if n < k {
        PassFromReached(stages, s, n + 1, k, w);
      }
    }
  }

  lemma {:induction false} FirstFailure(stages: seq<Stage>, n: nat, inp: Input) returns (k: nat)
    requires n <= |stages| && forall i: nat | i < n :: Succeeds(stages[i], inp)
    ensures n <= k <= |stages| && FailsFirst(stages, k, inp)
    decreases |stages| - n
  {
    if n < |stages| && Succeeds(stages[n], inp) {
      k := FirstFailure(stages, n + 1, inp);
    } else {
      k := n;
    }
  }

  lemma PassIsReached(s: State, inp: Input) returns (k: nat)
    requires inp.spec.external.None?
    ensures k <= |STAGES| && FailsFirst(STAGES, k, inp)
    ensures var n := RunLength(STAGES, k);
            Reconciled(s, inp) == Pass(Reached(STAGES, Started(s), n, StepsOf(inp)), STAGES[..n])
  {
    k := FirstFailure(STAGES, 0, inp);
    PassFromReached(STAGES, Started(s), 0, k, StepsOf(inp));
    assert STAGES[..0] == [];
  }

  predicate WordedAnswer(a: Answer) { a.Refused? ==> a.error != "" }

  /** Errors of the API server have a text. */
  predicate Worded(a: Answers) {
    && WordedAnswer(a.adminUser) && WordedAnswer(a.config) && WordedAnswer(a.pvc) && WordedAnswer(a.serviceAccount)
    && WordedAnswer(a.service) && WordedAnswer(a.networking) && WordedAnswer(a.deployment)
    && (a.plugins.Missing? ==> WordedAnswer(a.plugins.create))
    && (a.plugins.Unavailable? ==> a.plugins.error != "")
  }

  lemma {:induction false} JoinErrorsWorded(list: seq<Plugins.Plugin>, plugins: seq<Plugins.Plugin>,
                                            parse: Plugins.Parser)
    ensures var r := Plugins.JoinAll(list, plugins, parse, false); r.Err? ==> r.message != ""
    decreases |plugins|
  {
    if plugins != [] {
      NewerErrorsWorded(list, plugins[0], parse);
      var joined := Plugins.Join(list, plugins[0], parse, false);
      if joined.Ok? {
        JoinErrorsWorded(joined.value, plugins[1..], parse);
      }
    }
  }

  lemma {:induction false} NewerErrorsWorded(list: seq<Plugins.Plugin>, plugin: Plugins.Plugin, parse: Plugins.Parser)
    ensures Plugins.Newer(list, plugin, parse).Err? ==> Plugins.Newer(list, plugin, parse).message != ""
  {
    if list != [] {
      NewerErrorsWorded(list[1..], plugin, parse);
    }
  }

  lemma {:induction false} PluginErrorsWorded(list: seq<Plugins.Plugin>, order: seq<string>, data: map<string, string>,
                                              lib: Library)
    ensures var r := PluginsConfig.Consolidated(list, order, data, lib.parse, lib.json);
            r.Err? ==> r.message != ""
    decreases |order|
  {
    if order != [] {
      var plugins := lib.json.unmarshal(PluginsConfig.Bytes(data, order[0]));
      if plugins.Some? {
        JoinErrorsWorded(list, plugins.value, lib.parse);
        var joined := Plugins.JoinAll(list, plugins.value, lib.parse, false);
        if joined.Ok? {
          PluginErrorsWorded(joined.value, order[1..], data, lib);
        }
      }
    }
  }

  /** A stage reports an error exactly when it does not succeed, with a text. */
  lemma VerdictsWorded(stage: Stage, inp: Input)
    requires Worded(inp.answers)
    ensures var r := Verdict(stage, inp);
            && r.result in {Success, Failed, InProgress}
            && (r.result == Success <==> r.error.None?)
            && (r.error.Some? ==> r.error.value != "")
  {
    var a := inp.answers;
    if a.plugins.Stored? {
      PluginErrorsWorded([], a.plugins.order, a.plugins.data, inp.lib);
    }
  }

  predicate IsReport(t: Status, stage: Stage, r: Report) {
    t.stage == stage && t.stageStatus == r.result && t.lastMessage == if r.error.None? then "" else r.error.value
  }

  lemma ReachedStatus(s: State, n: nat, inp: Input)
    requires 0 < n <= |STAGES|
    ensures IsReport(Reached(STAGES, s, n, StepsOf(inp)).status, STAGES[n - 1], Verdict(STAGES[n - 1], inp))
  {
  }

  lemma PassPrefix(s: State, inp: Input)
    requires inp.spec.external.None?
    ensures var ran := Reconciled(s, inp).ran;
            var n := |ran|;
            && 0 < n <= |STAGES| && ran == STAGES[..n] && (forall i: nat | i < n - 1 :: Succeeds(STAGES[i], inp))
            && (Succeeds(STAGES[n - 1], inp) <==> AllSucceed(inp)) && (AllSucceed(inp) ==> n == |STAGES|)
  {
    var k := PassIsReached(s, inp);
    var n := RunLength(STAGES, k);
    assert |STAGES[..n]| == n;
    AllSucceedIff(inp);
    LastOfRun(STAGES, k, inp);
  }

  lemma LastOfRun(stages: seq<Stage>, k: nat, inp: Input)
    requires stages != [] && k <= |stages| && FailsFirst(stages, k, inp)
    ensures var n := RunLength(stages, k);
            0 < n <= |stages| && (forall i: nat | i < n - 1 :: Succeeds(stages[i], inp))
            && (Succeeds(stages[n - 1], inp) <==> k == |stages|)
    ensures FailsFirst(stages, |stages|, inp) <==> k == |stages|
  {
  }

  lemma PassReport(s: State, inp: Input)
    requires inp.spec.external.None?
    ensures 0 < |Reconciled(s, inp).ran| <= |STAGES|
    ensures var r := Reconciled(s, inp);
            var stage := STAGES[|r.ran| - 1];
            IsReport(r.state.status, stage, Verdict(stage, inp))
  {
    var k := PassIsReached(s, inp);
    ReachedStatus(Started(s), RunLength(STAGES, k), inp);
  }

  /** MAIN: the stages run are a prefix of the fixed order, up to the first that does not succeed.
      The saved status is complete and successful exactly when all nine succeed; otherwise it is the
      report of that stage, with a message. */
  lemma PassStopsAtFirstFailure(s: State, inp: Input)
    requires inp.spec.external.None? && Worded(inp.answers)
    ensures var r := Reconciled(s, inp);
            var t := r.state.status;
            var n := |r.ran|;
            && 0 < n <= |STAGES| && r.ran == STAGES[..n]
            && (forall i: nat | i < n - 1 :: Succeeds(STAGES[i], inp))
            && t.stage == STAGES[n - 1] && t.stageStatus == Verdict(STAGES[n - 1], inp).result
            && (t.stageStatus == Success <==> AllSucceed(inp)) && (t.stageStatus == Success ==> n == |STAGES|)
            && (t.stageStatus == Success <==> t.lastMessage == "")
  {
    PassPrefix(s, inp);
    PassReport(s, inp);
    VerdictsWorded(STAGES[|Reconciled(s, inp).ran| - 1], inp);
  }

  /** Forcing the paths does not touch the server settings. */
  lemma ForcedKeepsServer(spec: Spec, config: Option<Ini.Sections>, name: string, lib: Library)
    requires config.Some?
    ensures ServiceUrl(spec, Some(Ini.Forced(config.value)), name, lib) == ServiceUrl(spec, config, name, lib)
  {
    assert "paths" != "server";
    assert Ini.Section(Ini.Forced(config.value), "server") == Ini.Section(config.value, "server");
  }

  lemma FactsForced(config: Option<Ini.Sections>, inp: Input)
    ensures var f, g := FactsOf(config, inp), FactsOf(ForcedConfig(config), inp);
            f.serviceUrl == g.serviceUrl && f.networkUrl == g.networkUrl && f.plugins == g.plugins
  {
    if config.Some? {
      ForcedKeepsServer(inp.spec, config, inp.answers.serviceName, inp.lib);
    }
  }

  function UrlAfter(old_: string, n: nat, f: Facts): string {
    if n >= 6 && f.networkUrl.Some? then f.networkUrl.value
    else if n >= 5 && f.serviceUrl.Some? then f.serviceUrl.value
    else old_
  }

  /** The state after n stages, in terms of the values computed. */
  predicate ReachedShape(s: State, t: State, n: nat, f: Facts, a: Answers) {
    && t.status.dashboards == s.status.dashboards && t.status.datasources == s.status.datasources
    && t.status.folders == s.status.folders && t.status.adminUrl == UrlAfter(s.status.adminUrl, n, f)
    && t.config == (if n >= 2 then ForcedConfig(s.config) else s.config)
    && t.vars.configHash == (if n >= 2 then f.hash else s.vars.configHash)
    && t.ini == (if n >= 2 && Applied(a.config) then f.text else s.ini)
    && t.vars.plugins == (if n >= 7 && f.plugins.Ok? then f.plugins.value else s.vars.plugins)
    && t.env == if n >= 8 && Applied(a.deployment) then Some(Env(f.hash, t.vars.plugins)) else s.env
  }

  lemma ShapeStep(s: State, t: State, n: nat, f: Facts, g: Facts, a: Answers, r: Report)
    requires n < |STAGES| && ReachedShape(s, t, n, f, a)
    requires f.serviceUrl == g.serviceUrl && f.networkUrl == g.networkUrl && f.plugins == g.plugins
    requires n < 2 ==> f == g
    ensures ReachedShape(s, Noted(Effect(STAGES[n], Entered(t, STAGES[n]), g, a), r), n + 1, f, a)
  {
  }

  lemma ReachedStep(s: State, n: nat, inp: Input) returns (t: State, r: Report)
    requires 0 < n <= |STAGES|
    ensures t == Reached(STAGES, s, n - 1, StepsOf(inp))
    ensures var stage := STAGES[n - 1];
            Reached(STAGES, s, n, StepsOf(inp))
            == Noted(Effect(stage, Entered(t, stage), FactsOf(t.config, inp), inp.answers), r)
    ensures r == Verdict(STAGES[n - 1], inp)
  {
    t, r := Reached(STAGES, s, n - 1, StepsOf(inp)), Verdict(STAGES[n - 1], inp);
  }

  lemma ReachedNext(s: State, k: nat, inp: Input)
    requires k < |STAGES|
    requires ReachedShape(s, Reached(STAGES, s, k, StepsOf(inp)), k, FactsOf(s.config, inp), inp.answers)
    ensures ReachedShape(s, Reached(STAGES, s, k + 1, StepsOf(inp)), k + 1, FactsOf(s.config, inp), inp.answers)
  {
    FactsForced(s.config, inp);
    var t, r := ReachedStep(s, k + 1, inp);
    ShapeStep(s, t, k, FactsOf(s.config, inp), FactsOf(t.config, inp), inp.answers, r);
  }

  lemma {:induction false} ReachedIs(s: State, n: nat, inp: Input)
    requires n <= |STAGES|
    ensures ReachedShape(s, Reached(STAGES, s, n, StepsOf(inp)), n, FactsOf(s.config, inp), inp.answers)
  {
    if n > 0 {
      var k: nat := n - 1;
      ReachedIs(s, k, inp);
      ReachedNext(s, k, inp);
      assert n == k + 1;
    }
  }

  lemma PassShape(s: State, inp: Input) returns (n: nat)
    requires inp.spec.external.None?
    ensures 0 < n <= |STAGES| && Reconciled(s, inp).ran == STAGES[..n]
    ensures forall i: nat | i < n - 1 :: Succeeds(STAGES[i], inp)
    ensures AllSucceed(inp) ==> n == |STAGES|
    ensures ReachedShape(Started(s), Reconciled(s, inp).state, n, FactsOf(s.config, inp), inp.answers)
  {
    var k := PassIsReached(s, inp);
    n := RunLength(STAGES, k);
    AllSucceedIff(inp);
    ReachedIs(Started(s), n, inp);
  }

  /** What the stages' success says about the values computed. */
  lemma SuccessFacts(inp: Input)
    ensures Succeeds(STAGES[1], inp) ==> inp.answers.config.Done?
    ensures Succeeds(STAGES[6], inp) ==> PluginsResult(inp).Ok?
    ensures Succeeds(STAGES[7], inp) ==> inp.answers.deployment.Done?
  {
    assert STAGES[1] == ConfigStage && STAGES[6] == PluginsStage && STAGES[7] == DeploymentStage;
  }

  lemma DeploymentRan(n: nat)
    requires n <= |STAGES|
    ensures DeploymentStage in STAGES[..n] <==> n >= 8
  {
    assert n >= 8 ==> STAGES[..n][7] == DeploymentStage;
  }

  /** MAIN: the deployment stage sets the hash of the configuration text and the plugins that were
      computed in the same pass, and the text is then in the config map. */
  lemma DeploymentIsCurrent(s: State, inp: Input)
    requires inp.spec.external.None?
    ensures var r := Reconciled(s, inp);
            var f := FactsOf(s.config, inp);
            if DeploymentStage !in r.ran || !Applied(inp.answers.deployment) then r.state.env == s.env
            else r.state.ini == f.text && f.plugins.Ok? && r.state.env == Some(Env(f.hash, f.plugins.value))
  {
    var n := PassShape(s, inp);
    SuccessFacts(inp);
    DeploymentRan(n);
    assert n >= 8 ==> Succeeds(STAGES[1], inp) && Succeeds(STAGES[6], inp);
  }

  /** MAIN: a complete pass leaves the specification, the config map, the pods' environment and the
      plugins in agreement. */
  lemma CompleteMeansInstalled(s: State, inp: Input)
    requires inp.spec.external.None? && AllSucceed(inp)
    ensures var t := Reconciled(s, inp).state;
            && t.ini == Ini.Text(Sections(s.config)) && PluginsResult(inp).Ok?
            && t.env == Some(Env(inp.lib.sha(t.ini), PluginsResult(inp).value))
  {
    DeploymentIsCurrent(s, inp);
    var n := PassShape(s, inp);
    SuccessFacts(inp);
    AllSucceedIff(inp);
    DeploymentRan(n);
    assert Succeeds(STAGES[7], inp);
  }

  /** MAIN: pods restart for a changed configuration exactly when its meaning changes. The hashes
      that two complete passes give to the pods agree if and only if the configurations do, with
      empty sections dropped and the four paths forced. */
  lemma RestartIffMeaningChanges(s: State, a: Input, t: State, b: Input)
    requires a.spec.external.None? && b.spec.external.None? && a.lib.sha == b.lib.sha
    requires AllSucceed(a) && AllSucceed(b)
    requires Ini.Clean(Sections(s.config)) && Ini.Clean(Sections(t.config))
    requires var x, y := Ini.Text(Sections(s.config)), Ini.Text(Sections(t.config));
             a.lib.sha(x) == a.lib.sha(y) ==> x == y
    ensures Reconciled(s, a).state.env.Some? && Reconciled(t, b).state.env.Some?
    ensures Reconciled(s, a).state.env.value.configHash == Reconciled(t, b).state.env.value.configHash
            <==> Ini.Normal(Sections(s.config)) == Ini.Normal(Sections(t.config))
  {
    CompleteMeansInstalled(s, a);
    CompleteMeansInstalled(t, b);
    Ini.SameTextIffSameMeaning(Sections(s.config), Sections(t.config));
  }

  /** The admin URL that the specification and the cluster determine. */
  function DerivedUrl(config: Option<Ini.Sections>, inp: Input): Option<string> {
    var a := inp.answers;
    if !inp.spec.preferIngress then Some(ServiceUrl(inp.spec, config, a.serviceName, inp.lib))
    else if !inp.openShift then Some(IngressUrl(a.ingress))
    else if a.routeHost != "" then Some("https://" + a.routeHost)
    else None
  }

  lemma UrlsAgree(config: Option<Ini.Sections>, inp: Input)
    ensures var service, network, url := ServiceUrlOf(config, inp), NetworkUrl(inp), DerivedUrl(config, inp);
            && (service.Some? ==> service == url) && (network.Some? ==> network == url)
            && (inp.answers.service.Done? && IngressReport(inp) == SUCCEEDED ==>
                  url == if network.Some? then network else service)
  {
    if inp.spec.preferIngress {
      assert ServiceUrlOf(config, inp).None?;
    } else {
      assert NetworkUrl(inp).None?;
    }
  }

  lemma FactsGiveUrl(config: Option<Ini.Sections>, inp: Input)
    ensures var f := FactsOf(config, inp);
            && (f.serviceUrl.Some? ==> f.serviceUrl == DerivedUrl(config, inp))
            && (f.networkUrl.Some? ==> f.networkUrl == DerivedUrl(config, inp))
            && (Succeeds(ServiceStage, inp) && Succeeds(IngressStage, inp) ==>
                  if f.networkUrl.Some? then DerivedUrl(config, inp) == f.networkUrl
                  else DerivedUrl(config, inp) == f.serviceUrl)
  {
    UrlsAgree(config, inp);
    NetworkSucceeds(inp);
  }

  lemma NetworkSucceeds(inp: Input)
    ensures Succeeds(ServiceStage, inp) ==> inp.answers.service.Done?
    ensures Succeeds(IngressStage, inp) ==> IngressReport(inp) == SUCCEEDED
  {
  }

  lemma DerivedUrlIsSet(config: Option<Ini.Sections>, inp: Input)
    requires Succeeds(IngressStage, inp) && DerivedUrl(config, inp).Some?
    ensures DerivedUrl(config, inp).value != ""
  {
    NetworkSucceeds(inp);
  }

  /** MAIN: the admin URL of a complete pass is the derived one, and not empty; a route without a host
      leaves the old one. An incomplete pass leaves the old one or sets the derived one. What other
      controllers recorded in the status stays. */
  lemma AdminUrlIsDerived(s: State, inp: Input)
    requires inp.spec.external.None?
    ensures var t := Reconciled(s, inp).state.status;
            var url := DerivedUrl(s.config, inp);
            && (t.adminUrl == s.status.adminUrl || Some(t.adminUrl) == url)
            && (AllSucceed(inp) ==>
                  t.adminUrl == (if url.Some? then url.value else s.status.adminUrl)
                  && (url.Some? ==> url.value != ""))
            && t.dashboards == s.status.dashboards && t.datasources == s.status.datasources
            && t.folders == s.status.folders
  {
    var n := PassShape(s, inp);
    FactsGiveUrl(s.config, inp);
    if AllSucceed(inp) && DerivedUrl(s.config, inp).Some? {
      DerivedUrlIsSet(s.config, inp);
    }
  }

  /** MAIN: the admin URL of a complete pass, spelled out: the service's with configured protocol and
      port unless an ingress is preferred; else that of the first rule with a host, or that of the
      route. */
  lemma AdminUrlText(s: State, inp: Input)
    requires inp.spec.external.None? && AllSucceed(inp)
    ensures var url := Reconciled(s, inp).state.status.adminUrl;
            !inp.spec.preferIngress ==>
              url == GetGrafanaServerProtocol(s.config) + "://" + inp.answers.serviceName + "." + inp.spec.namespace
                     + ".svc.cluster.local:" + Decimal(Int32(GetGrafanaPort(s.config, inp.lib)))
    ensures var url := Reconciled(s, inp).state.status.adminUrl;
            var ingress := inp.answers.ingress;
            inp.spec.preferIngress && !inp.openShift ==>
              forall k: nat | k < |ingress.rules| && ingress.rules[k] != "" && forall j: nat | j < k :: ingress.rules[j] == "" ::
                url == Scheme(ingress, ingress.rules[k]) + ingress.rules[k]
    ensures var url := Reconciled(s, inp).state.status.adminUrl;
            inp.spec.preferIngress && inp.openShift && inp.answers.routeHost != "" ==>
              url == "https://" + inp.answers.routeHost
  {
    AdminUrlIsDerived(s, inp);
    var ingress := inp.answers.ingress;
    forall k: nat | k < |ingress.rules| && ingress.rules[k] != "" && forall j: nat | j < k :: ingress.rules[j] == ""
      ensures IngressUrl(ingress) == Scheme(ingress, ingress.rules[k]) + ingress.rules[k]
    {
      RuleUrl(ingress, k);
    }
  }

  /** An external instance is complete at once, under its own URL; nothing is installed. */
  lemma ExternalPass(s: State, inp: Input, url: string)
    requires inp.spec.external == Some(url)
    ensures var r := Reconciled(s, inp);
            && r.ran == [] && r.state == s.(status := r.state.status)
            && r.state.status.stage == CompleteStage && r.state.status.stageStatus == Success
            && r.state.status.adminUrl == url && r.state.status.lastMessage == s.status.lastMessage
  {
  }

  // Which stages run

  /** The network stage can give what is asked for. */
  ghost predicate NetworkReady(inp: Input) {
    inp.answers.networking.Done? &&
    (inp.spec.preferIngress && !inp.openShift ==>
       inp.answers.ingress.loadBalancers != [] && NamesHost(inp.answers.ingress))
  }

  ghost predicate NamesHost(ingress: Ingress) {
    || (exists h :: h in ingress.rules && h != "")
    || (exists lb :: lb in ingress.loadBalancers && (lb.hostname != "" || lb.ip != ""))
  }

  ghost predicate PluginsReady(inp: Input) {
    match inp.answers.plugins
    case Missing(create) => create.Done?
    case Unavailable(_) => false
    case Stored(data, order) => PluginsConfig.PluginsVar(data, order, inp.lib.parse, inp.lib.json).Ok?
  }

  lemma SucceedsWhen(inp: Input)
    ensures Succeeds(AdminUserStage, inp) <==> inp.answers.adminUser.Done?
    ensures Succeeds(ConfigStage, inp) <==> inp.answers.config.Done?
    ensures Succeeds(PvcStage, inp) <==> (inp.spec.hasPvc ==> inp.answers.pvc.Done?)
    ensures Succeeds(ServiceAccountStage, inp) <==> inp.answers.serviceAccount.Done?
    ensures Succeeds(ServiceStage, inp) <==> inp.answers.service.Done?
    ensures Succeeds(IngressStage, inp) <==> NetworkReady(inp)
    ensures Succeeds(PluginsStage, inp) <==> PluginsReady(inp)
    ensures Succeeds(DeploymentStage, inp) <==> inp.answers.deployment.Done?
    ensures Succeeds(CompleteStage, inp)
  {
    IngressUrlHasHost(inp.answers.ingress);
  }

  lemma InRun(n: nat, i: nat)
    requires n <= |STAGES| && i < |STAGES|
    ensures STAGES[i] in STAGES[..n] <==> i < n
  {
    assert i < n ==> STAGES[..n][i] == STAGES[i];
  }

  /** A stage runs if and only if all stages before it succeed. */
  lemma RunsIff(s: State, inp: Input, i: nat)
    requires inp.spec.external.None? && i < |STAGES|
    ensures STAGES[i] in Reconciled(s, inp).ran <==> forall j: nat | j < i :: Succeeds(STAGES[j], inp)
  {
    PassPrefix(s, inp);
    var n := |Reconciled(s, inp).ran|;
    InRun(n, i);
    assert i >= n ==> !Succeeds(STAGES[n - 1], inp);
  }

  /** What each stage waits for. */
  predicate WaitsFor(next: Stage, stage: Stage) {
    match next
    case ConfigStage => stage == AdminUserStage
    case PvcStage => stage == ConfigStage
    case ServiceAccountStage => stage == PvcStage
    case ServiceStage => stage == ServiceAccountStage
    case IngressStage => stage == ServiceStage
    case PluginsStage => stage == IngressStage
    case DeploymentStage => stage == PluginsStage
    case CompleteStage => stage == DeploymentStage
    case _ => false
  }

  function Position(stage: Stage): nat {
    match stage
    case NoStage | AdminUserStage => 0
    case ConfigStage => 1
    case PvcStage => 2
    case ServiceAccountStage => 3
    case ServiceStage => 4
    case IngressStage => 5
    case PluginsStage => 6
    case DeploymentStage => 7
    case CompleteStage => 8
  }

  lemma PositionOf(next: Stage, stage: Stage) returns (i: nat)
    requires WaitsFor(next, stage)
    ensures i + 1 < |STAGES| && STAGES[i] == stage && STAGES[i + 1] == next
  {
    i := Position(stage);
  }

  /** A stage runs if and only if the one it waits for does and succeeds. */
  lemma RunsAfter(s: State, inp: Input, next: Stage, stage: Stage)
    requires inp.spec.external.None? && WaitsFor(next, stage)
    ensures next in Reconciled(s, inp).ran <==> stage in Reconciled(s, inp).ran && Succeeds(stage, inp)
  {
    var i := PositionOf(next, stage);
    RunsIff(s, inp, i);
    RunsIff(s, inp, i + 1);
    Before(i, inp);
  }

  lemma Before(i: nat, inp: Input)
    requires i < |STAGES|
    ensures (forall j: nat | j < i + 1 :: Succeeds(STAGES[j], inp))
            <==> (forall j: nat | j < i :: Succeeds(STAGES[j], inp)) && Succeeds(STAGES[i], inp)
  {
  }

  /** MAIN: the stages in order, each after what it waits for. */
  lemma StagesRun(s: State, inp: Input)
    requires inp.spec.external.None?
    ensures var ran, a := Reconciled(s, inp).ran, inp.answers;
            && AdminUserStage in ran
            && (ConfigStage in ran <==> a.adminUser.Done?)
            && (PvcStage in ran <==> ConfigStage in ran && a.config.Done?)
            && (ServiceAccountStage in ran <==> PvcStage in ran && (inp.spec.hasPvc ==> a.pvc.Done?))
            && (ServiceStage in ran <==> ServiceAccountStage in ran && a.serviceAccount.Done?)
            && (IngressStage in ran <==> ServiceStage in ran && a.service.Done?)
            && (PluginsStage in ran <==> IngressStage in ran && NetworkReady(inp))
            && (DeploymentStage in ran <==> PluginsStage in ran && PluginsReady(inp))
            && (CompleteStage in ran <==> DeploymentStage in ran && a.deployment.Done?)
  {
    SucceedsWhen(inp);
    FirstRuns(s, inp);
    RunsAfter(s, inp, ConfigStage, AdminUserStage);
    RunsAfter(s, inp, PvcStage, ConfigStage);
    RunsAfter(s, inp, ServiceAccountStage, PvcStage);
    RunsAfter(s, inp, ServiceStage, ServiceAccountStage);
    RunsAfter(s, inp, IngressStage, ServiceStage);
    RunsAfter(s, inp, PluginsStage, IngressStage);
    RunsAfter(s, inp, DeploymentStage, PluginsStage);
    RunsAfter(s, inp, CompleteStage, DeploymentStage);
  }

  lemma FirstRuns(s: State, inp: Input)
    requires inp.spec.external.None?
    ensures AdminUserStage in Reconciled(s, inp).ran
  {
    RunsIff(s, inp, 0);
  }

  /** MAIN: a pass waits, instead of failing or succeeding, exactly for the load balancer of a preferred
      ingress. */
  lemma WaitsIff(s: State, inp: Input)
    requires inp.spec.external.None?
    ensures var r := Reconciled(s, inp);
            r.state.status.stageStatus == InProgress <==>
              && IngressStage in r.ran && inp.answers.networking.Done? && inp.spec.preferIngress && !inp.openShift
              && inp.answers.ingress.loadBalancers == []
  {
    PassPrefix(s, inp);
    PassReport(s, inp);
    var r := Reconciled(s, inp);
    var n := |r.ran|;
    InProgressIff(STAGES[n - 1], inp);
    InRun(n, 5);
    assert STAGES[5] == IngressStage && (STAGES[n - 1] == IngressStage ==> n == 6);
    assert n > 6 ==> Succeeds(STAGES[5], inp);
  }

  lemma InProgressIff(stage: Stage, inp: Input)
    ensures Verdict(stage, inp).result == InProgress <==>
              && stage == IngressStage && inp.answers.networking.Done? && inp.spec.preferIngress && !inp.openShift
              && inp.answers.ingress.loadBalancers == []
  {
  }

  /** The answer to the call that a stage makes. */
  predicate AnswerOf(stage: Stage, inp: Input, a: Answer) {
    || (stage == AdminUserStage && a == inp.answers.adminUser)
    || (stage == ConfigStage && a == inp.answers.config)
    || (stage == PvcStage && inp.spec.hasPvc && a == inp.answers.pvc)
    || (stage == ServiceAccountStage && a == inp.answers.serviceAccount)
    || (stage == ServiceStage && a == inp.answers.service)
    || (stage == IngressStage && a == inp.answers.networking)
    || (stage == PluginsStage && inp.answers.plugins == Missing(a))
    || (stage == DeploymentStage && a == inp.answers.deployment)
  }

  /** A refused call ends the pass with its error as the message. */
  lemma MessageIs(s: State, inp: Input, stage: Stage, a: Answer)
    requires inp.spec.external.None? && stage in Reconciled(s, inp).ran && AnswerOf(stage, inp, a) && a.Refused?
    ensures var t := Reconciled(s, inp).state.status;
            t.stage == stage && t.stageStatus == Failed && t.lastMessage == a.error
  {
    RefusedVerdict(inp, stage, a);
    PassPrefix(s, inp);
    PassReport(s, inp);
    var ran := Reconciled(s, inp).ran;
    var k :| 0 <= k < |ran| && ran[k] == stage;
    assert k == |ran| - 1;
  }

  lemma RefusedVerdict(inp: Input, stage: Stage, a: Answer)
    requires AnswerOf(stage, inp, a) && a.Refused?
    ensures Verdict(stage, inp) == Report(Failed, Some(a.error))
  {
  }

  /** The plugins that a complete pass installs: none before a first request, and else the consolidated
      list of what is stored. */
  lemma InstalledPlugins(s: State, inp: Input)
    requires inp.spec.external.None? && AllSucceed(inp)
    ensures Reconciled(s, inp).state.env.Some?
    ensures inp.answers.plugins.Missing? ==> Reconciled(s, inp).state.env.value.plugins == ""
    ensures inp.answers.plugins.Stored? ==>
              var a := inp.answers.plugins;
              PluginsConfig.PluginsVar(a.data, a.order, inp.lib.parse, inp.lib.json)
              == Ok(Reconciled(s, inp).state.env.value.plugins)
  {
    CompleteMeansInstalled(s, inp);
  }

  /** A complete pass over two statuses gives the same URL whatever they held exactly unless a route
      without a host was to give it. */
  lemma UrlIndependentOfPastIff(s: State, inp: Input)
    requires inp.spec.external.None? && AllSucceed(inp)
    ensures (forall u: string, v: string ::
               Reconciled(WithUrl(s, u), inp).state.status.adminUrl
               == Reconciled(WithUrl(s, v), inp).state.status.adminUrl)
            <==> !(inp.openShift && inp.spec.preferIngress && inp.answers.routeHost == "")
  {
    forall u: string ensures DerivedUrl(s.config, inp).Some? ==>
                               Reconciled(WithUrl(s, u), inp).state.status.adminUrl == DerivedUrl(s.config, inp).value
    {
      AdminUrlIsDerived(WithUrl(s, u), inp);
    }
    AdminUrlIsDerived(WithUrl(s, ""), inp);
    AdminUrlIsDerived(WithUrl(s, "x"), inp);
  }

  lemma ShapeRepeats(s: State, t: State, u: State, n: nat, f: Facts, a: Answers)
    requires ReachedShape(s, t, n, f, a) && ReachedShape(Started(t.(config := s.config)), u, n, f, a)
    requires s == Started(s) && (n >= 8 ==> f.plugins.Ok?)
    ensures u.ini == t.ini && u.env == t.env && u.status.adminUrl == t.status.adminUrl
    ensures u.status.dashboards == t.status.dashboards && u.status.datasources == t.status.datasources
    ensures u.status.folders == t.status.folders
  {
  }

  lemma SameReport(t: Status, u: Status, stage: Stage, r: Report)
    requires IsReport(t, stage, r) && IsReport(u, stage, r) && t.adminUrl == u.adminUrl
    requires t.dashboards == u.dashboards && t.datasources == u.datasources && t.folders == u.folders
    ensures t == u
  {
  }

  lemma ReachedRepeats(s: State, k: nat, inp: Input)
    requires k <= |STAGES| && FailsFirst(STAGES, k, inp) && s == Started(s)
    ensures var n := RunLength(STAGES, k);
            var t := Reached(STAGES, s, n, StepsOf(inp));
            var u := Reached(STAGES, Started(t.(config := s.config)), n, StepsOf(inp));
            t.status == u.status && t.ini == u.ini && t.env == u.env
  {
    var n := RunLength(STAGES, k);
    var t := Reached(STAGES, s, n, StepsOf(inp));
    var s' := Started(t.(config := s.config));
    var u, f := Reached(STAGES, s', n, StepsOf(inp)), FactsOf(s.config, inp);
    ReachedIs(s, n, inp);
    ReachedIs(s', n, inp);
    SuccessFacts(inp);
    assert n >= 8 ==> Succeeds(STAGES[6], inp);
    ShapeRepeats(s, t, u, n, f, inp.answers);
    ReachedStatus(s, n, inp);
    ReachedStatus(s', n, inp);
    SameReport(t.status, u.status, STAGES[n - 1], Verdict(STAGES[n - 1], inp));
  }

  /** MAIN: repeating a pass with the same answers changes neither the status, so that none is
      written, nor the cluster. The configuration is read afresh, without the forced paths. */
  lemma RepeatedPassChangesNothing(s: State, inp: Input)
    ensures var t := Reconciled(s, inp).state;
            var again := Reconciled(t.(config := s.config), inp);
            again.state.status == t.status && again.state.ini == t.ini && again.state.env == t.env
            && again.ran == Reconciled(s, inp).ran
  {
    if inp.spec.external.None? {
      var t := Reconciled(s, inp).state.(config := s.config);
      var k := PassIsReached(s, inp);
      PassFromReached(STAGES, Started(t), 0, k, StepsOf(inp));
      assert STAGES[..0] == [];
      ReachedRepeats(Started(s), k, inp);
    }
  }

  // Runs

  /** Between passes the specification may change in any way; `saved` says whether the status was. */
  datatype Turn = Turn(config: Option<Ini.Sections>, input: Input, saved: bool)

  ghost function StateAfter(start: State, turns: seq<Turn>): State {
    if turns == [] then start
    else
      var turn := turns[|turns| - 1];
      var before := StateAfter(start, turns[..|turns| - 1]).(config := turn.config);
      var r := Reconciled(before, turn.input).state;
      if turn.saved then r else r.(status := before.status)
  }

  /** The URL that one turn can set. */
  function TurnUrl(turn: Turn): Option<string> {
    if turn.input.spec.external.Some? then turn.input.spec.external else DerivedUrl(turn.config, turn.input)
  }

  /** Over every run, the saved admin URL is the first one or was derived in some saved pass from the
      specification of that time. */
  lemma {:induction false} AdminUrlHasASource(start: State, turns: seq<Turn>)
    ensures var url := StateAfter(start, turns).status.adminUrl;
            || url == start.status.adminUrl
            || exists m: nat :: m < |turns| && turns[m].saved && TurnUrl(turns[m]) == Some(url)
  {
    if turns != [] {
      var n := |turns| - 1;
      var turn := turns[n];
      var before := StateAfter(start, turns[..n]).(config := turn.config);
      AdminUrlHasASource(start, turns[..n]);
      assert forall m: nat | m < n :: turns[..n][m] == turns[m];
      if turn.input.spec.external.None? {
        AdminUrlIsDerived(before, turn.input);
      }
    }
  }
}
