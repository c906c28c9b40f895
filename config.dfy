/** pkg/config/config.go: the forward-proxy agent configuration, its defaults,
    its validation and the command-line flags that override it. Reading and
    decoding the YAML file are left out; the decoded values are the inputs. */
module Config {
  import opened Wrappers

  datatype AgentConfig = AgentConfig(
    description: string,
    region: string,
    apiKey: string,
    certDir: string,
    certFile: string,
    keyFile: string,
    ingressEndpoint: string)

  /** `enabled` is the optional boolean of the YAML file: None when absent. */
  datatype EndpointConfig = EndpointConfig(
    name: string,
    uri: string,
    port: int,
    localPort: int,
    localAddress: string,
    enabled: Option<bool>)

  datatype HealthConfig = HealthConfig(enabled: bool, port: int, address: string)

  datatype LoggingConfig = LoggingConfig(level: string, format: string, verbose: bool)

  /** The contents of a Config at one moment. */
  datatype Settings = Settings(
    agent: AgentConfig,
    endpoints: seq<EndpointConfig>,
    health: HealthConfig,
    logging: LoggingConfig)

  const DefaultDescription: string := "ngrok forward proxy agent"
  const DefaultRegion: string := "global"
  const DefaultEndpointPort: int := 443
  const DefaultLocalAddress: string := "127.0.0.1"
  const DefaultHealthPort: int := 8081
  const DefaultHealthAddress: string := "127.0.0.1"
  const DefaultLevel: string := "info"
  const DefaultFormat: string := "text"

  const ValidRegions: set<string> := {"us", "eu", "ap", "au", "sa", "jp", "in", "global"}
  const ValidLevels: set<string> := {"info", "debug", "error"}
  const ValidFormats: set<string> := {"text", "json"}

  /** An empty string replaced by its default. */
  function OrDefault(value: string, fallback: string): string {
    if value == "" then fallback else value
  }

  /** A zero replaced by its default. */
  function OrDefaultInt(value: int, fallback: int): int {
    if value == 0 then fallback else value
  }

  /** The defaults setDefaults gives one endpoint. */
  function EndpointWithDefaults(ep: EndpointConfig): EndpointConfig {
    ep.(port := OrDefaultInt(ep.port, DefaultEndpointPort),
        localAddress := OrDefault(ep.localAddress, DefaultLocalAddress),
        enabled := if ep.enabled.None? then Some(true) else ep.enabled)
  }

  function AgentWithDefaults(agent: AgentConfig, defaultCertDir: string): AgentConfig {
    agent.(description := OrDefault(agent.description, DefaultDescription),
           region := OrDefault(agent.region, DefaultRegion),
           certDir := OrDefault(agent.certDir, defaultCertDir))
  }

  function HealthWithDefaults(health: HealthConfig): HealthConfig {
    health.(port := OrDefaultInt(health.port, DefaultHealthPort),
            address := OrDefault(health.address, DefaultHealthAddress))
  }

  function LoggingWithDefaults(logging: LoggingConfig): LoggingConfig {
    logging.(level := OrDefault(logging.level, DefaultLevel),
             format := OrDefault(logging.format, DefaultFormat))
  }

  /** setDefaults, as a value. `defaultCertDir` stands for the certificate directory
      under the user's home directory, which the environment decides. */
  function WithDefaults(s: Settings, defaultCertDir: string): Settings {
    Settings(
      AgentWithDefaults(s.agent, defaultCertDir),
      seq(|s.endpoints|, i requires 0 <= i < |s.endpoints| => EndpointWithDefaults(s.endpoints[i])),
      HealthWithDefaults(s.health),
      LoggingWithDefaults(s.logging))
  }

  /** Every field setDefaults fills is filled. */
  predicate Defaulted(s: Settings) {
    s.agent.description != "" && s.agent.region != ""
    && (forall i :: 0 <= i < |s.endpoints| ==>
          s.endpoints[i].port != 0 && s.endpoints[i].localAddress != "" && s.endpoints[i].enabled.Some?)
    && s.health.port != 0 && s.health.address != ""
    && s.logging.level != "" && s.logging.format != ""
  }

  /** After the defaults every endpoint has a port, a local address and an enabled flag,
      and every other defaulted field is set. */
  lemma {:induction false} WithDefaultsFills(s: Settings, defaultCertDir: string)
    ensures Defaulted(WithDefaults(s, defaultCertDir))
    ensures defaultCertDir != "" ==> WithDefaults(s, defaultCertDir).agent.certDir != ""
  {
  }

  /** An endpoint without an enabled flag becomes enabled; a present flag is kept. */
  lemma {:induction false} EnabledDefault(ep: EndpointConfig)
    ensures ep.enabled.None? ==> EndpointWithDefaults(ep).enabled == Some(true)
    ensures ep.enabled.Some? ==> EndpointWithDefaults(ep).enabled == ep.enabled
  {
  }

  /** The defaults change no field that is already set, whatever the other fields
      hold; the fields without a default are never touched. */
  lemma {:induction false} WithDefaultsKeepsSet(s: Settings, defaultCertDir: string)
    ensures var r := WithDefaults(s, defaultCertDir);
      && r.agent.apiKey == s.agent.apiKey && r.agent.certFile == s.agent.certFile
      && r.agent.keyFile == s.agent.keyFile && r.agent.ingressEndpoint == s.agent.ingressEndpoint
      && (s.agent.description != "" ==> r.agent.description == s.agent.description)
      && (s.agent.region != "" ==> r.agent.region == s.agent.region)
      && (s.agent.certDir != "" ==> r.agent.certDir == s.agent.certDir)
      && |r.endpoints| == |s.endpoints|
      && (forall i :: 0 <= i < |s.endpoints| ==>
            && r.endpoints[i].name == s.endpoints[i].name && r.endpoints[i].uri == s.endpoints[i].uri
            && r.endpoints[i].localPort == s.endpoints[i].localPort
            && (s.endpoints[i].port != 0 ==> r.endpoints[i].port == s.endpoints[i].port)
            && (s.endpoints[i].localAddress != "" ==> r.endpoints[i].localAddress == s.endpoints[i].localAddress)
            && (s.endpoints[i].enabled.Some? ==> r.endpoints[i].enabled == s.endpoints[i].enabled))
      && r.health.enabled == s.health.enabled
      && (s.health.port != 0 ==> r.health.port == s.health.port)
      && (s.health.address != "" ==> r.health.address == s.health.address)
      && r.logging.verbose == s.logging.verbose
      && (s.logging.level != "" ==> r.logging.level == s.logging.level)
      && (s.logging.format != "" ==> r.logging.format == s.logging.format)
  {
  }

  /** A configuration with every defaulted field set is a fixed point. */
  lemma {:induction false} WithDefaultsFixed(s: Settings, defaultCertDir: string)
    requires Defaulted(s) && s.agent.certDir != ""
    ensures WithDefaults(s, defaultCertDir) == s
  {
    var r := WithDefaults(s, defaultCertDir);
    assert r.endpoints == s.endpoints;
  }

  /** Applying the defaults twice is applying them once. */
  lemma {:induction false} WithDefaultsIdempotent(s: Settings, defaultCertDir: string)
    ensures WithDefaults(WithDefaults(s, defaultCertDir), defaultCertDir) == WithDefaults(s, defaultCertDir)
  {
    var once := WithDefaults(s, defaultCertDir);
    assert WithDefaults(once, defaultCertDir).endpoints == once.endpoints;
  }

  /** What Validate reports about one endpoint. */
  datatype EndpointProblem = MissingName | MissingUri | InvalidLocalPort(localPort: int) | InvalidPort(port: int)

  datatype ConfigError =
    | InvalidRegion(region: string)
    | NoEndpoints
    | InvalidEndpoint(index: nat, name: string, problem: EndpointProblem)
    | InvalidLevel(level: string)
    | InvalidFormat(format: string)

  predicate IsPort(n: int) {
    1 <= n <= 65535
  }

  /** The first check one endpoint fails, in the order Validate tries them. */
  function EndpointCheck(ep: EndpointConfig): Option<EndpointProblem> {
    if ep.name == "" then Some(MissingName)
    else if ep.uri == "" then Some(MissingUri)
    else if !IsPort(ep.localPort) then Some(InvalidLocalPort(ep.localPort))
    else if !IsPort(ep.port) then Some(InvalidPort(ep.port))
    else None
  }

  /** The first failing endpoint at or after `from`: its index is that of an endpoint
      that fails, and every endpoint between `from` and it passes. */
  function FirstEndpointError(eps: seq<EndpointConfig>, from: nat): (r: Option<ConfigError>)
    requires from <= |eps|
    ensures r.None? <==> forall k :: from <= k < |eps| ==> EndpointCheck(eps[k]).None?
    ensures r.Some? ==>
      && r.value.InvalidEndpoint? && from <= r.value.index < |eps|
      && EndpointCheck(eps[r.value.index]) == Some(r.value.problem)
      && r.value.name == eps[r.value.index].name
      && (forall k :: from <= k < r.value.index ==> EndpointCheck(eps[k]).None?)
    decreases |eps| - from
  {
    if from == |eps| then None
    else match EndpointCheck(eps[from])
      case Some(p) => Some(InvalidEndpoint(from, eps[from].name, p))
      case None => FirstEndpointError(eps, from + 1)
  }

  /** Validate, as a value: the first error in the order the checks are made. */
  function Check(s: Settings): Option<ConfigError> {
    if s.agent.region !in ValidRegions then Some(InvalidRegion(s.agent.region))
    else if |s.endpoints| == 0 then Some(NoEndpoints)
    else if FirstEndpointError(s.endpoints, 0).Some? then FirstEndpointError(s.endpoints, 0)
    else if s.logging.level !in ValidLevels then Some(InvalidLevel(s.logging.level))
    else if s.logging.format !in ValidFormats then Some(InvalidFormat(s.logging.format))
    else None
  }

  /** A configuration passes exactly when every value it checks is in range. */
  lemma {:induction false} CheckAccepts(s: Settings)
    ensures Check(s).None? <==>
      s.agent.region in ValidRegions
      && |s.endpoints| > 0
      && (forall k :: 0 <= k < |s.endpoints| ==>
            s.endpoints[k].name != "" && s.endpoints[k].uri != ""
            && IsPort(s.endpoints[k].localPort) && IsPort(s.endpoints[k].port))
      && s.logging.level in ValidLevels
      && s.logging.format in ValidFormats
  {
    if |s.endpoints| > 0 {
      var r := FirstEndpointError(s.endpoints, 0);
      assert r.None? <==> forall k :: 0 <= k < |s.endpoints| ==> EndpointCheck(s.endpoints[k]).None?;
    }
  }

  /** The endpoints GetEnabledEndpoints keeps: those whose flag is present and true. */
  predicate IsEnabled(ep: EndpointConfig) {
    ep.enabled == Some(true)
  }

  function EnabledOf(eps: seq<EndpointConfig>): seq<EndpointConfig> {
    if |eps| == 0 then []
    else
      var rest := EnabledOf(eps[..|eps| - 1]);
      if IsEnabled(eps[|eps| - 1]) then rest + [eps[|eps| - 1]] else rest
  }

  /** The filter keeps exactly the enabled endpoints. */
  lemma {:induction false} EnabledOfMembers(eps: seq<EndpointConfig>)
    ensures forall ep :: ep in EnabledOf(eps) <==> ep in eps && IsEnabled(ep)
  {
    if |eps| > 0 {
      EnabledOfMembers(eps[..|eps| - 1]);
      assert eps == eps[..|eps| - 1] + [eps[|eps| - 1]];
    }
  }

  /** The filter keeps the original order: it distributes over concatenation. */
  lemma {:induction false} EnabledOfConcat(a: seq<EndpointConfig>, b: seq<EndpointConfig>)
    ensures EnabledOf(a + b) == EnabledOf(a) + EnabledOf(b)
    decreases |b|
  {
    if |b| == 0 {
      assert a + b == a;
    } else {
      var b' := b[..|b| - 1];
      assert (a + b)[..|a + b| - 1] == a + b';
      EnabledOfConcat(a, b');
    }
  }

  /** With every endpoint enabled, all of them are returned in order. */
  lemma {:induction false} EnabledOfAll(eps: seq<EndpointConfig>)
    requires forall i :: 0 <= i < |eps| ==> IsEnabled(eps[i])
    ensures EnabledOf(eps) == eps
  {
    if |eps| > 0 {
      EnabledOfAll(eps[..|eps| - 1]);
    }
  }

  /** A command-line flag value: a string, a boolean, or a value of another type. */
  datatype FlagValue = Text(text: string) | Switch(on: bool) | OtherValue

  /** The string a flag sets, when it is present, is a string and is not empty. */
  function StringFlag(flags: map<string, FlagValue>, key: string): Option<string> {
    if key in flags && flags[key].Text? && flags[key].text != "" then Some(flags[key].text) else None
  }

  function Overridden(current: string, flags: map<string, FlagValue>, key: string): string {
    match StringFlag(flags, key)
    case Some(v) => v
    case None => current
  }

  /** Whether the `v` flag is present, a boolean, and true. */
  predicate VerboseFlag(flags: map<string, FlagValue>) {
    "v" in flags && flags["v"].Switch? && flags["v"].on
  }

  /** MergeWithFlags, as a value: flags take precedence over the file. */
  function Merged(s: Settings, flags: map<string, FlagValue>): Settings {
    s.(agent := s.agent.(
         apiKey := Overridden(s.agent.apiKey, flags, "api-key"),
         certFile := Overridden(s.agent.certFile, flags, "cert"),
         keyFile := Overridden(s.agent.keyFile, flags, "key"),
         certDir := Overridden(s.agent.certDir, flags, "cert-dir"),
         description := Overridden(s.agent.description, flags, "description"),
         region := Overridden(s.agent.region, flags, "region"),
         ingressEndpoint := Overridden(s.agent.ingressEndpoint, flags, "ingress")),
       logging := s.logging.(verbose := s.logging.verbose || VerboseFlag(flags)))
  }

  /** A flag takes precedence over a field exactly when it is a non-empty string: the
      field then holds that string, and otherwise keeps its value. */
  predicate FlagPrecedence(before: string, after: string, flags: map<string, FlagValue>, key: string) {
    && (StringFlag(flags, key).None? ==> after == before)
    && (StringFlag(flags, key).Some? ==> key in flags && flags[key].Text? && after == flags[key].text != "")
  }

  /** Each of the seven agent fields follows its flag; verbose can be set but not
      cleared; endpoints, health and the other logging fields are untouched. */
  lemma {:induction false} MergedFields(s: Settings, flags: map<string, FlagValue>)
    ensures var r := Merged(s, flags);
      && FlagPrecedence(s.agent.apiKey, r.agent.apiKey, flags, "api-key")
      && FlagPrecedence(s.agent.certFile, r.agent.certFile, flags, "cert")
      && FlagPrecedence(s.agent.keyFile, r.agent.keyFile, flags, "key")
      && FlagPrecedence(s.agent.certDir, r.agent.certDir, flags, "cert-dir")
      && FlagPrecedence(s.agent.description, r.agent.description, flags, "description")
      && FlagPrecedence(s.agent.region, r.agent.region, flags, "region")
      && FlagPrecedence(s.agent.ingressEndpoint, r.agent.ingressEndpoint, flags, "ingress")
      && (s.logging.verbose ==> r.logging.verbose)
      && (r.logging.verbose <==> s.logging.verbose || VerboseFlag(flags))
      && r.endpoints == s.endpoints && r.health == s.health
      && r.logging.level == s.logging.level && r.logging.format == s.logging.format
  {
  }

  /** With no flags nothing changes. */
  lemma {:induction false} MergedNoFlags(s: Settings)
    ensures Merged(s, map[]) == s
  {
  }

  /** Merging the same flags twice is merging them once. */
  lemma {:induction false} MergedIdempotent(s: Settings, flags: map<string, FlagValue>)
    ensures Merged(Merged(s, flags), flags) == Merged(s, flags)
  {
  }

  /** Config: the agent configuration, updated in place by setDefaults and MergeWithFlags. */
  class Config {
    var agent: AgentConfig
    var endpoints: seq<EndpointConfig>
    var health: HealthConfig
    var logging: LoggingConfig

    function State(): Settings
      reads this
    {
      Settings(agent, endpoints, health, logging)
    }

    /** The decoded file contents. */
    constructor (decoded: Settings)
      ensures State() == decoded
    {
      agent := decoded.agent;
      endpoints := decoded.endpoints;
      health := decoded.health;
      logging := decoded.logging;
    }

    /** setDefaults */
    method SetDefaults(defaultCertDir: string)
      modifies this
      ensures State() == WithDefaults(old(State()), defaultCertDir)
    {
      agent := FillAgent(agent, defaultCertDir);
      for i := 0 to |endpoints|
        invariant |endpoints| == |old(endpoints)|
        invariant forall j :: 0 <= j < i ==> endpoints[j] == EndpointWithDefaults(old(endpoints)[j])
        invariant forall j :: i <= j < |endpoints| ==> endpoints[j] == old(endpoints)[j]
        invariant agent == AgentWithDefaults(old(agent), defaultCertDir)
        invariant health == old(health) && logging == old(logging)
      {
        var ep := FillEndpoint(endpoints[i]);
        endpoints := endpoints[i := ep];
      }
      assert endpoints == WithDefaults(old(State()), defaultCertDir).endpoints;
      health := FillHealth(health);
      logging := FillLogging(logging);
    }

    /** Validate: the first error found, or None. */
    method Validate() returns (err: Option<ConfigError>)
      ensures err == Check(State())
    {
      if agent.region !in ValidRegions {
        return Some(InvalidRegion(agent.region));
      }
      if |endpoints| == 0 {
        return Some(NoEndpoints);
      }
      for i := 0 to |endpoints|
        invariant FirstEndpointError(endpoints, 0) == FirstEndpointError(endpoints, i)
      {
        var ep := endpoints[i];
        if ep.name == "" {
          return Some(InvalidEndpoint(i, ep.name, MissingName));
        }
        if ep.uri == "" {
          return Some(InvalidEndpoint(i, ep.name, MissingUri));
        }
        if ep.localPort <= 0 || ep.localPort > 65535 {
          return Some(InvalidEndpoint(i, ep.name, InvalidLocalPort(ep.localPort)));
        }
        if ep.port <= 0 || ep.port > 65535 {
          return Some(InvalidEndpoint(i, ep.name, InvalidPort(ep.port)));
        }
      }
      if logging.level !in ValidLevels {
        return Some(InvalidLevel(logging.level));
      }
      if logging.format !in ValidFormats {
        return Some(InvalidFormat(logging.format));
      }
      return None;
    }

    /** GetEnabledEndpoints */
    method GetEnabledEndpoints() returns (enabled: seq<EndpointConfig>)
      ensures enabled == EnabledOf(endpoints)
    {
      enabled := [];
      for i := 0 to |endpoints|
        invariant enabled == EnabledOf(endpoints[..i])
      {
        assert endpoints[..i + 1][..i] == endpoints[..i];
        var ep := endpoints[i];
        if ep.enabled.Some? && ep.enabled.value {
          enabled := enabled + [ep];
        }
      }
      assert endpoints[..|endpoints|] == endpoints;
    }

    /** MergeWithFlags: each agent field a non-empty string flag names takes the flag's
        value, and a true `v` flag turns verbose logging on. */
    method MergeWithFlags(flags: map<string, FlagValue>)
      modifies this
      ensures State() == Merged(old(State()), flags)
    {
      var apiKey := FlagOver(agent.apiKey, flags, "api-key");
      var certFile := FlagOver(agent.certFile, flags, "cert");
      var keyFile := FlagOver(agent.keyFile, flags, "key");
      var certDir := FlagOver(agent.certDir, flags, "cert-dir");
      var description := FlagOver(agent.description, flags, "description");
      var region := FlagOver(agent.region, flags, "region");
      var ingress := FlagOver(agent.ingressEndpoint, flags, "ingress");
      agent := agent.(apiKey := apiKey, certFile := certFile, keyFile := keyFile, certDir := certDir,
                      description := description, region := region, ingressEndpoint := ingress);
      if VerboseFlag(flags) {
        logging := logging.(verbose := true);
      }
    }
  }

  /** The agent section of setDefaults. */
  method FillAgent(agent: AgentConfig, defaultCertDir: string) returns (a: AgentConfig)
    ensures a == AgentWithDefaults(agent, defaultCertDir)
  {
    a := agent;
    if a.description == "" {
      a := a.(description := DefaultDescription);
    }
    if a.region == "" {
      a := a.(region := DefaultRegion);
    }
    if a.certDir == "" {
      a := a.(certDir := defaultCertDir);
    }
  }

  /** The health section of setDefaults. */
  method FillHealth(health: HealthConfig) returns (h: HealthConfig)
    ensures h == HealthWithDefaults(health)
  {
    h := health;
    if h.port == 0 {
      h := h.(port := DefaultHealthPort);
    }
    if h.address == "" {
      h := h.(address := DefaultHealthAddress);
    }
  }

  /** The logging section of setDefaults. */
  method FillLogging(logging: LoggingConfig) returns (l: LoggingConfig)
    ensures l == LoggingWithDefaults(logging)
  {
    l := logging;
    if l.level == "" {
      l := l.(level := DefaultLevel);
    }
    if l.format == "" {
      l := l.(format := DefaultFormat);
    }
  }

  /** One endpoint's pass of the setDefaults loop. */
  method FillEndpoint(endpoint: EndpointConfig) returns (ep: EndpointConfig)
    ensures ep == EndpointWithDefaults(endpoint)
  {
    ep := endpoint;
    if ep.port == 0 {
      ep := ep.(port := DefaultEndpointPort);
    }
    if ep.localAddress == "" {
      ep := ep.(localAddress := DefaultLocalAddress);
    }
    if ep.enabled.None? {
      ep := ep.(enabled := Some(true));
    }
  }

  /** One `if v, ok := flags[key].(string); ok && v != ""` step of MergeWithFlags. */
  method FlagOver(current: string, flags: map<string, FlagValue>, key: string) returns (v: string)
    ensures v == Overridden(current, flags, key)
  {
    v := current;
    var flag := StringFlag(flags, key);
    if flag.Some? {
      v := flag.value;
    }
  }

  /** LoadFromFile after decoding: defaults, then validation. */
  method LoadFromFile(decoded: Settings, defaultCertDir: string) returns (r: Result<Config, ConfigError>)
    ensures r.Success? ==> fresh(r.value) && r.value.State() == WithDefaults(decoded, defaultCertDir)
    ensures r.Success? <==> Check(WithDefaults(decoded, defaultCertDir)).None?
    ensures r.Failure? ==> r.error == Check(WithDefaults(decoded, defaultCertDir)).value
  {
    var cfg := new Config(decoded);
    cfg.SetDefaults(defaultCertDir);
    var err := cfg.Validate();
    if err.Some? {
      return Failure(err.value);
    }
    return Success(cfg);
  }
}
