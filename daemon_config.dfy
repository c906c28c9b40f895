/** pkg/config/daemon_config.go: the ngrokd daemon configuration and its defaults.
    Reading and decoding the YAML file are left out; the decoded values are the inputs. */
module DaemonConfiguration {
  datatype ApiConfig = ApiConfig(url: string, key: string)

  datatype ServerConfig = ServerConfig(logLevel: string, socketPath: string, clientCert: string, clientKey: string)

  datatype BoundEndpointsConfig = BoundEndpointsConfig(pollInterval: int, selectors: seq<string>)

  /** `overrides` maps a hostname to the listen interface it uses instead of the default. */
  datatype NetConfig = NetConfig(
    interfaceName: string,
    subnet: string,
    listenInterface: string,
    startPort: int,
    overrides: map<string, string>)

  /** The contents of a DaemonConfig at one moment. */
  datatype DaemonSettings = DaemonSettings(
    api: ApiConfig,
    ingressEndpoint: string,
    server: ServerConfig,
    boundEndpoints: BoundEndpointsConfig,
    net: NetConfig)

  const DefaultApiUrl: string := "https://api.ngrok.com"
  const DefaultIngressEndpoint: string := "kubernetes-binding-ingress.ngrok.io:443"
  const DefaultLogLevel: string := "info"
  const DefaultSocketPath: string := "/var/run/ngrokd.sock"
  const DefaultClientCert: string := "/etc/ngrokd/tls.crt"
  const DefaultClientKey: string := "/etc/ngrokd/tls.key"
  const DefaultPollInterval: int := 30
  const DefaultSelectors: seq<string> := ["true"]
  const DefaultInterfaceName: string := "ngrokd0"
  const DefaultSubnet: string := "10.107.0.0/16"
  const DefaultListenInterface: string := "virtual"
  const DefaultStartPort: int := 9080

  function OrDefault(value: string, fallback: string): string {
    if value == "" then fallback else value
  }

  function OrDefaultInt(value: int, fallback: int): int {
    if value == 0 then fallback else value
  }

  function ServerWithDefaults(s: ServerConfig): ServerConfig {
    ServerConfig(
      OrDefault(s.logLevel, DefaultLogLevel),
      OrDefault(s.socketPath, DefaultSocketPath),
      OrDefault(s.clientCert, DefaultClientCert),
      OrDefault(s.clientKey, DefaultClientKey))
  }

  function BoundEndpointsWithDefaults(b: BoundEndpointsConfig): BoundEndpointsConfig {
    BoundEndpointsConfig(
      OrDefaultInt(b.pollInterval, DefaultPollInterval),
      if |b.selectors| == 0 then DefaultSelectors else b.selectors)
  }

  function NetWithDefaults(n: NetConfig): NetConfig {
    n.(interfaceName := OrDefault(n.interfaceName, DefaultInterfaceName),
       subnet := OrDefault(n.subnet, DefaultSubnet),
       listenInterface := OrDefault(n.listenInterface, DefaultListenInterface),
       startPort := OrDefaultInt(n.startPort, DefaultStartPort))
  }

  /** setDefaults, as a value. */
  function WithDefaults(c: DaemonSettings): DaemonSettings {
    DaemonSettings(
      c.api.(url := OrDefault(c.api.url, DefaultApiUrl)),
      OrDefault(c.ingressEndpoint, DefaultIngressEndpoint),
      ServerWithDefaults(c.server),
      BoundEndpointsWithDefaults(c.boundEndpoints),
      NetWithDefaults(c.net))
  }

  /** Every field setDefaults fills is set. */
  predicate Defaulted(c: DaemonSettings) {
    c.api.url != "" && c.ingressEndpoint != ""
    && c.server.logLevel != "" && c.server.socketPath != ""
    && c.server.clientCert != "" && c.server.clientKey != ""
    && c.boundEndpoints.pollInterval != 0 && |c.boundEndpoints.selectors| > 0
    && c.net.interfaceName != "" && c.net.subnet != ""
    && c.net.listenInterface != "" && c.net.startPort != 0
  }

  /** After the defaults the poll interval and start port are non-zero, the listen
      interface is set, there is at least one selector, and so on for every field. */
  lemma {:induction false} WithDefaultsFills(c: DaemonSettings)
    ensures Defaulted(WithDefaults(c))
  {
  }

  /** Only empty or zero fields change: a set field keeps its value. The API key and
      the overrides are never defaulted. */
  lemma {:induction false} WithDefaultsKeepsSet(c: DaemonSettings)
    ensures var r := WithDefaults(c);
      && r.api.key == c.api.key && r.net.overrides == c.net.overrides
      && (c.boundEndpoints.pollInterval != 0 ==> r.boundEndpoints.pollInterval == c.boundEndpoints.pollInterval)
      && (c.net.startPort != 0 ==> r.net.startPort == c.net.startPort)
      && (c.net.listenInterface != "" ==> r.net.listenInterface == c.net.listenInterface)
      && (c.net.subnet != "" ==> r.net.subnet == c.net.subnet)
      && (|c.boundEndpoints.selectors| > 0 ==> r.boundEndpoints.selectors == c.boundEndpoints.selectors)
      && (c.api.url != "" ==> r.api.url == c.api.url)
      && (c.ingressEndpoint != "" ==> r.ingressEndpoint == c.ingressEndpoint)
      && (c.server.logLevel != "" ==> r.server.logLevel == c.server.logLevel)
      && (c.server.socketPath != "" ==> r.server.socketPath == c.server.socketPath)
      && (c.server.clientCert != "" ==> r.server.clientCert == c.server.clientCert)
      && (c.server.clientKey != "" ==> r.server.clientKey == c.server.clientKey)
      && (c.net.interfaceName != "" ==> r.net.interfaceName == c.net.interfaceName)
  {
  }

  /** A configuration with every field set is a fixed point, so the defaults are idempotent. */
  lemma {:induction false} WithDefaultsFixed(c: DaemonSettings)
    requires Defaulted(c)
    ensures WithDefaults(c) == c
  {
  }

  lemma {:induction false} WithDefaultsIdempotent(c: DaemonSettings)
    ensures WithDefaults(WithDefaults(c)) == WithDefaults(c)
  {
    WithDefaultsFills(c);
    WithDefaultsFixed(WithDefaults(c));
  }

  /** Only a zero poll interval is replaced: a negative one survives the defaults. */
  lemma {:induction false} NegativePollIntervalSurvives(c: DaemonSettings)
    requires c.boundEndpoints.pollInterval < 0
    ensures WithDefaults(c).boundEndpoints.pollInterval == c.boundEndpoints.pollInterval < 0
  {
  }

  /** DaemonConfig: the daemon configuration, updated in place by setDefaults. */
  class DaemonConfig {
    var api: ApiConfig
    var ingressEndpoint: string
    var server: ServerConfig
    var boundEndpoints: BoundEndpointsConfig
    var net: NetConfig

    function Snapshot(): DaemonSettings
      reads this
    {
      DaemonSettings(api, ingressEndpoint, server, boundEndpoints, net)
    }

    /** The decoded file contents. */
    constructor (decoded: DaemonSettings)
      ensures Snapshot() == decoded
    {
      api := decoded.api;
      ingressEndpoint := decoded.ingressEndpoint;
      server := decoded.server;
      boundEndpoints := decoded.boundEndpoints;
      net := decoded.net;
    }

    /** setDefaults */
    method SetDefaults()
      modifies this
      ensures Snapshot() == WithDefaults(old(Snapshot()))
    {
      if api.url == "" {
        api := api.(url := DefaultApiUrl);
      }
      if ingressEndpoint == "" {
        ingressEndpoint := DefaultIngressEndpoint;
      }
      server := FillServer(server);
      boundEndpoints := FillBoundEndpoints(boundEndpoints);
      net := FillNet(net);
    }
  }

  /** The server section of setDefaults. */
  method FillServer(server: ServerConfig) returns (s: ServerConfig)
    ensures s == ServerWithDefaults(server)
  {
    s := server;
    if s.logLevel == "" {
      s := s.(logLevel := DefaultLogLevel);
    }
    if s.socketPath == "" {
      s := s.(socketPath := DefaultSocketPath);
    }
    if s.clientCert == "" {
      s := s.(clientCert := DefaultClientCert);
    }
    if s.clientKey == "" {
      s := s.(clientKey := DefaultClientKey);
    }
  }

  /** The bound-endpoints section of setDefaults. */
  method FillBoundEndpoints(boundEndpoints: BoundEndpointsConfig) returns (b: BoundEndpointsConfig)
    ensures b == BoundEndpointsWithDefaults(boundEndpoints)
  {
    b := boundEndpoints;
    if b.pollInterval == 0 {
      b := b.(pollInterval := DefaultPollInterval);
    }
    if |b.selectors| == 0 {
      b := b.(selectors := DefaultSelectors);
    }
  }

  /** The network section of setDefaults. */
  method FillNet(net: NetConfig) returns (n: NetConfig)
    ensures n == NetWithDefaults(net)
  {
    n := net;
    if n.interfaceName == "" {
      n := n.(interfaceName := DefaultInterfaceName);
    }
    if n.subnet == "" {
      n := n.(subnet := DefaultSubnet);
    }
    if n.listenInterface == "" {
      n := n.(listenInterface := DefaultListenInterface);
    }
    if n.startPort == 0 {
      n := n.(startPort := DefaultStartPort);
    }
  }

  /** LoadDaemonConfig after decoding: the defaults are applied and nothing is validated. */
  method LoadDaemonConfig(decoded: DaemonSettings) returns (cfg: DaemonConfig)
    ensures fresh(cfg) && cfg.Snapshot() == WithDefaults(decoded)
  {
    cfg := new DaemonConfig(decoded);
    cfg.SetDefaults();
  }
}
