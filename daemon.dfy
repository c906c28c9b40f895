/** pkg/daemon/daemon.go: the daemon's bookkeeping. It covers configuration checks,
    the tracked endpoint map kept in step with the API, the per-hostname network ports,
    and the endpoints chosen for rebinding on reload. The network interface, the
    ngrok API, file persistence, goroutines and the mutex are left out; resolving a
    listen interface, checking that an address exists on the machine and opening a
    socket come in as a `Host` parameter. */
module Daemon {
  import opened Wrappers
  import IpAddr
  import Text
  import IpAlloc
  import opened DaemonConfiguration
  import opened Socket
  import Listener
  import Health

  /** The part of an API bound endpoint the daemon uses. */
  datatype ApiEndpoint = ApiEndpoint(id: string, url: string)

  /** What the machine answers. `resolve` is resolveInterfaceToIP: the address for an
      interface name or the text itself, or None on an error. `ipExists` is
      ipExistsOnMachine, and `canListen` says whether net.Listen succeeds on an address. */
  datatype Host = Host(
    resolve: string -> Option<string>,
    ipExists: string -> bool,
    canListen: string -> bool)

  const VirtualMode: string := "virtual"
  const AllInterfaces: string := "0.0.0.0"

  // ---------------------------------------------------------------- validateConfig

  /** A listen interface validateConfig accepts: a mode name, or an address. */
  predicate ValidInterface(s: string) {
    s == VirtualMode || s == AllInterfaces || IpAddr.ParseIP(s).Some?
  }

  datatype ConfigError =
    | PollIntervalNotPositive
    | InvalidListenInterface
    | InvalidOverride(hostname: string, listenInterface: string)
    | StartPortOutOfRange

  /** The configurations validateConfig lets through. */
  predicate ConfigAccepted(cfg: DaemonSettings) {
    && cfg.boundEndpoints.pollInterval > 0
    && ValidInterface(cfg.net.listenInterface)
    && (forall h :: h in cfg.net.overrides ==> ValidInterface(cfg.net.overrides[h]))
    && 1 <= cfg.net.startPort <= 65535
  }

  /** validateConfig: the checks run in order and the first failure is reported.
      Overrides are checked in map order, so any one invalid override may be named. */
  method ValidateConfig(cfg: DaemonSettings) returns (err: Option<ConfigError>)
    ensures err.None? <==> ConfigAccepted(cfg)
    ensures err == Some(PollIntervalNotPositive) <==> cfg.boundEndpoints.pollInterval <= 0
    ensures err == Some(InvalidListenInterface) <==>
      cfg.boundEndpoints.pollInterval > 0 && !ValidInterface(cfg.net.listenInterface)
    ensures err.Some? && err.value.InvalidOverride? <==>
      && cfg.boundEndpoints.pollInterval > 0 && ValidInterface(cfg.net.listenInterface)
      && !(forall h :: h in cfg.net.overrides ==> ValidInterface(cfg.net.overrides[h]))
    ensures err.Some? && err.value.InvalidOverride? ==>
      && err.value.hostname in cfg.net.overrides
      && cfg.net.overrides[err.value.hostname] == err.value.listenInterface
      && !ValidInterface(err.value.listenInterface)
    ensures err == Some(StartPortOutOfRange) <==>
      && cfg.boundEndpoints.pollInterval > 0 && ValidInterface(cfg.net.listenInterface)
      && (forall h :: h in cfg.net.overrides ==> ValidInterface(cfg.net.overrides[h]))
      && !(1 <= cfg.net.startPort <= 65535)
  {
    if cfg.boundEndpoints.pollInterval <= 0 {
      return Some(PollIntervalNotPositive);
    }
    if cfg.net.listenInterface != VirtualMode && cfg.net.listenInterface != AllInterfaces {
      if IpAddr.ParseIP(cfg.net.listenInterface).None? {
        return Some(InvalidListenInterface);
      }
    }
    var invalid := CheckOverrides(cfg.net.overrides);
    if invalid.Some? {
      return invalid;
    }
    if cfg.net.startPort < 1 || cfg.net.startPort > 65535 {
      return Some(StartPortOutOfRange);
    }
    return None;
  }

  /** The override loop of validateConfig: every override interface must be "virtual",
      "0.0.0.0" or an IP address; the first bad one met names its hostname. */
  method CheckOverrides(overrides: map<string, string>) returns (err: Option<ConfigError>)
    ensures err.None? <==> forall h :: h in overrides ==> ValidInterface(overrides[h])
    ensures err.Some? ==>
      && err.value.InvalidOverride? && err.value.hostname in overrides
      && overrides[err.value.hostname] == err.value.listenInterface
      && !ValidInterface(err.value.listenInterface)
  {
    var hostnames := overrides.Keys;
    while hostnames != {}
      invariant hostnames <= overrides.Keys
      invariant forall h :: h in overrides && h !in hostnames ==> ValidInterface(overrides[h])
      decreases hostnames
    {
      var h :| h in hostnames;
      var listenInterface := overrides[h];
      if listenInterface != VirtualMode && listenInterface != AllInterfaces {
        if IpAddr.ParseIP(listenInterface).None? {
          return Some(InvalidOverride(h, listenInterface));
        }
      }
      hostnames := hostnames - {h};
    }
    return None;
  }

  /** A file that sets nothing but valid overrides loads into an accepted configuration:
      the defaults (poll interval 30, "virtual", start port 9080) all pass. */
  lemma {:induction false} DefaultsAccepted(decoded: DaemonSettings)
    requires decoded.boundEndpoints.pollInterval == 0 && decoded.net.listenInterface == ""
    requires decoded.net.startPort == 0
    requires forall h :: h in decoded.net.overrides ==> ValidInterface(decoded.net.overrides[h])
    ensures ConfigAccepted(WithDefaults(decoded))
  {
  }

  /** LoadDaemonConfig does not validate: a negative poll interval loads, and only
      validateConfig rejects it. */
  lemma {:induction false} LoadedButRejected(decoded: DaemonSettings)
    requires decoded.boundEndpoints.pollInterval < 0
    ensures WithDefaults(decoded).boundEndpoints.pollInterval < 0
    ensures !ConfigAccepted(WithDefaults(decoded))
  {
    NegativePollIntervalSurvives(decoded);
  }

  // ------------------------------------------------- getListenInterfaceForHostname

  /** getListenInterfaceForHostname: the hostname's override, else the default. */
  function ListenInterfaceFor(hostname: string, overrides: map<string, string>, defaultInterface: string): string {
    if hostname in overrides then overrides[hostname] else defaultInterface
  }

  /** The rebind test of reloadConfig: the interface chosen for the hostname differs
      between the old and the new configuration. */
  predicate NeedsRebind(hostname: string, oldOverrides: map<string, string>, oldDefault: string,
                        newOverrides: map<string, string>, newDefault: string) {
    ListenInterfaceFor(hostname, oldOverrides, oldDefault) != ListenInterfaceFor(hostname, newOverrides, newDefault)
  }

  /** Nothing is rebound unless the overrides or the default changed, which is why
      reloadConfig looks for endpoints only in that case. */
  lemma {:induction false} NoChangeNoRebind(hostname: string, overrides: map<string, string>, defaultInterface: string)
    ensures !NeedsRebind(hostname, overrides, defaultInterface, overrides, defaultInterface)
  {
  }

  /** A hostname with the same override before and after is never rebound, whatever
      happens to the default. */
  lemma {:induction false} OverrideShieldsFromDefault(hostname: string, oldOverrides: map<string, string>, oldDefault: string,
                                   newOverrides: map<string, string>, newDefault: string)
    requires hostname in oldOverrides && hostname in newOverrides
    requires oldOverrides[hostname] == newOverrides[hostname]
    ensures !NeedsRebind(hostname, oldOverrides, oldDefault, newOverrides, newDefault)
  {
  }

  /** A hostname without an override in either configuration is rebound exactly when
      the default changes. */
  lemma {:induction false} DefaultChangeRebinds(hostname: string, oldOverrides: map<string, string>, oldDefault: string,
                             newOverrides: map<string, string>, newDefault: string)
    requires hostname !in oldOverrides && hostname !in newOverrides
    ensures NeedsRebind(hostname, oldOverrides, oldDefault, newOverrides, newDefault) <==> oldDefault != newDefault
  {
  }

  /** Setting one hostname's override changes the interface of that hostname only. */
  lemma {:induction false} OverrideIsLocal(hostname: string, other: string, overrides: map<string, string>,
                        value: string, defaultInterface: string)
    requires other != hostname
    ensures ListenInterfaceFor(hostname, overrides[hostname := value], defaultInterface) == value
    ensures ListenInterfaceFor(other, overrides[hostname := value], defaultInterface)
         == ListenInterfaceFor(other, overrides, defaultInterface)
  {
  }

  // ------------------------------------------------------------ network ports

  /** Every recorded network port is below the next one to hand out. */
  predicate PortsBelow(ports: map<string, int>, next: int) {
    forall h :: h in ports ==> ports[h] < next
  }

  /** Distinct hostnames hold distinct network ports. */
  predicate PortsDistinct(ports: map<string, int>) {
    forall h1, h2 :: h1 in ports && h2 in ports && ports[h1] == ports[h2] ==> h1 == h2
  }

  datatype PortAssignment = PortAssignment(port: int, ports: map<string, int>, next: int)

  /** The network-mode branch of addEndpoint: reuse the hostname's port, or hand out
      `next`, record it and move on by one. */
  function AssignPort(ports: map<string, int>, next: int, hostname: string): PortAssignment {
    if hostname in ports then PortAssignment(ports[hostname], ports, next)
    else PortAssignment(next, ports[hostname := next], next + 1)
  }

  /** Assigning a port records it for the hostname, keeps every other hostname's port,
      keeps all ports below the cursor, and keeps ports distinct. */
  lemma {:induction false} AssignPortKeeps(ports: map<string, int>, next: int, hostname: string)
    requires PortsBelow(ports, next)
    ensures var a := AssignPort(ports, next, hostname);
      && hostname in a.ports && a.ports[hostname] == a.port
      && (forall h :: h in ports ==> h in a.ports && a.ports[h] == ports[h])
      && a.ports.Keys == ports.Keys + {hostname}
      && a.next >= next && a.port < a.next
      && PortsBelow(a.ports, a.next)
      && (PortsDistinct(ports) ==> PortsDistinct(a.ports))
  {
  }

  /** A hostname that already has a port gets the same one again and nothing changes. */
  lemma {:induction false} AssignPortReuses(ports: map<string, int>, next: int, hostname: string)
    requires hostname in ports
    ensures AssignPort(ports, next, hostname) == PortAssignment(ports[hostname], ports, next)
  {
  }

  /** Two new hostnames in a row get different ports. */
  lemma {:induction false} AssignPortFresh(ports: map<string, int>, next: int, h1: string, h2: string)
    requires PortsBelow(ports, next) && h1 !in ports && h2 !in ports && h1 != h2
    ensures var a1 := AssignPort(ports, next, h1);
      var a2 := AssignPort(a1.ports, a1.next, h2);
      a1.port == next && a2.port == next + 1 && a1.port != a2.port
  {
  }

  // ----------------------------------------------------------- desired state

  /** The desired map pollAndReconcile builds: endpoints by ID, a later one replacing
      an earlier one with the same ID. */
  function DesiredOf(list: seq<ApiEndpoint>): map<string, ApiEndpoint> {
    if |list| == 0 then map[]
    else DesiredOf(list[..|list| - 1])[list[|list| - 1].id := list[|list| - 1]]
  }

  /** The desired map holds exactly the listed IDs, each under its own ID. */
  lemma {:induction false} DesiredOfIds(list: seq<ApiEndpoint>)
    ensures forall i :: 0 <= i < |list| ==> list[i].id in DesiredOf(list)
    ensures forall id :: id in DesiredOf(list) ==> DesiredOf(list)[id].id == id
    ensures forall id :: id in DesiredOf(list) ==> exists i :: 0 <= i < |list| && list[i].id == id
  {
    if |list| > 0 {
      var prefix := list[..|list| - 1];
      DesiredOfIds(prefix);
      assert forall i :: 0 <= i < |prefix| ==> prefix[i] == list[i];
    }
  }

  /** An ID maps to its last occurrence in the list: a later endpoint replaces an
      earlier one with the same ID. */
  lemma {:induction false} DesiredOfLast(list: seq<ApiEndpoint>, i: int)
    requires 0 <= i < |list|
    requires forall j :: i < j < |list| ==> list[j].id != list[i].id
    ensures list[i].id in DesiredOf(list) && DesiredOf(list)[list[i].id] == list[i]
  {
    if i < |list| - 1 {
      var prefix := list[..|list| - 1];
      assert prefix[i] == list[i];
      DesiredOfLast(prefix, i);
    }
  }

  /** The loop of pollAndReconcile that builds the desired map. */
  method BuildDesired(list: seq<ApiEndpoint>) returns (desired: map<string, ApiEndpoint>)
    ensures desired == DesiredOf(list)
  {
    desired := map[];
    for i := 0 to |list|
      invariant desired == DesiredOf(list[..i])
    {
      assert list[..i + 1][..i] == list[..i];
      desired := desired[list[i].id := list[i]];
    }
    assert list[..|list|] == list;
  }

  // ---------------------------------------------------- releasing on removal

  /** Every tracked endpoint's IP is what the allocator holds for its hostname, so the
      hosts file written from the allocator lists every tracked hostname. */
  predicate TrackedAllocated(endpoints: map<string, EndpointInfo>, allocations: map<string, string>) {
    forall id :: id in endpoints ==>
      endpoints[id].hostname in allocations && allocations[endpoints[id].hostname] == endpoints[id].ip
  }

  /** Some other tracked endpoint has the same hostname as `id`. */
  predicate SharesHostname(endpoints: map<string, EndpointInfo>, id: string)
    requires id in endpoints
  {
    exists other :: other in endpoints && other != id && endpoints[other].hostname == endpoints[id].hostname
  }

  /** The allocation table after removeEndpoint as written: the hostname of a tracked
      endpoint is released, whoever else uses it. */
  function ReleasedAsWritten(endpoints: map<string, EndpointInfo>, allocations: map<string, string>, id: string): map<string, string> {
    if id in endpoints then allocations - {endpoints[id].hostname} else allocations
  }

  /** The allocation table after removal, corrected: the hostname is released only
      when no other tracked endpoint uses it. */
  function Released(endpoints: map<string, EndpointInfo>, allocations: map<string, string>, id: string): map<string, string> {
    if id in endpoints && !SharesHostname(endpoints, id) then allocations - {endpoints[id].hostname} else allocations
  }

  /** As written, removing one of two endpoints on the same hostname drops the hostname
      from the allocation table while the other endpoint is still tracked with that IP. */
  lemma {:induction false} ReleasedAsWrittenDropsShared()
    ensures var e1 := EndpointInfo("ep1", "db.internal", "10.107.0.2", 5432, "tcp://db.internal:5432", true, 0, VirtualMode);
      var e2 := EndpointInfo("ep2", "db.internal", "10.107.0.2", 6379, "tcp://db.internal:6379", true, 0, VirtualMode);
      var endpoints := map["ep1" := e1, "ep2" := e2];
      var allocations := map["db.internal" := "10.107.0.2"];
      var after := ReleasedAsWritten(endpoints, allocations, "ep1");
      && TrackedAllocated(endpoints, allocations)
      && "ep2" in endpoints - {"ep1"}
      && "db.internal" !in after
      && !TrackedAllocated(endpoints - {"ep1"}, after)
  {
    var e2 := EndpointInfo("ep2", "db.internal", "10.107.0.2", 6379, "tcp://db.internal:6379", true, 0, VirtualMode);
    assert (map["ep1" := EndpointInfo("ep1", "db.internal", "10.107.0.2", 5432, "tcp://db.internal:5432", true, 0, VirtualMode), "ep2" := e2] - {"ep1"})["ep2"] == e2;
  }

  /** The corrected release keeps every remaining tracked endpoint's allocation. */
  lemma {:induction false} ReleasedKeepsTracked(endpoints: map<string, EndpointInfo>, allocations: map<string, string>, id: string)
    requires TrackedAllocated(endpoints, allocations)
    ensures TrackedAllocated(endpoints - {id}, Released(endpoints, allocations, id))
    ensures id in endpoints && !SharesHostname(endpoints, id) ==> endpoints[id].hostname !in Released(endpoints, allocations, id)
  {
    var rest := endpoints - {id};
    var released := Released(endpoints, allocations, id);
    forall other | other in rest
      ensures rest[other].hostname in released && released[rest[other].hostname] == rest[other].ip
    {
      if id in endpoints && !SharesHostname(endpoints, id) {
        assert endpoints[other].hostname != endpoints[id].hostname;
      }
    }
  }

  /** The two releases differ only when another endpoint shares the hostname. */
  lemma {:induction false} ReleasedAgrees(endpoints: map<string, EndpointInfo>, allocations: map<string, string>, id: string)
    requires id !in endpoints || !SharesHostname(endpoints, id)
    ensures Released(endpoints, allocations, id) == ReleasedAsWritten(endpoints, allocations, id)
  {
  }

  // ------------------------------------------------------------------- Daemon

  class Daemon {
    var config: DaemonSettings
    /** endpoint ID -> info */
    var endpoints: map<string, EndpointInfo>
    /** The next network-mode port to hand out. */
    var nextPort: int
    /** hostname -> network port */
    var networkPortsByHost: map<string, int>
    const allocator: IpAlloc.Allocator
    const listenerMgr: Listener.Manager
    const healthServer: Health.Server

    /** The tracked endpoints are exactly the running listeners, each tracked under its
        own ID with its hostname's allocated IP, and every network port is below nextPort. */
    predicate Valid()
      reads this, allocator, listenerMgr, healthServer
    {
      && allocator.Valid() && healthServer.Valid()
      && endpoints.Keys == listenerMgr.listeners.Keys
      && (forall id :: id in endpoints ==> endpoints[id].id == id)
      && TrackedAllocated(endpoints, allocator.allocations)
      && PortsBelow(networkPortsByHost, nextPort)
    }

    /** New, with the components Start creates: the configuration loaded with its
        defaults, nothing tracked, and the port cursor at the start port. */
    constructor (decoded: DaemonSettings, allocator: IpAlloc.Allocator, listenerMgr: Listener.Manager,
                 healthServer: Health.Server)
      requires allocator.Valid() && healthServer.Valid() && listenerMgr.listeners == map[]
      ensures Valid()
      ensures config == WithDefaults(decoded)
      ensures endpoints == map[] && networkPortsByHost == map[] && nextPort == config.net.startPort
      ensures this.allocator == allocator && this.listenerMgr == listenerMgr && this.healthServer == healthServer
    {
      config := WithDefaults(decoded);
      endpoints := map[];
      nextPort := WithDefaults(decoded).net.startPort;
      networkPortsByHost := map[];
      this.allocator := allocator;
      this.listenerMgr := listenerMgr;
      this.healthServer := healthServer;
    }

    /** The in-memory part of loadNetworkPortMappings: the loaded map replaces the
        table and nextPort becomes one past the largest of StartPort - 1 and the
        loaded ports. */
    method LoadNetworkPortMappings(mappings: map<string, int>)
      requires Valid()
      modifies this
      ensures Valid()
      ensures networkPortsByHost == mappings
      ensures nextPort >= config.net.startPort && PortsBelow(mappings, nextPort)
      ensures nextPort == config.net.startPort || exists h :: h in mappings && mappings[h] == nextPort - 1
      ensures config == old(config) && endpoints == old(endpoints)
    {
      networkPortsByHost := mappings;
      var maxPort := config.net.startPort - 1;
      var hostnames := mappings.Keys;
      while hostnames != {}
        invariant hostnames <= mappings.Keys
        invariant maxPort >= config.net.startPort - 1
        invariant forall h :: h in mappings && h !in hostnames ==> mappings[h] <= maxPort
        invariant maxPort == config.net.startPort - 1 || exists h :: h in mappings && mappings[h] == maxPort
        invariant networkPortsByHost == mappings && config == old(config) && endpoints == old(endpoints)
        decreases hostnames
      {
        var h :| h in hostnames;
        if mappings[h] > maxPort {
          maxPort := mappings[h];
        }
        hostnames := hostnames - {h};
      }
      nextPort := maxPort + 1;
    }

    /** The port branch of addEndpoint in network mode. */
    method NetworkPortFor(hostname: string) returns (port: int)
      modifies this
      ensures PortAssignment(port, networkPortsByHost, nextPort) == AssignPort(old(networkPortsByHost), old(nextPort), hostname)
      ensures config == old(config) && endpoints == old(endpoints)
    {
      if hostname in networkPortsByHost {
        port := networkPortsByHost[hostname];
      } else {
        port := nextPort;
        networkPortsByHost := networkPortsByHost[hostname := port];
        nextPort := nextPort + 1;
      }
    }

    /** The listen interface addEndpoint settles on for a hostname: its override or the
        default, resolved; a resolved address other than a mode name must exist on the
        machine. None when resolving or that check fails. */
    function ResolvedInterface(hostname: string, host: Host): (r: Option<string>)
      reads this
      ensures r.Some? ==> r.value == VirtualMode || r.value == AllInterfaces || host.ipExists(r.value)
      ensures r.Some? ==> host.resolve(ListenInterfaceFor(hostname, config.net.overrides, config.net.listenInterface)) == r
    {
      match host.resolve(ListenInterfaceFor(hostname, config.net.overrides, config.net.listenInterface))
      case None => None
      case Some(resolved) =>
        if resolved != VirtualMode && resolved != AllInterfaces && !host.ipExists(resolved) then None
        else Some(resolved)
    }

    /** The interface steps of addEndpoint. */
    method ResolveListenInterface(hostname: string, host: Host) returns (r: Option<string>)
      ensures r == ResolvedInterface(hostname, host)
    {
      var listenInterface := config.net.listenInterface;
      if hostname in config.net.overrides {
        listenInterface := config.net.overrides[hostname];
      }
      var resolved := host.resolve(listenInterface);
      if resolved.None? {
        return None;
      }
      if resolved.value != listenInterface {
        listenInterface := resolved.value;
      }
      if listenInterface != VirtualMode && listenInterface != AllInterfaces {
        if !host.ipExists(listenInterface) {
          return None;
        }
      }
      return Some(listenInterface);
    }

    /** A tracked endpoint's listener: in virtual mode on its own IP and the URL's port
        with no network port, otherwise on the interface and the hostname's network port. */
    predicate ListeningAs(info: EndpointInfo)
      reads this, listenerMgr
    {
      && (info.listenInterface == VirtualMode ==> info.networkPort == 0)
      && (info.listenInterface != VirtualMode ==>
            info.hostname in networkPortsByHost && info.networkPort == networkPortsByHost[info.hostname])
      && info.id in listenerMgr.listeners
      && listenerMgr.listeners[info.id].endpoint == Listener.BoundEndpoint(info.id, info.url, info.port,
           if info.listenInterface == VirtualMode then info.port else info.networkPort,
           if info.listenInterface == VirtualMode then info.ip else info.listenInterface)
    }

    /** The listener steps of addEndpoint: pick the address and port, start the
        listener, register it for health and track it. */
    method StartAndTrack(id: string, url: string, hostname: string, ipText: string, port: int,
                         listenInterface: string, host: Host)
      requires Valid()
      requires hostname in allocator.allocations && allocator.allocations[hostname] == ipText
      modifies this, listenerMgr, healthServer
      ensures Valid()
      ensures config == old(config)
      ensures id in old(endpoints) ==> endpoints == old(endpoints)
      ensures endpoints == old(endpoints)
           || (id !in old(endpoints) && id in endpoints
               && endpoints == old(endpoints)[id := EndpointInfo(id, hostname, ipText, port, url, true,
                                                                 endpoints[id].networkPort, listenInterface)]
               && ListeningAs(endpoints[id]))
      ensures forall h :: h in old(networkPortsByHost) ==> h in networkPortsByHost && networkPortsByHost[h] == old(networkPortsByHost)[h]
      ensures nextPort >= old(nextPort)
      ensures PortsDistinct(old(networkPortsByHost)) ==> PortsDistinct(networkPortsByHost)
      ensures forall id :: id in old(listenerMgr.listeners) ==>
        id in listenerMgr.listeners && listenerMgr.listeners[id] == old(listenerMgr.listeners)[id]
    {
      var listenAddr, listenPort, networkPort := ChooseListen(hostname, ipText, port, listenInterface);
      var endpoint := Listener.BoundEndpoint(id, url, port, listenPort, listenAddr);
      var err := listenerMgr.StartListener(endpoint, host.canListen);
      if err.Some? {
        return;
      }
      Track(EndpointInfo(id, hostname, ipText, port, url, true, networkPort, listenInterface));
    }

    /** The last steps of addEndpoint once the listener runs: register the endpoint
        for health checks under its IP and port, and record it as tracked. */
    method Track(info: EndpointInfo)
      requires healthServer.Valid()
      modifies this, healthServer
      ensures healthServer.Valid()
      ensures healthServer.endpoints ==
        old(healthServer.endpoints)[info.id := Health.Registered(info.id, info.ip + ":" + Text.IntText(info.port), info.url)]
      ensures endpoints == old(endpoints)[info.id := info]
      ensures config == old(config) && nextPort == old(nextPort) && networkPortsByHost == old(networkPortsByHost)
    {
      healthServer.RegisterEndpoint(info.id, info.ip + ":" + Text.IntText(info.port), info.url);
      endpoints := endpoints[info.id := info];
    }

    /** Where addEndpoint listens: in virtual mode on the hostname's IP and the
        endpoint's own port; otherwise on the interface and the hostname's network
        port, assigned on first use. */
    method ChooseListen(hostname: string, ipText: string, port: int, listenInterface: string)
      returns (listenAddr: string, listenPort: int, networkPort: int)
      requires PortsBelow(networkPortsByHost, nextPort)
      modifies this
      ensures config == old(config) && endpoints == old(endpoints)
      ensures PortsBelow(networkPortsByHost, nextPort) && nextPort >= old(nextPort)
      ensures forall h :: h in old(networkPortsByHost) ==> h in networkPortsByHost && networkPortsByHost[h] == old(networkPortsByHost)[h]
      ensures PortsDistinct(old(networkPortsByHost)) ==> PortsDistinct(networkPortsByHost)
      ensures listenInterface == VirtualMode ==> listenAddr == ipText && listenPort == port && networkPort == 0
      ensures listenInterface != VirtualMode ==>
        listenAddr == listenInterface && hostname in networkPortsByHost
        && listenPort == networkPort == networkPortsByHost[hostname]
    {
      if listenInterface == VirtualMode {
        return ipText, port, 0;
      }
      AssignPortKeeps(networkPortsByHost, nextPort, hostname);
      listenPort := NetworkPortFor(hostname);
      return listenInterface, listenPort, listenPort;
    }

    /** What addEndpoint records for a newly tracked endpoint: its ID and URL, the host
        and port parsed from the URL, the hostname's allocated IP, the interface chosen
        for the hostname, and the listener started for it. */
    predicate AddedAs(ep: ApiEndpoint, info: EndpointInfo, host: Host)
      reads this, allocator, listenerMgr
    {
      && info.id == ep.id && info.url == ep.url && info.localListener
      && IpAlloc.ParseHostname(ep.url) == Success(IpAlloc.Endpoint(info.hostname, info.port))
      && info.hostname in allocator.allocations && info.ip == allocator.allocations[info.hostname]
      && ResolvedInterface(info.hostname, host) == Some(info.listenInterface)
      && ListeningAs(info)
    }

    /** addEndpoint: parse the URL, allocate the hostname's IP, settle the listen
        interface, then start and track the listener. Any failure stops the sequence;
        what was allocated before it stays allocated. */
    method AddEndpoint(ep: ApiEndpoint, host: Host)
      requires Valid()
      modifies this, allocator, listenerMgr, healthServer
      ensures Valid()
      ensures config == old(config)
      ensures ep.id in old(endpoints) ==> endpoints == old(endpoints)
      ensures endpoints.Keys <= old(endpoints).Keys + {ep.id}
      ensures forall id :: id in old(endpoints) ==> id in endpoints && endpoints[id] == old(endpoints)[id]
      ensures ep.id in endpoints && ep.id !in old(endpoints) ==> AddedAs(ep, endpoints[ep.id], host)
      ensures forall h :: h in old(networkPortsByHost) ==> h in networkPortsByHost && networkPortsByHost[h] == old(networkPortsByHost)[h]
      ensures nextPort >= old(nextPort)
      ensures PortsDistinct(old(networkPortsByHost)) ==> PortsDistinct(networkPortsByHost)
      ensures IpAlloc.Injective(old(allocator.allocations)) ==> IpAlloc.Injective(allocator.allocations)
      ensures forall id :: id in old(listenerMgr.listeners) ==>
        id in listenerMgr.listeners && listenerMgr.listeners[id] == old(listenerMgr.listeners)[id]
    {
      var parsed := IpAlloc.ParseHostname(ep.url);
      if parsed.Failure? {
        return;
      }
      var hostname := parsed.value.host;
      var port := parsed.value.port;
      var allocation := allocator.AllocateIP(hostname);
      if allocation.Failure? {
        return;
      }
      var ipText := allocation.value;
      if IpAddr.ParseIP(ipText).None? {
        return;
      }
      BindAllocated(ep, hostname, port, ipText, host);
    }

    /** The steps of addEndpoint after the hostname has its IP: settle the listen
        interface, then start and track the listener. */
    method BindAllocated(ep: ApiEndpoint, hostname: string, port: int, ipText: string, host: Host)
      requires Valid()
      requires IpAlloc.ParseHostname(ep.url) == Success(IpAlloc.Endpoint(hostname, port))
      requires hostname in allocator.allocations && allocator.allocations[hostname] == ipText
      modifies this, listenerMgr, healthServer
      ensures Valid()
      ensures config == old(config)
      ensures ep.id in old(endpoints) ==> endpoints == old(endpoints)
      ensures endpoints.Keys <= old(endpoints).Keys + {ep.id}
      ensures forall id :: id in old(endpoints) ==> id in endpoints && endpoints[id] == old(endpoints)[id]
      ensures ep.id in endpoints && ep.id !in old(endpoints) ==> AddedAs(ep, endpoints[ep.id], host)
      ensures forall h :: h in old(networkPortsByHost) ==> h in networkPortsByHost && networkPortsByHost[h] == old(networkPortsByHost)[h]
      ensures nextPort >= old(nextPort)
      ensures PortsDistinct(old(networkPortsByHost)) ==> PortsDistinct(networkPortsByHost)
      ensures forall id :: id in old(listenerMgr.listeners) ==>
        id in listenerMgr.listeners && listenerMgr.listeners[id] == old(listenerMgr.listeners)[id]
    {
      var listenInterface := ResolveListenInterface(hostname, host);
      if listenInterface.None? {
        return;
      }
      StartAndTrack(ep.id, ep.url, hostname, ipText, port, listenInterface.value, host);
    }

    /** removeEndpoint as written: an unknown ID changes nothing; otherwise the listener
        stops, the hostname's IP is released and the ID is no longer tracked. */
    method RemoveEndpointAsWritten(id: string)
      modifies this, allocator, listenerMgr
      ensures endpoints == old(endpoints) - {id}
      ensures allocator.allocations == ReleasedAsWritten(old(endpoints), old(allocator.allocations), id)
      ensures id in old(endpoints) && id in old(listenerMgr.listeners) ==> listenerMgr.listeners == old(listenerMgr.listeners) - {id}
      ensures id !in old(endpoints) ==> listenerMgr.listeners == old(listenerMgr.listeners)
      ensures config == old(config) && networkPortsByHost == old(networkPortsByHost) && nextPort == old(nextPort)
    {
      if id in endpoints {
        var ep := endpoints[id];
        var _ := listenerMgr.StopListener(id);
        allocator.ReleaseIP(ep.hostname);
        endpoints := endpoints - {id};
      }
    }

    /** removeEndpoint, releasing the hostname's IP only when no other tracked endpoint
        uses it; it keeps the daemon's invariant. */
    method RemoveEndpoint(id: string)
      requires Valid()
      modifies this, allocator, listenerMgr
      ensures Valid()
      ensures endpoints == old(endpoints) - {id}
      ensures allocator.allocations == Released(old(endpoints), old(allocator.allocations), id)
      ensures listenerMgr.listeners == old(listenerMgr.listeners) - {id}
      ensures config == old(config) && networkPortsByHost == old(networkPortsByHost) && nextPort == old(nextPort)
    {
      if id in endpoints {
        var ep := endpoints[id];
        var _ := listenerMgr.StopListener(id);
        var shared := exists other :: other in endpoints && other != id && endpoints[other].hostname == ep.hostname;
        ReleasedKeepsTracked(endpoints, allocator.allocations, id);
        if !shared {
          allocator.ReleaseIP(ep.hostname);
        }
        endpoints := endpoints - {id};
      }
    }

    /** The first loop of the reconcile step: untrack every endpoint the desired map
        does not hold. */
    method RemoveUndesired(desired: map<string, ApiEndpoint>)
      requires Valid()
      modifies this, allocator, listenerMgr
      ensures Valid() && config == old(config)
      ensures endpoints.Keys == old(endpoints).Keys * desired.Keys
      ensures forall id :: id in endpoints ==> endpoints[id] == old(endpoints)[id]
    {
      var tracked := endpoints.Keys;
      while tracked != {}
        invariant Valid() && config == old(config)
        invariant tracked <= endpoints.Keys <= old(endpoints).Keys
        invariant forall id :: id in endpoints ==> endpoints[id] == old(endpoints)[id]
        invariant forall id :: id in old(endpoints) && id in desired ==> id in endpoints
        invariant forall id :: id in endpoints && id !in tracked ==> id in desired
        decreases tracked
      {
        var id :| id in tracked;
        if id !in desired {
          RemoveEndpoint(id);
        }
        tracked := tracked - {id};
      }
    }

    /** The second loop of the reconcile step: add every desired endpoint that is not
        tracked. */
    method AddMissing(desired: map<string, ApiEndpoint>, host: Host)
      requires Valid()
      requires forall id :: id in desired ==> desired[id].id == id
      requires endpoints.Keys <= desired.Keys
      modifies this, allocator, listenerMgr, healthServer
      ensures Valid() && config == old(config)
      ensures old(endpoints).Keys <= endpoints.Keys <= desired.Keys
      ensures forall id :: id in old(endpoints) ==> endpoints[id] == old(endpoints)[id]
      ensures forall id :: id in endpoints && id !in old(endpoints) ==> endpoints[id].url == desired[id].url
    {
      var wanted := desired.Keys;
      while wanted != {}
        invariant Valid() && config == old(config)
        invariant old(endpoints).Keys <= endpoints.Keys <= desired.Keys
        invariant forall id :: id in old(endpoints) ==> endpoints[id] == old(endpoints)[id]
        invariant forall id :: id in endpoints && id !in old(endpoints) ==> endpoints[id].url == desired[id].url
        decreases wanted
      {
        var id :| id in wanted;
        if id !in endpoints {
          AddEndpoint(desired[id], host);
        }
        wanted := wanted - {id};
      }
    }

    /** The reconcile step of pollAndReconcile: untrack what the API no longer lists,
        then add what it lists and is not tracked. */
    method Reconcile(apiEndpoints: seq<ApiEndpoint>, host: Host)
      requires Valid()
      modifies this, allocator, listenerMgr, healthServer
      ensures Valid()
      ensures config == old(config)
      ensures endpoints.Keys <= DesiredOf(apiEndpoints).Keys
      ensures forall id :: id in old(endpoints) && id in DesiredOf(apiEndpoints) ==>
        id in endpoints && endpoints[id] == old(endpoints)[id]
      ensures forall id :: id in endpoints && id !in old(endpoints) ==>
        endpoints[id].url == DesiredOf(apiEndpoints)[id].url
    {
      var desired := BuildDesired(apiEndpoints);
      DesiredOfIds(apiEndpoints);
      RemoveUndesired(desired);
      AddMissing(desired, host);
    }

    /** The rebind selection of reloadConfig: every tracked endpoint whose interface
        differs between the old and the new settings, each once. */
    method SelectRebind(oldOverrides: map<string, string>, oldDefault: string,
                        newOverrides: map<string, string>, newDefault: string) returns (ids: seq<string>)
      ensures forall id :: id in ids <==>
        id in endpoints && NeedsRebind(endpoints[id].hostname, oldOverrides, oldDefault, newOverrides, newDefault)
      ensures forall i, j :: 0 <= i < j < |ids| ==> ids[i] != ids[j]
    {
      ids := [];
      var rest := endpoints.Keys;
      while rest != {}
        invariant rest <= endpoints.Keys
        invariant forall id :: id in ids <==>
          id in endpoints && id !in rest && NeedsRebind(endpoints[id].hostname, oldOverrides, oldDefault, newOverrides, newDefault)
        invariant forall i, j :: 0 <= i < j < |ids| ==> ids[i] != ids[j]
        decreases rest
      {
        var id :| id in rest;
        var info := endpoints[id];
        var oldInterface := ListenInterfaceFor(info.hostname, oldOverrides, oldDefault);
        var newInterface := ListenInterfaceFor(info.hostname, newOverrides, newDefault);
        if oldInterface != newInterface {
          ids := ids + [id];
        }
        rest := rest - {id};
      }
    }

    /** The first loop of rebindEndpoints: stop and untrack each listed endpoint that is
        tracked, keeping its IP allocated, and collect its ID and URL for recreation. */
    method UntrackForRebind(ids: seq<string>) returns (recreate: seq<ApiEndpoint>)
      requires Valid()
      modifies this, listenerMgr
      ensures Valid() && config == old(config)
      ensures forall id :: id in endpoints <==> id in old(endpoints) && id !in ids
      ensures forall id :: id in endpoints ==> endpoints[id] == old(endpoints)[id]
      ensures forall m :: 0 <= m < |recreate| ==>
        recreate[m].id in old(endpoints) && recreate[m].url == old(endpoints)[recreate[m].id].url
    {
      recreate := [];
      for k := 0 to |ids|
        invariant Valid() && config == old(config)
        invariant forall id :: id in endpoints <==> id in old(endpoints) && id !in ids[..k]
        invariant forall id :: id in endpoints ==> endpoints[id] == old(endpoints)[id]
        invariant forall m :: 0 <= m < |recreate| ==>
          recreate[m].id in old(endpoints) && recreate[m].url == old(endpoints)[recreate[m].id].url
      {
        var untracked := UntrackOne(ids[k]);
        if untracked.Some? {
          recreate := recreate + [untracked.value];
        }
        assert ids[..k + 1] == ids[..k] + [ids[k]];
      }
      assert ids[..|ids|] == ids;
    }

    /** One pass of that loop: a tracked endpoint has its listener stopped and is
        untracked, and its ID and URL are handed back; an untracked ID changes nothing. */
    method UntrackOne(id: string) returns (untracked: Option<ApiEndpoint>)
      requires Valid()
      modifies this, listenerMgr
      ensures Valid() && config == old(config)
      ensures endpoints == old(endpoints) - {id}
      ensures untracked.Some? <==> id in old(endpoints)
      ensures untracked.Some? ==> untracked.value == ApiEndpoint(id, old(endpoints)[id].url)
    {
      if id !in endpoints {
        return None;
      }
      var ep := endpoints[id];
      var _ := listenerMgr.StopListener(id);
      endpoints := endpoints - {id};
      return Some(ApiEndpoint(ep.id, ep.url));
    }

    /** rebindEndpoints: untrack the listed endpoints, then add each one again under
        the current settings; every re-added endpoint is bound as addEndpoint binds a
        new one, with its old URL. */
    method RebindEndpoints(ids: seq<string>, host: Host)
      requires Valid()
      modifies this, allocator, listenerMgr, healthServer
      ensures Valid() && config == old(config)
      ensures endpoints.Keys <= old(endpoints).Keys
      ensures forall id :: id in old(endpoints) && id !in ids ==> id in endpoints && endpoints[id] == old(endpoints)[id]
      ensures forall id :: id in endpoints ==> endpoints[id].url == old(endpoints)[id].url
      ensures forall id :: id in endpoints && id in ids ==>
        AddedAs(ApiEndpoint(id, old(endpoints)[id].url), endpoints[id], host)
    {
      var recreate := UntrackForRebind(ids);
      for k := 0 to |recreate|
        invariant Valid() && config == old(config)
        invariant forall id :: id in endpoints ==> id in old(endpoints) && endpoints[id].url == old(endpoints)[id].url
        invariant forall id :: id in old(endpoints) && id !in ids ==> id in endpoints && endpoints[id] == old(endpoints)[id]
        invariant forall id :: id in endpoints && id in ids ==>
          AddedAs(ApiEndpoint(id, old(endpoints)[id].url), endpoints[id], host)
      {
        var ep := recreate[k];
        assert ep == ApiEndpoint(ep.id, old(endpoints)[ep.id].url);
        Readd(ep, host, ids, old(endpoints));
      }
    }

    /** One pass of the recreate loop: add the endpoint again. Entries already tracked
        are kept, and with them every listed endpoint re-added so far stays bound as
        addEndpoint bound it. */
    method Readd(ep: ApiEndpoint, host: Host, ghost ids: seq<string>, ghost orig: map<string, EndpointInfo>)
      requires Valid()
      requires ep.id in orig && ep == ApiEndpoint(ep.id, orig[ep.id].url)
      requires forall id :: id in endpoints ==> id in orig && endpoints[id].url == orig[id].url
      requires forall id :: id in endpoints && id in ids ==> AddedAs(ApiEndpoint(id, orig[id].url), endpoints[id], host)
      modifies this, allocator, listenerMgr, healthServer
      ensures Valid() && config == old(config)
      ensures forall id :: id in old(endpoints) ==> id in endpoints && endpoints[id] == old(endpoints)[id]
      ensures forall id :: id in endpoints ==> id in orig && endpoints[id].url == orig[id].url
      ensures forall id :: id in endpoints && id in ids ==> AddedAs(ApiEndpoint(id, orig[id].url), endpoints[id], host)
    {
      AddEndpoint(ep, host);
      forall id | id in endpoints
        ensures id in orig && endpoints[id].url == orig[id].url
        ensures id in ids ==> AddedAs(ApiEndpoint(id, orig[id].url), endpoints[id], host)
      {
        if id !in old(endpoints) {
          assert id == ep.id && AddedAs(ep, endpoints[id], host);
        } else if id in ids {
          var info := endpoints[id];
          assert info == old(endpoints)[id];
          assert old(AddedAs(ApiEndpoint(id, orig[id].url), info, host));
          assert ResolvedInterface(info.hostname, host) == old(ResolvedInterface(info.hostname, host));
        }
      }
    }

    /** reloadConfig after loading: a configuration that fails validateConfig changes
        nothing; otherwise the poll interval, overrides, default interface and start
        port are taken over, and the endpoints whose interface changed are rebound. */
    method ReloadConfig(decoded: DaemonSettings, host: Host) returns (rebound: seq<string>)
      requires Valid()
      modifies this, allocator, listenerMgr, healthServer
      ensures Valid()
      ensures !ConfigAccepted(WithDefaults(decoded)) ==>
        config == old(config) && endpoints == old(endpoints) && rebound == []
        && allocator.allocations == old(allocator.allocations) && listenerMgr.listeners == old(listenerMgr.listeners)
        && nextPort == old(nextPort) && networkPortsByHost == old(networkPortsByHost)
        && healthServer.endpoints == old(healthServer.endpoints)
      ensures ConfigAccepted(WithDefaults(decoded)) ==>
        var next := WithDefaults(decoded);
        && config == old(config).(
             boundEndpoints := old(config).boundEndpoints.(pollInterval := next.boundEndpoints.pollInterval),
             net := old(config).net.(overrides := next.net.overrides, listenInterface := next.net.listenInterface,
                                     startPort := next.net.startPort))
        && (forall id :: id in rebound <==>
              id in old(endpoints) && NeedsRebind(old(endpoints)[id].hostname, old(config).net.overrides,
                                                  old(config).net.listenInterface, next.net.overrides,
                                                  next.net.listenInterface))
      ensures forall id :: id in old(endpoints) && id !in rebound ==> id in endpoints && endpoints[id] == old(endpoints)[id]
      ensures endpoints.Keys <= old(endpoints).Keys
      ensures forall id :: id in endpoints && id in rebound ==>
        AddedAs(ApiEndpoint(id, old(endpoints)[id].url), endpoints[id], host)
    {
      var next := WithDefaults(decoded);
      var err := ValidateConfig(next);
      if err.Some? {
        return [];
      }
      var oldOverrides := config.net.overrides;
      var oldListenInterface := config.net.listenInterface;
      config := config.(
        boundEndpoints := config.boundEndpoints.(pollInterval := next.boundEndpoints.pollInterval),
        net := config.net.(overrides := next.net.overrides, listenInterface := next.net.listenInterface,
                           startPort := next.net.startPort));
      var overridesChanged := oldOverrides != next.net.overrides;
      var defaultChanged := oldListenInterface != next.net.listenInterface;
      rebound := [];
      if overridesChanged || defaultChanged {
        rebound := SelectRebind(oldOverrides, oldListenInterface, next.net.overrides, next.net.listenInterface);
        if |rebound| > 0 {
          RebindEndpoints(rebound, host);
        }
      } else {
        forall id | id in endpoints
          ensures !NeedsRebind(endpoints[id].hostname, oldOverrides, oldListenInterface, next.net.overrides, next.net.listenInterface)
        {
          NoChangeNoRebind(endpoints[id].hostname, oldOverrides, oldListenInterface);
        }
      }
    }
  }
}
