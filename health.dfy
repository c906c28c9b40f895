/** pkg/health/server.go: the per-endpoint counter table behind the health, readiness
    and status handlers. The HTTP server, timestamps and JSON encoding are left out. */
module Health {
  import opened Text

  /** One endpoint's status. The counters are the int64 fields of the source, unbounded here. */
  datatype EndpointStatus = EndpointStatus(
    name: string,
    localAddress: string,
    targetUri: string,
    active: bool,
    connections: int,
    totalConnections: int,
    errors: int)

  const DefaultPort: int := 8081

  /** The listen address NewServer builds: "address:port", or ":port" for an empty
      address, with port 0 replaced by 8081. */
  function ServerAddress(address: string, port: int): string {
    var p := if port == 0 then DefaultPort else port;
    if address == "" then ":" + IntText(p) else address + ":" + IntText(p)
  }

  /** The port is never 0 in the address, and the host part is the given address. */
  lemma {:induction false} ServerAddressShape(address: string, port: int)
    ensures ServerAddress(address, port) == address + ":" + IntText(if port == 0 then DefaultPort else port)
    ensures port == 0 ==> ServerAddress(address, port) == address + ":8081"
  {
    if port == 0 {
      DecimalText8081();
    }
  }

  lemma {:induction false} DecimalText8081()
    ensures IntText(8081) == "8081"
  {
    assert DecimalText(8) == "8";
    assert DecimalText(80) == DecimalText(8) + [DigitChar(0)];
    assert DecimalText(808) == DecimalText(80) + [DigitChar(8)];
    assert DecimalText(8081) == DecimalText(808) + [DigitChar(1)];
  }

  /** The status of a freshly registered endpoint: active, all counters zero. */
  function Registered(name: string, localAddress: string, targetUri: string): EndpointStatus {
    EndpointStatus(name, localAddress, targetUri, true, 0, 0, 0)
  }

  /** The entry invariant: every entry is active and has seen at least as many connections
      in total as are open. */
  predicate WellFormed(ep: EndpointStatus) {
    ep.active && ep.totalConnections >= ep.connections
  }

  datatype HttpResponse = HttpResponse(code: int, body: string)

  /** The status document handleStatus encodes (uptime and start time left out). */
  datatype Status = Status(healthy: bool, ready: bool, endpoints: map<string, EndpointStatus>)

  class Server {
    const addr: string
    var endpoints: map<string, EndpointStatus>
    var ready: bool

    predicate Valid()
      reads this
    {
      forall name :: name in endpoints ==> WellFormed(endpoints[name])
    }

    /** NewServer */
    constructor (address: string, port: int)
      ensures addr == ServerAddress(address, port)
      ensures endpoints == map[] && !ready
      ensures Valid()
    {
      var p := port;
      if p == 0 {
        p := DefaultPort;
      }
      var a := address + ":" + IntText(p);
      if address == "" {
        a := ":" + IntText(p);
      }
      addr := a;
      endpoints := map[];
      ready := false;
    }

    /** SetReady */
    method SetReady(r: bool)
      modifies this
      ensures ready == r && endpoints == old(endpoints)
    {
      ready := r;
    }

    /** RegisterEndpoint: creates or replaces the entry. */
    method RegisterEndpoint(name: string, localAddress: string, targetUri: string)
      requires Valid()
      modifies this
      ensures Valid()
      ensures endpoints == old(endpoints)[name := Registered(name, localAddress, targetUri)]
      ensures ready == old(ready)
    {
      endpoints := endpoints[name := Registered(name, localAddress, targetUri)];
    }

    /** UnregisterEndpoint */
    method UnregisterEndpoint(name: string)
      requires Valid()
      modifies this
      ensures Valid()
      ensures endpoints == old(endpoints) - {name}
      ensures ready == old(ready)
    {
      endpoints := endpoints - {name};
    }

    /** RecordConnection: one more open and one more in total, for a known name. */
    method RecordConnection(name: string)
      requires Valid()
      modifies this
      ensures Valid()
      ensures name in old(endpoints) ==> endpoints == old(endpoints)[name := old(endpoints)[name].(
        connections := old(endpoints)[name].connections + 1,
        totalConnections := old(endpoints)[name].totalConnections + 1)]
      ensures name !in old(endpoints) ==> endpoints == old(endpoints)
      ensures ready == old(ready)
    {
      if name in endpoints {
        var ep := endpoints[name];
        endpoints := endpoints[name := ep.(connections := ep.connections + 1,
                                           totalConnections := ep.totalConnections + 1)];
      }
    }

    /** RecordConnectionClose: one fewer open; the total is kept. */
    method RecordConnectionClose(name: string)
      requires Valid()
      modifies this
      ensures Valid()
      ensures name in old(endpoints) ==> endpoints == old(endpoints)[name := old(endpoints)[name].(
        connections := old(endpoints)[name].connections - 1)]
      ensures name !in old(endpoints) ==> endpoints == old(endpoints)
      ensures ready == old(ready)
    {
      if name in endpoints {
        var ep := endpoints[name];
        endpoints := endpoints[name := ep.(connections := ep.connections - 1)];
      }
    }

    /** RecordError */
    method RecordError(name: string)
      requires Valid()
      modifies this
      ensures Valid()
      ensures name in old(endpoints) ==> endpoints == old(endpoints)[name := old(endpoints)[name].(
        errors := old(endpoints)[name].errors + 1)]
      ensures name !in old(endpoints) ==> endpoints == old(endpoints)
      ensures ready == old(ready)
    {
      if name in endpoints {
        var ep := endpoints[name];
        endpoints := endpoints[name := ep.(errors := ep.errors + 1)];
      }
    }

    /** The healthy flag of handleHealth: the loop looks for an active endpoint. */
    method HealthyFlag() returns (healthy: bool)
      ensures healthy <==> exists name :: name in endpoints && endpoints[name].active
    {
      healthy := false;
      var names := endpoints.Keys;
      while names != {}
        invariant names <= endpoints.Keys
        invariant !healthy
        invariant forall name :: name in endpoints && name !in names ==> !endpoints[name].active
        decreases |names|
      {
        var name :| name in names;
        if endpoints[name].active {
          healthy := true;
          break;
        }
        names := names - {name};
      }
    }

    /** handleHealth */
    method HandleHealth() returns (response: HttpResponse)
      requires Valid()
      ensures response == if |endpoints| > 0 then HttpResponse(200, "healthy\n")
                          else HttpResponse(503, "unhealthy\n")
    {
      var healthy := HealthyFlag();
      HealthyIffRegistered(endpoints);
      if healthy {
        response := HttpResponse(200, "healthy\n");
      } else {
        response := HttpResponse(503, "unhealthy\n");
      }
    }

    /** handleReady */
    method HandleReady() returns (response: HttpResponse)
      ensures response == if ready then HttpResponse(200, "ready\n") else HttpResponse(503, "not ready\n")
    {
      if ready {
        response := HttpResponse(200, "ready\n");
      } else {
        response := HttpResponse(503, "not ready\n");
      }
    }

    /** handleStatus: the entries and the ready flag are copied, and, with every entry
        active, healthy is what handleHealth decides: some entry is active. */
    function CurrentStatus(): (r: Status)
      reads this
      ensures r.endpoints == endpoints && r.ready == ready
      ensures Valid() ==> (r.healthy <==> exists name :: name in endpoints && endpoints[name].active)
    {
      if Valid() then
        HealthyIffRegistered(endpoints);
        Status(|endpoints| > 0, ready, endpoints)
      else
        Status(|endpoints| > 0, ready, endpoints)
    }
  }

  /** Every entry being active, "some entry is active" (handleHealth) and "some entry
      exists" (handleStatus) agree. */
  lemma {:induction false} HealthyIffRegistered(endpoints: map<string, EndpointStatus>)
    requires forall name :: name in endpoints ==> WellFormed(endpoints[name])
    ensures (exists name :: name in endpoints && endpoints[name].active) <==> |endpoints| > 0
  {
    if |endpoints| > 0 {
      var name :| name in endpoints.Keys;
      assert endpoints[name].active;
    } else {
      assert endpoints.Keys == {};
    }
  }
}
