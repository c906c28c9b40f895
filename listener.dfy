/** pkg/listener/manager.go: the registry of local listeners, keyed by endpoint name.
    Opening a socket is a parameter (`canListen`: whether net.Listen succeeds on an
    address); the accept loop, forwarding and cancellation are left out. */
module Listener {
  import opened Wrappers
  import opened Text
  import IpAlloc

  /** forwarder.BoundEndpoint: what a listener is started for. */
  datatype BoundEndpoint = BoundEndpoint(name: string, uri: string, port: int, localPort: int, localAddress: string)

  /** A running listener: its endpoint and the address it listens on. */
  datatype ActiveListener = ActiveListener(endpoint: BoundEndpoint, address: string)

  datatype ListenerError = AlreadyExists(name: string) | ListenFailed(address: string) | NotFound(name: string)

  const DefaultLocalAddress: string := "127.0.0.1"

  /** The address StartListener listens on: the local address, 127.0.0.1 when empty,
      then a colon and the local port in decimal. */
  function ListenAddress(endpoint: BoundEndpoint): string {
    var ip := if endpoint.localAddress == "" then DefaultLocalAddress else endpoint.localAddress;
    ip + ":" + IntText(endpoint.localPort)
  }

  /** The listen address splits back, with SplitHostPort and Sscanf, into the address
      listened on and the local port. */
  lemma {:induction false} ListenAddressSplits(endpoint: BoundEndpoint)
    requires IpAlloc.PlainHost(endpoint.localAddress) && 0 <= endpoint.localPort <= MaxInt64
    ensures var ip := if endpoint.localAddress == "" then DefaultLocalAddress else endpoint.localAddress;
      && IpAlloc.SplitHostPort(ListenAddress(endpoint)) == Some((ip, DecimalText(endpoint.localPort)))
      && ScanInt(DecimalText(endpoint.localPort)) == endpoint.localPort
  {
    var ip := if endpoint.localAddress == "" then DefaultLocalAddress else endpoint.localAddress;
    var digits := DecimalText(endpoint.localPort);
    assert forall k :: 0 <= k < |digits| ==> IsDigit(digits[k]);
    assert IpAlloc.PlainHost(digits);
    assert IpAlloc.PlainHost(ip);
    IpAlloc.SplitPlainHostPort(ip, digits);
    ScanDecimal(endpoint.localPort);
  }

  class Manager {
    var listeners: map<string, ActiveListener>

    /** New */
    constructor ()
      ensures listeners == map[]
    {
      listeners := map[];
    }

    /** StartListener: refuses a name already registered, and registers nothing when the
        socket cannot be opened. */
    method StartListener(endpoint: BoundEndpoint, canListen: string -> bool) returns (err: Option<ListenerError>)
      modifies this
      ensures endpoint.name in old(listeners) ==>
        err == Some(AlreadyExists(endpoint.name)) && listeners == old(listeners)
      ensures endpoint.name !in old(listeners) && !canListen(ListenAddress(endpoint)) ==>
        err == Some(ListenFailed(ListenAddress(endpoint))) && listeners == old(listeners)
      ensures endpoint.name !in old(listeners) && canListen(ListenAddress(endpoint)) ==>
        err == None && listeners == old(listeners)[endpoint.name := ActiveListener(endpoint, ListenAddress(endpoint))]
    {
      if endpoint.name in listeners {
        return Some(AlreadyExists(endpoint.name));
      }
      var localIP := endpoint.localAddress;
      if localIP == "" {
        localIP := DefaultLocalAddress;
      }
      var addr := localIP + ":" + IntText(endpoint.localPort);
      if !canListen(addr) {
        return Some(ListenFailed(addr));
      }
      listeners := listeners[endpoint.name := ActiveListener(endpoint, addr)];
      return None;
    }

    /** StopListener: an error for an unknown name, otherwise exactly that name goes. */
    method StopListener(name: string) returns (err: Option<ListenerError>)
      modifies this
      ensures name !in old(listeners) ==> err == Some(NotFound(name)) && listeners == old(listeners)
      ensures name in old(listeners) ==> err == None && listeners == old(listeners) - {name}
    {
      if name !in listeners {
        return Some(NotFound(name));
      }
      listeners := listeners - {name};
      return None;
    }

    /** ListActiveEndpoints: every registered name once, in map iteration order. */
    method ListActiveEndpoints() returns (names: seq<string>)
      ensures forall name :: name in names <==> name in listeners
      ensures forall i, j :: 0 <= i < j < |names| ==> names[i] != names[j]
      ensures |names| == |listeners|
    {
      names := [];
      var rest := listeners.Keys;
      while rest != {}
        invariant rest <= listeners.Keys
        invariant forall name :: name in names <==> name in listeners && name !in rest
        invariant forall i, j :: 0 <= i < j < |names| ==> names[i] != names[j]
        invariant |names| + |rest| == |listeners|
        decreases |rest|
      {
        var name :| name in rest;
        names := names + [name];
        rest := rest - {name};
      }
      assert listeners.Keys == set name | name in names;
    }

    /** Close: stops and deletes every listener. */
    method Close()
      modifies this
      ensures listeners == map[]
    {
      var names := listeners.Keys;
      while names != {}
        invariant listeners.Keys == names
        decreases |names|
      {
        var name :| name in names;
        listeners := listeners - {name};
        names := names - {name};
      }
    }
  }
}
