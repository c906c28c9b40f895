/** pkg/ipalloc/allocator.go: the table that gives each endpoint hostname a
    local IPv4 address from a subnet, walking a `nextIP` cursor upwards. */
module IpAlloc {
  import opened Wrappers
  import opened Text
  import opened IpAddr

  /** The search in AllocateIP gives up after this many candidates. */
  const MaxAttempts: nat := 65000

  datatype AllocError =
    | ExhaustedRange(subnet: Subnet)   // "exhausted IP range in subnet ..."
    | NoAvailableIPs                   // "no available IPs in subnet"

  /** Where the candidate walk of AllocateIP ends. */
  datatype SearchOutcome = Found(ip: seq<Byte>) | Exhausted | NoneAvailable

  /** The candidate walk of AllocateIP from `ip`, `attempts` candidates in: take the
      candidate when its text is not taken and it lies in the subnet; otherwise step
      to the next address, and stop when that one falls outside the subnet. */
  function Search(ip: seq<Byte>, taken: set<string>, subnet: Subnet, attempts: nat): (r: SearchOutcome)
    requires |ip| == 4 && attempts <= MaxAttempts
    ensures r.Found? ==> |r.ip| == 4
    decreases MaxAttempts - attempts
  {
    if attempts == MaxAttempts then NoneAvailable
    else if FormatIPv4(ip) !in taken && InSubnet(subnet, ip) then Found(ip)
    else if !InSubnet(subnet, Increment(ip)) then Exhausted
    else Search(Increment(ip), taken, subnet, attempts + 1)
  }

  /** One candidate of the walk: take it, stop past the subnet, or go on. */
  lemma {:induction false} SearchStep(ip: seq<Byte>, taken: set<string>, subnet: Subnet, attempts: nat)
    requires |ip| == 4 && attempts < MaxAttempts
    ensures FormatIPv4(ip) !in taken && InSubnet(subnet, ip) ==> Search(ip, taken, subnet, attempts) == Found(ip)
    ensures !(FormatIPv4(ip) !in taken && InSubnet(subnet, ip)) && !InSubnet(subnet, Increment(ip)) ==>
      Search(ip, taken, subnet, attempts) == Exhausted
    ensures !(FormatIPv4(ip) !in taken && InSubnet(subnet, ip)) && InSubnet(subnet, Increment(ip)) ==>
      Search(ip, taken, subnet, attempts) == Search(Increment(ip), taken, subnet, attempts + 1)
  {
  }

  /** A found address is free and inside the subnet. */
  lemma {:induction false} SearchFound(ip: seq<Byte>, taken: set<string>, subnet: Subnet, attempts: nat)
    requires |ip| == 4 && attempts <= MaxAttempts
    ensures Search(ip, taken, subnet, attempts).Found? ==>
      var found := Search(ip, taken, subnet, attempts).ip;
      FormatIPv4(found) !in taken && InSubnet(subnet, found)
    decreases MaxAttempts - attempts
  {
    if attempts < MaxAttempts && !(FormatIPv4(ip) !in taken && InSubnet(subnet, ip)) && InSubnet(subnet, Increment(ip)) {
      SearchFound(Increment(ip), taken, subnet, attempts + 1);
    }
  }

  /** Exhaustion is reported only when every address from the start of the walk to
      the end of the subnet is taken. */
  lemma {:induction false} SearchExhaustedMeansFull(ip: seq<Byte>, taken: set<string>, subnet: Subnet, attempts: nat)
    requires |ip| == 4 && attempts <= MaxAttempts && InSubnet(subnet, ip)
    requires Search(ip, taken, subnet, attempts) == Exhausted
    ensures forall v :: Value(ip) <= v < Value(subnet.network) + Size(subnet) && v < AddressCount ==>
      FormatIPv4(Address(v)) in taken
    decreases MaxAttempts - attempts
  {
    AddressOfValue(ip);
    AddressCountIsPow();
    IncrementValue(ip);
    var next := Increment(ip);
    if InSubnet(subnet, next) && Value(ip) + 1 < AddressCount {
      SearchExhaustedMeansFull(next, taken, subnet, attempts + 1);
    }
  }

  /** Once the cursor has passed the end of the subnet, every search reports
      exhaustion, whatever addresses have been released below it. */
  lemma {:induction false} CursorPastEnd(ip: seq<Byte>, taken: set<string>, subnet: Subnet)
    requires |ip| == 4 && Value(subnet.network) + Size(subnet) <= Value(ip) && Value(ip) + 1 < AddressCount
    ensures Search(ip, taken, subnet, 0) == Exhausted
  {
    AddressCountIsPow();
    IncrementValue(ip);
  }

  /** Distinct hostnames hold distinct addresses. */
  predicate Injective(m: map<string, string>) {
    forall h1, h2 :: h1 in m && h2 in m && m[h1] == m[h2] ==> h1 == h2
  }

  /** Every recorded address is an IPv4 address inside the subnet. */
  predicate AllInSubnet(m: map<string, string>, subnet: Subnet) {
    forall h :: h in m ==> ParseIP(m[h]).Some? && InSubnet(subnet, ParseIP(m[h]).value)
  }

  /** Adding an entry whose address no hostname holds keeps the table injective. */
  lemma {:induction false} AddFreshKeepsInjective(m: map<string, string>, hostname: string, text: string)
    requires Injective(m) && hostname !in m && text !in m.Values
    ensures Injective(m[hostname := text])
  {
    forall h | h in m
      ensures m[h] != text
    {
      assert m[h] in m.Values;
    }
  }

  /** Adding the text of an in-subnet address keeps every entry inside the subnet. */
  lemma {:induction false} AddKeepsInSubnet(m: map<string, string>, hostname: string, ip: seq<Byte>, subnet: Subnet)
    requires AllInSubnet(m, subnet) && |ip| == 4 && InSubnet(subnet, ip)
    ensures AllInSubnet(m[hostname := FormatIPv4(ip)], subnet)
  {
    ParseFormat(ip);
    var m' := m[hostname := FormatIPv4(ip)];
    forall h | h in m'
      ensures ParseIP(m'[h]).Some? && InSubnet(subnet, ParseIP(m'[h]).value)
    {
      if h != hostname {
        assert m'[h] == m[h];
      }
    }
  }

  /** Recording a found address keeps the table injective and inside the subnet. */
  lemma {:induction false} FoundKeepsTable(m: map<string, string>, hostname: string, start: seq<Byte>, subnet: Subnet)
    requires |start| == 4 && hostname !in m
    requires Search(start, m.Values, subnet, 0).Found?
    ensures var ip := Search(start, m.Values, subnet, 0).ip;
      (Injective(m) ==> Injective(m[hostname := FormatIPv4(ip)])) &&
      (AllInSubnet(m, subnet) ==> AllInSubnet(m[hostname := FormatIPv4(ip)], subnet))
  {
    SearchFound(start, m.Values, subnet, 0);
    var ip := Search(start, m.Values, subnet, 0).ip;
    if Injective(m) {
      AddFreshKeepsInjective(m, hostname, FormatIPv4(ip));
    }
    if AllInSubnet(m, subnet) {
      AddKeepsInSubnet(m, hostname, ip, subnet);
    }
  }

  /** The entry text parses as an IPv4 address inside the subnet. */
  predicate LoadedIn(text: string, subnet: Subnet) {
    ParseIP(text).Some? && InSubnet(subnet, ParseIP(text).value)
  }

  /** `top` is the largest in-subnet address among the loaded entries. */
  predicate MaxLoaded(mappings: map<string, string>, subnet: Subnet, top: seq<Byte>) {
    (exists h :: h in mappings && LoadedIn(mappings[h], subnet) && ParseIP(mappings[h]).value == top)
    && forall h :: h in mappings && LoadedIn(mappings[h], subnet) ==> Value(ParseIP(mappings[h]).value) <= Value(top)
  }

  /** The cursor after a load lies past every loaded in-subnet address, and so is
      none of them, unless the largest one is 255.255.255.255 and the increment wraps. */
  lemma {:induction false} ResumePastLoaded(mappings: map<string, string>, subnet: Subnet, top: seq<Byte>)
    requires MaxLoaded(mappings, subnet, top) && Value(top) + 1 < AddressCount
    ensures forall h :: h in mappings && LoadedIn(mappings[h], subnet) ==>
      Value(ParseIP(mappings[h]).value) < Value(Increment(top))
    ensures forall h :: h in mappings && LoadedIn(mappings[h], subnet) ==>
      mappings[h] != FormatIPv4(Increment(top))
  {
    var h0 :| h0 in mappings && LoadedIn(mappings[h0], subnet) && ParseIP(mappings[h0]).value == top;
    AddressCountIsPow();
    IncrementValue(top);
    ParseFormat(Increment(top));
  }

  /** The largest loaded address is unique. */
  lemma {:induction false} MaxLoadedUnique(mappings: map<string, string>, subnet: Subnet, a: seq<Byte>, b: seq<Byte>)
    requires MaxLoaded(mappings, subnet, a) && MaxLoaded(mappings, subnet, b)
    ensures a == b
  {
    var ha :| ha in mappings && LoadedIn(mappings[ha], subnet) && ParseIP(mappings[ha]).value == a;
    var hb :| hb in mappings && LoadedIn(mappings[hb], subnet) && ParseIP(mappings[hb]).value == b;
    ValueInjective(a, b);
  }

  /** The address allocation starts from: the network address plus two, skipping
      the network address and the gateway. */
  function StartAddress(subnet: Subnet): (start: seq<Byte>)
    requires |subnet.network| == 4
    ensures |start| == 4
  {
    Increment(Increment(subnet.network))
  }

  /** NewAllocator as written: the last byte of the network address is set to 2. */
  function AsWrittenStart(network: seq<Byte>): (start: seq<Byte>)
    requires |network| == 4
  {
    network[..3] + [2]
  }

  /** For a block of at least four addresses the start address lies two past the
      network address, inside the subnet. */
  lemma {:induction false} StartAddressInSubnet(subnet: Subnet)
    requires ValidSubnet(subnet) && subnet.prefixLength <= 30
    ensures Value(StartAddress(subnet)) == Value(subnet.network) + 2
    ensures InSubnet(subnet, StartAddress(subnet))
  {
    AlignedBlockFits(subnet);
    Pow2Add(2, 30 - subnet.prefixLength);
    Pow2Add(1, 1);
    MulLeftMono(4, 1, Pow2(30 - subnet.prefixLength));
    AddressCountIsPow();
    IncrementValue(subnet.network);
    IncrementValue(Increment(subnet.network));
  }

  lemma {:induction false} Pow2Is256()
    ensures Pow2(8) == 256
  {
    Pow2Add(1, 1);
    Pow2Add(2, 2);
    Pow2Add(4, 4);
  }

  /** A multiple of 256 * k is a multiple of 256. */
  lemma {:induction false} MultipleOf256(x: nat, size: nat, k: nat)
    requires size == 256 * k && size > 0 && x % size == 0
    ensures x % 256 == 0
  {
    var q := x / size;
    assert x == size * q;
    assert size * q == 256 * (k * q);
    DivModUnique(x, 256, k * q, 0);
  }

  /** With a prefix of at most 24 the network address ends in a zero byte, so
      setting the last byte to 2 is the same as adding 2. */
  lemma {:induction false} AsWrittenStartAgrees(subnet: Subnet)
    requires ValidSubnet(subnet) && subnet.prefixLength <= 24
    ensures AsWrittenStart(subnet.network) == StartAddress(subnet)
  {
    var net := subnet.network;
    var high := net[..3];
    Pow2Add(8, 24 - subnet.prefixLength);
    Pow2Is256();
    MultipleOf256(Value(net), Size(subnet), Pow2(24 - subnet.prefixLength));
    DivModUnique(Value(net), 256, Value(high), net[3]);
    assert net == high + [0];
    assert Increment(net) == high + [1];
    assert (high + [1])[..3] == high;
  }

  /** 10.0.0.128/25 as written: the start address 10.0.0.2 lies below the block, so
      the first allocation reports exhaustion although the block has room. */
  lemma {:induction false} AsWrittenStartMissesSubnet()
    ensures var subnet := Subnet([10, 0, 0, 128], 25);
      ValidSubnet(subnet)
      && !InSubnet(subnet, AsWrittenStart(subnet.network))
      && Search(AsWrittenStart(subnet.network), {}, subnet, 0) == Exhausted
      && InSubnet(subnet, StartAddress(subnet))
  {
    var subnet := Subnet([10, 0, 0, 128], 25);
    Pow2Add(1, 1);
    Pow2Add(2, 2);
    Pow2Add(3, 4);
    assert Size(subnet) == 128;
    Value4(subnet.network);
    var start := AsWrittenStart(subnet.network);
    assert start == [10, 0, 0, 2];
    Value4(start);
    assert Increment(start) == [10, 0, 0, 3];
    Value4(Increment(start));
    StartAddressInSubnet(subnet);
  }

  /** The outcome of allocating for a hostname without an address: the walk from
      the cursor `next` decides the result, the new table `table'` and cursor `next'`. */
  predicate Allocation(table: map<string, string>, next: seq<Byte>, subnet: Subnet, hostname: string,
                       r: Result<string, AllocError>, table': map<string, string>, next': seq<Byte>)
    requires |next| == 4
  {
    match Search(next, table.Values, subnet, 0)
    case Found(ip) =>
      r == Success(FormatIPv4(ip)) && table' == table[hostname := FormatIPv4(ip)] && next' == Increment(ip)
    case Exhausted =>
      r == Failure(ExhaustedRange(subnet)) && table' == table && next' == next
    case NoneAvailable =>
      r == Failure(NoAvailableIPs) && table' == table && next' == next
  }

  /** A copy of an address as a fresh byte slice. */
  method ToArray(s: seq<Byte>) returns (a: array<Byte>)
    ensures fresh(a) && a[..] == s
  {
    a := new Byte[|s|](i requires 0 <= i < |s| => s[i]);
  }

  class Allocator {
    const subnet: Subnet
    /** The next candidate address. */
    var nextIP: seq<Byte>
    /** hostname -> IP text */
    var allocations: map<string, string>

    predicate Valid()
      reads this
    {
      ValidSubnet(subnet) && |nextIP| == 4
    }

    /** NewAllocator: the subnet parsed from `cidr`, or 10.107.0.0/16 when it does
        not parse; an empty table; the cursor two past the network address. */
    constructor (cidr: string)
      ensures Valid()
      ensures subnet == (match ParseCIDR(cidr) case Some(s) => s case None => DefaultSubnet)
      ensures nextIP == StartAddress(subnet) && allocations == map[]
    {
      var parsed := ParseCIDR(cidr);
      var s := match parsed case Some(p) => p case None => DefaultSubnet;
      DefaultSubnetValid();
      var start := ToArray(s.network);
      IncrementIP(start);
      IncrementIP(start);
      subnet := s;
      nextIP := start[..];
      allocations := map[];
    }

    /** isIPAllocated: whether some hostname already holds the address text. */
    method IsIPAllocated(ip: string) returns (b: bool)
      ensures b <==> ip in allocations.Values
    {
      var keys := allocations.Keys;
      while keys != {}
        invariant keys <= allocations.Keys
        invariant forall h :: h in allocations && h !in keys ==> allocations[h] != ip
        decreases keys
      {
        var h :| h in keys;
        if allocations[h] == ip {
          return true;
        }
        keys := keys - {h};
      }
      return false;
    }

    /** The candidate walk of AllocateIP from the cursor: an address is taken when its
        text is free and it lies in the subnet; the walk gives up past the end of the
        subnet or after MaxAttempts candidates. */
    method Walk() returns (outcome: SearchOutcome)
      requires |nextIP| == 4
      ensures outcome == Search(nextIP, allocations.Values, subnet, 0)
    {
      var ip := ToArray(nextIP);
      var attempts := 0;
      ghost var target := Search(nextIP, allocations.Values, subnet, 0);
      while attempts < MaxAttempts
        invariant 0 <= attempts <= MaxAttempts && ip.Length == 4
        invariant Search(ip[..], allocations.Values, subnet, attempts) == target
        decreases MaxAttempts - attempts
      {
        var stop := Advance(ip, attempts);
        if stop.Some? {
          return stop.value;
        }
        attempts := attempts + 1;
      }
      return NoneAvailable;
    }

    /** One pass of the walk: take the candidate in `ip` when its text is free and it
        lies in the subnet; otherwise step `ip` to the next address, and stop when that
        one falls outside the subnet. */
    method Advance(ip: array<Byte>, attempts: nat) returns (stop: Option<SearchOutcome>)
      requires ip.Length == 4 && attempts < MaxAttempts
      modifies ip
      ensures stop.Some? ==> stop.value == Search(old(ip[..]), allocations.Values, subnet, attempts)
      ensures stop.None? ==>
        Search(ip[..], allocations.Values, subnet, attempts + 1) == Search(old(ip[..]), allocations.Values, subnet, attempts)
    {
      var current := ip[..];
      SearchStep(current, allocations.Values, subnet, attempts);
      var ipText := FormatIPv4(current);
      var taken := IsIPAllocated(ipText);
      if !taken && InSubnet(subnet, current) {
        return Some(Found(current));
      }
      IncrementIP(ip);
      if !InSubnet(subnet, ip[..]) {
        return Some(Exhausted);
      }
      return None;
    }

    /** AllocateIP: a hostname that has an address keeps it; otherwise the walk from
        the cursor picks the first free address in the subnet, records it and moves
        the cursor one past it. A failed walk changes nothing. */
    method AllocateIP(hostname: string) returns (r: Result<string, AllocError>)
      requires Valid()
      modifies this
      ensures Valid()
      ensures hostname in old(allocations) ==>
        r == Success(old(allocations)[hostname]) && allocations == old(allocations) && nextIP == old(nextIP)
      ensures hostname !in old(allocations) ==>
        Allocation(old(allocations), old(nextIP), subnet, hostname, r, allocations, nextIP)
      ensures Injective(old(allocations)) ==> Injective(allocations)
      ensures AllInSubnet(old(allocations), subnet) ==> AllInSubnet(allocations, subnet)
      ensures forall h :: h in old(allocations) ==> h in allocations && allocations[h] == old(allocations)[h]
      ensures r.Success? ==> hostname in allocations && allocations[hostname] == r.value
    {
      if hostname in allocations {
        return Success(allocations[hostname]);
      }
      var outcome := Walk();
      match outcome
      case Found(ip) =>
        FoundKeepsTable(allocations, hostname, nextIP, subnet);
        var ipText := FormatIPv4(ip);
        allocations := allocations[hostname := ipText];
        var next := ToArray(ip);
        IncrementIP(next);
        nextIP := next[..];
        return Success(ipText);
      case Exhausted =>
        return Failure(ExhaustedRange(subnet));
      case NoneAvailable =>
        return Failure(NoAvailableIPs);
    }

    /** GetAllMappings: a copy of the table. */
    method GetAllMappings() returns (result: map<string, string>)
      ensures result == allocations
    {
      result := map[];
      var keys := allocations.Keys;
      while keys != {}
        invariant keys <= allocations.Keys
        invariant result.Keys == allocations.Keys - keys
        invariant forall h :: h in result ==> result[h] == allocations[h]
        decreases keys
      {
        var h :| h in keys;
        result := result[h := allocations[h]];
        keys := keys - {h};
      }
    }

    /** ReleaseIP: drops the hostname's entry, if any; the cursor stays. */
    method ReleaseIP(hostname: string)
      modifies this
      ensures allocations == old(allocations) - {hostname} && nextIP == old(nextIP)
      ensures hostname !in old(allocations) ==> allocations == old(allocations)
      ensures forall h :: h in old(allocations) && h != hostname ==> h in allocations && allocations[h] == old(allocations)[h]
      ensures Injective(old(allocations)) ==> Injective(allocations)
    {
      if hostname in allocations {
        allocations := allocations - {hostname};
      }
    }

    /** The in-memory part of LoadPersistentMappings: the table becomes the loaded
        map and, when some loaded address parses and lies in the subnet, the cursor
        moves one past the largest such address. */
    method LoadMappings(mappings: map<string, string>)
      requires Valid()
      modifies this
      ensures Valid() && allocations == mappings
      ensures (forall h :: h in mappings ==> !LoadedIn(mappings[h], subnet)) ==> nextIP == old(nextIP)
      ensures (exists h :: h in mappings && LoadedIn(mappings[h], subnet)) ==>
        exists top :: MaxLoaded(mappings, subnet, top) && nextIP == Increment(top)
    {
      allocations := mappings;
      var maxIP := LargestLoaded(mappings, subnet);
      if maxIP.Some? {
        var next := ToArray(maxIP.value);
        IncrementIP(next);
        nextIP := next[..];
      }
    }
  }

  /** The loop of LoadPersistentMappings: the largest address among the entries that
      parse and lie in the subnet, if there is one. */
  method LargestLoaded(mappings: map<string, string>, subnet: Subnet) returns (maxIP: Option<seq<Byte>>)
    ensures maxIP.None? ==> forall h :: h in mappings ==> !LoadedIn(mappings[h], subnet)
    ensures maxIP.Some? ==> MaxLoaded(mappings, subnet, maxIP.value)
  {
    maxIP := None;
    ghost var topHost: string := "";
    var keys := mappings.Keys;
    while keys != {}
      invariant keys <= mappings.Keys
      invariant maxIP.None? ==> forall h :: h in mappings && h !in keys ==> !LoadedIn(mappings[h], subnet)
      invariant maxIP.Some? ==>
        topHost in mappings && LoadedIn(mappings[topHost], subnet) && ParseIP(mappings[topHost]).value == maxIP.value
      invariant maxIP.Some? ==> forall h :: h in mappings && h !in keys && LoadedIn(mappings[h], subnet) ==>
        Value(ParseIP(mappings[h]).value) <= Value(maxIP.value)
      decreases keys
    {
      var h :| h in keys;
      var previous := maxIP;
      maxIP := Consider(maxIP, mappings[h], subnet);
      if maxIP != previous {
        topHost := h;
      }
      var rest := keys - {h};
      if maxIP.None? {
        forall other | other in mappings && other !in rest
          ensures !LoadedIn(mappings[other], subnet)
        {
          if other != h {
            assert other !in keys;
          }
        }
      } else {
        forall other | other in mappings && other !in rest && LoadedIn(mappings[other], subnet)
          ensures Value(ParseIP(mappings[other]).value) <= Value(maxIP.value)
        {
          if other != h {
            assert other !in keys;
          }
        }
      }
      keys := rest;
    }
  }

  /** One pass of that loop: an entry that parses and lies in the subnet replaces the
      maximum when it is greater. */
  method Consider(maxIP: Option<seq<Byte>>, text: string, subnet: Subnet) returns (next: Option<seq<Byte>>)
    requires maxIP.Some? ==> |maxIP.value| == 4
    ensures next.Some? ==> |next.value| == 4
    ensures !LoadedIn(text, subnet) ==> next == maxIP
    ensures LoadedIn(text, subnet) ==> next.Some? && Value(ParseIP(text).value) <= Value(next.value)
    ensures next != maxIP ==> LoadedIn(text, subnet) && next == ParseIP(text)
    ensures maxIP.Some? ==> next.Some? && Value(maxIP.value) <= Value(next.value)
  {
    next := maxIP;
    var ip := ParseIP(text);
    if ip.Some? && InSubnet(subnet, ip.value) {
      var greater := true;
      if maxIP.Some? {
        var c := CompareIP(ip.value, maxIP.value);
        greater := c > 0;
      }
      if greater {
        next := Some(ip.value);
      }
    }
  }

  lemma {:induction false} DefaultSubnetValid()
    ensures ValidSubnet(DefaultSubnet)
  {
    Pow2Add(8, 8);
    Pow2Is256();
    Value4(DefaultSubnet.network);
  }

  datatype HostnameError = InvalidURIFormat | CannotDeterminePort

  /** net.SplitHostPort: `host:port`, or `[host]:port` for a bracketed host, split
      at the last colon. */
  function SplitHostPort(hostPort: string): (r: Option<(string, string)>)
    ensures r.Some? ==> ':' in hostPort
  {
    match LastIndexOf(hostPort, ':')
    case None => None
    case Some(i) =>
      if hostPort[0] == '[' then
        match IndexOf(hostPort, "]")
        case None => None
        case Some(end) =>
          if end + 1 != i then None
          else if '[' in hostPort[1..] || ']' in hostPort[end + 1..] then None
          else Some((hostPort[1..end], hostPort[i + 1..]))
      else if ':' in hostPort[..i] || '[' in hostPort || ']' in hostPort then None
      else Some((hostPort[..i], hostPort[i + 1..]))
  }

  datatype Endpoint = Endpoint(host: string, port: int)

  /** ParseHostname: scheme and host:port around the first "://"; without a port,
      https means 443 and http 80; an explicit port is read with Sscanf("%d"). */
  function ParseHostname(uri: string): (r: Result<Endpoint, HostnameError>)
    ensures !Contains(uri, "://") <==> r == Failure(InvalidURIFormat)
  {
    match IndexOf(uri, "://")
    case None => Failure(InvalidURIFormat)
    case Some(i) =>
      var scheme := uri[..i];
      var hostPort := uri[i + 3..];
      match SplitHostPort(hostPort)
      case None =>
        if scheme == "https" then Success(Endpoint(hostPort, 443))
        else if scheme == "http" then Success(Endpoint(hostPort, 80))
        else Failure(CannotDeterminePort)
      case Some((host, portText)) => Success(Endpoint(host, ScanInt(portText)))
  }

  predicate PlainHost(host: string) {
    ':' !in host && '[' !in host && ']' !in host
  }

  /** Without a port that net.SplitHostPort can split off (no colon, or a text such as
      "a:b:c" that it rejects), the scheme decides: https gives 443, http gives 80, and
      any other scheme is an error. */
  lemma {:induction false} ParseHostnameDefaultPort(scheme: string, host: string)
    requires ':' !in scheme && SplitHostPort(host).None?
    ensures ParseHostname(scheme + "://" + host) ==
      if scheme == "https" then Success(Endpoint(host, 443))
      else if scheme == "http" then Success(Endpoint(host, 80))
      else Failure(CannotDeterminePort)
  {
    var uri := scheme + "://" + host;
    IndexAfterPrefix(scheme, "://", host);
    assert uri[..|scheme|] == scheme && uri[|scheme| + 3..] == host;
  }

  /** A bracket-free host and a port free of colons and brackets split at the colon. */
  lemma {:induction false} SplitPlainHostPort(host: string, portText: string)
    requires PlainHost(host) && PlainHost(portText)
    ensures SplitHostPort(host + ":" + portText) == Some((host, portText))
  {
    var hostPort := host + ":" + portText;
    assert hostPort[|host| + 1..] == portText && hostPort[..|host|] == host;
    assert LastIndexOf(hostPort, ':') == Some(|host|);
    assert hostPort[0] == (if |host| > 0 then host[0] else ':');
    assert forall k :: 0 <= k < |hostPort| ==> hostPort[k] != '[' && hostPort[k] != ']';
  }

  /** An explicit decimal port is returned with the host. */
  lemma {:induction false} ParseHostnameExplicitPort(scheme: string, host: string, port: nat)
    requires ':' !in scheme && PlainHost(host) && port <= MaxInt64
    ensures ParseHostname(scheme + "://" + host + ":" + DecimalText(port)) == Success(Endpoint(host, port))
  {
    var digits := DecimalText(port);
    var hostPort := host + ":" + digits;
    var uri := scheme + "://" + hostPort;
    assert uri == scheme + "://" + host + ":" + digits;
    IndexAfterPrefix(scheme, "://", hostPort);
    assert uri[..|scheme|] == scheme && uri[|scheme| + 3..] == hostPort;
    assert forall k :: 0 <= k < |digits| ==> IsDigit(digits[k]);
    SplitPlainHostPort(host, digits);
    ScanDecimal(port);
  }
}
