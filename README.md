# ngrokd core, modelled in Dafny

ngrokd is a daemon that discovers ngrok bound endpoints and makes each one reachable
on the local machine:

- it gives every endpoint hostname a local IPv4 address from a subnet;
- in network mode it also gives the hostname a persistent port;
- it rewrites a marker-delimited section of `/etc/hosts`;
- it starts one local listener per endpoint.

This project models the bookkeeping under the sockets, goroutines and OS calls. Each
modelled Go file gets one module, and the proofs are about the model:

| module | file | Go source |
|---|---|---|
| `IpAlloc` | `allocator.dfy` | `pkg/ipalloc/allocator.go` |
| `Hosts` | `hosts.dfy` | `pkg/hosts/manager.go` |
| `Config` | `config.dfy` | `pkg/config/config.go` |
| `DaemonConfiguration` | `daemon_config.dfy` | `pkg/config/daemon_config.go` |
| `Daemon` | `daemon.dfy` | `pkg/daemon/daemon.go` |
| `Health` | `health.dfy` | `pkg/health/server.go` |
| `Listener` | `listener.dfy` | `pkg/listener/manager.go` |
| `Socket` | `socket.dfy` | `pkg/socket/server.go` |

`IpAlloc` is the hostname→IP table with its `nextIP` cursor. `Hosts` is the section
rewriter. `Config` and `DaemonConfiguration` hold the configuration defaults,
validation and flag merge. `Daemon` covers:

- the daemon's configuration check;
- the tracked endpoint map reconciled against the API;
- the per-hostname network ports;
- the reload-time rebind selection.

`Health` is the health counters, `Listener` the listener registry, and `Socket` the
socket command dispatcher.

Three helper modules support them:

- `Wrappers` holds Option and Result.
- `Text` holds string search, `strings.Fields`, decimal formatting and `Sscanf("%d")`.
- `IpAddr` holds 4-byte addresses: big-endian value, increment with carry, dotted
  text and its parser, and subnets as aligned address ranges.

Where Go mutates state, the model does too:

- `Allocator`, `Config`, `DaemonConfig`, `Health.Server`, `Listener.Manager` and
  `Daemon` are classes whose methods update their fields.
- Loops are `while`/`for` loops with invariants.
- Each such method is proved against a specification function, and the lemmas are
  about that function.

Go map iteration order is unspecified, so the model handles it in two ways:

- Loops over maps pick an arbitrary remaining key (`:|`).
- Where the order shows in the result (the entry lines of the hosts section), it is
  an explicit parameter that enumerates the keys.

## Model

| member | source | states |
|---|---|---|
| `IpAddr.IncrementIP` | pkg/ipalloc/allocator.go:99-106 | the array becomes `Increment` of its old contents |
| `IpAddr.IncrementValue` | pkg/ipalloc/allocator.go:99-106 | incrementing adds one to the big-endian value, and wraps to 0 from the largest value |
| `IpAddr.IncrementModular` | pkg/ipalloc/allocator.go:99-106 | incrementing is +1 modulo 256^len |
| `IpAddr.IncrementCarry` | pkg/ipalloc/allocator.go:100-104 | trailing 255 bytes become 0 and the carry moves into the prefix |
| `IpAddr.CompareIP` | pkg/ipalloc/allocator.go:190-203 | the result is -1, 0 or 1; it is 0 iff the addresses are equal, and its sign is the order of their big-endian values |
| `IpAddr.ParseFormat` | pkg/ipalloc/allocator.go:63-73 | parsing the dotted text of an address gives the address back |
| `IpAddr.FormatInjective` | pkg/ipalloc/allocator.go:63-73 | distinct addresses have distinct texts, so text equality in the table is address equality |
| `IpAddr.ParseIP` | pkg/ipalloc/allocator.go:165 | an accepted text is the dotted text of the 4 bytes returned |
| `IpAddr.ParseCIDR` | pkg/ipalloc/allocator.go:26-30 | an accepted CIDR is an aligned subnet |
| `IpAddr.Mask` | pkg/ipalloc/allocator.go:26 | masking gives an aligned network that contains the address |
| `IpAlloc.Search` | pkg/ipalloc/allocator.go:62-95 | a found candidate is a 4-byte address |
| `IpAlloc.SearchFound` | pkg/ipalloc/allocator.go:71-80 | a found address is held by no hostname and lies in the subnet |
| `IpAlloc.SearchExhaustedMeansFull` | pkg/ipalloc/allocator.go:83-92 | "exhausted" is reported only when every address from the start to the end of the subnet is taken |
| `IpAlloc.CursorPastEnd` | pkg/ipalloc/allocator.go:83-92 | once the cursor is past the subnet, every allocation reports exhaustion, whatever was released below it |
| `IpAlloc.AddFreshKeepsInjective` | pkg/ipalloc/allocator.go:71-73 | recording an address no hostname holds keeps hostname→IP injective |
| `IpAlloc.AddKeepsInSubnet` | pkg/ipalloc/allocator.go:71-73 | recording an address inside the subnet keeps every table entry inside the subnet |
| `IpAlloc.FoundKeepsTable` | pkg/ipalloc/allocator.go:71-80 | recording the found address keeps the table injective and inside the subnet |
| `IpAlloc.ResumePastLoaded` | pkg/ipalloc/allocator.go:178-181 | after loading, the cursor is above every loaded in-subnet address |
| `IpAlloc.MaxLoadedUnique` | pkg/ipalloc/allocator.go:163-176 | the largest loaded in-subnet address is unique |
| `IpAlloc.StartAddressInSubnet` | pkg/ipalloc/allocator.go:32-35 | the corrected start is the network address + 2 and lies in the subnet (prefix ≤ 30) |
| `IpAlloc.AsWrittenStartAgrees` | pkg/ipalloc/allocator.go:33-35 | for prefixes ≤ 24, setting the last byte to 2 equals network + 2 |
| `IpAlloc.AsWrittenStartMissesSubnet` | pkg/ipalloc/allocator.go:33-35 | for 10.0.0.128/25 the as-written start lies outside the subnet and the first search reports exhaustion |
| `IpAlloc.Allocator.constructor` | pkg/ipalloc/allocator.go:25-43 | the subnet is the parsed CIDR, or 10.107.0.0/16 when it does not parse; the table is empty; the cursor is the corrected start, network + 2, not Go's network with its last byte set to 2 (see Left out and Findings) |
| `IpAlloc.Allocator.IsIPAllocated` | pkg/ipalloc/allocator.go:109-116 | true iff some hostname holds the text |
| `IpAlloc.Allocator.Walk` | pkg/ipalloc/allocator.go:56-95 | the candidate walk from the cursor ends as `Search` says |
| `IpAlloc.Allocator.Advance` | pkg/ipalloc/allocator.go:63-92 | one pass of the walk: a free in-subnet candidate is taken, a step past the subnet ends the walk as exhausted, and otherwise the walk goes on from the next address; each case as `Search` says |
| `IpAlloc.Allocator.AllocateIP` | pkg/ipalloc/allocator.go:47-96 | a known hostname gets its IP back with nothing changed; otherwise a found address is recorded and the cursor moves past it, and a failed search changes nothing. The table stays injective and in the subnet, and other entries are kept |
| `IpAlloc.Allocator.GetAllMappings` | pkg/ipalloc/allocator.go:119-128 | the copy equals the table |
| `IpAlloc.Allocator.ReleaseIP` | pkg/ipalloc/allocator.go:131-139 | only that hostname's entry goes; an unknown hostname is a no-op; the cursor stays |
| `IpAlloc.Allocator.LoadMappings` | pkg/ipalloc/allocator.go:159-182 | the table is the loaded map; the cursor is one past the largest loaded in-subnet address, or unchanged when there is none |
| `IpAlloc.LargestLoaded` | pkg/ipalloc/allocator.go:163-176 | nothing is found iff no loaded text is an in-subnet address; otherwise the result is the largest loaded in-subnet address (`MaxLoaded`) |
| `IpAlloc.Consider` | pkg/ipalloc/allocator.go:165-174 | a text that is not an in-subnet address leaves the running maximum; one that is makes the maximum at least that address; a changed maximum is that address; the maximum never decreases |
| `IpAlloc.SplitHostPort` | pkg/ipalloc/allocator.go:240 | a split is found only in a text with a colon |
| `IpAlloc.SplitPlainHostPort` | pkg/ipalloc/allocator.go:240 | `host:port` without colons or brackets splits into host and port |
| `IpAlloc.ParseHostname` | pkg/ipalloc/allocator.go:229-234 | input without `://` is exactly the invalid-format error |
| `IpAlloc.ParseHostnameDefaultPort` | pkg/ipalloc/allocator.go:240-249 | for a host with no `host:port` split (no colon, or several as in `a:b:c`), https gives 443, http gives 80, and any other scheme is an error |
| `IpAlloc.ParseHostnameExplicitPort` | pkg/ipalloc/allocator.go:240-255 | with an explicit decimal port, the host and that port come back |
| `Text.IndexOf` | pkg/ipalloc/allocator.go:231 | finds the first occurrence, exactly when there is one |
| `Text.LastIndexOf` | pkg/ipalloc/allocator.go:240 | finds the last occurrence of the character, exactly when there is one |
| `Text.Fields` | pkg/hosts/manager.go:182 | every field is a non-empty run without white space |
| `Text.FieldsOfPair` | pkg/hosts/manager.go:182-184 | two tokens around one space character give exactly those two fields |
| `Text.DecimalRoundTrip` | pkg/ipalloc/allocator.go:252-253 | reading the decimal text of n gives n |
| `Text.ScanDecimal` | pkg/ipalloc/allocator.go:252-253 | Sscanf("%d") of a decimal text gives the number |
| `Text.ScanIntNewline` | pkg/ipalloc/allocator.go:253 | a newline in the white space before the number fails Sscanf("%d"), so the port stays 0 |
| `Hosts.RemoveNgrokdSection` | pkg/hosts/manager.go:79-98 | the loop's result is `Strip` of the lines |
| `Hosts.StripConcat` | pkg/hosts/manager.go:83-95 | stripping distributes over concatenation, carrying the in-section flag |
| `Hosts.StripMarkerFree` | pkg/hosts/manager.go:83-95 | marker-free lines are kept outside a section and dropped inside one |
| `Hosts.StripRemovesMarkers` | pkg/hosts/manager.go:84-91 | no marker line survives |
| `Hosts.StripIdentity` | pkg/hosts/manager.go:79-98 | stripping is the identity on input without marker lines |
| `Hosts.StripIdempotent` | pkg/hosts/manager.go:79-98 | stripping twice equals stripping once |
| `Hosts.StripSection` | pkg/hosts/manager.go:79-98 | a section between markers goes, and the lines before and after are kept in order |
| `Hosts.AddNgrokdSection` | pkg/hosts/manager.go:100-120 | the result is `AddSection`: the input when the mappings are empty; otherwise the input, a blank line only if the last line is non-empty, the start marker, one `ip\thostname` line per mapping, and the end marker |
| `Hosts.UpdateHosts` | pkg/hosts/manager.go:48-52 | the result is `AddSection` of `Strip` of the lines |
| `Hosts.RemoveAll` | pkg/hosts/manager.go:193-195 | the result is the stripped lines |
| `Hosts.EntryNotMarker` | pkg/hosts/manager.go:115 | an entry line of two tokens contains neither marker |
| `Hosts.StripAdded` | pkg/hosts/manager.go:100-120 | stripping an added section gives back the input plus its separator |
| `Hosts.StripUpdated` | pkg/hosts/manager.go:48-52 | stripping an updated file gives the old stripped lines plus the separator |
| `Hosts.UpdateIdempotent` | pkg/hosts/manager.go:48-52 | updating twice with the same mappings equals updating once, whatever the entry order |
| `Hosts.GetCurrentMappings` | pkg/hosts/manager.go:170-187 | the parsing loop's map is `Parse` of the lines |
| `Hosts.ScanConcat` | pkg/hosts/manager.go:173-187 | scanning distributes over concatenation |
| `Hosts.ScanStopped` | pkg/hosts/manager.go:178-180 | nothing is read after the end marker |
| `Hosts.ParseUpdate` | pkg/hosts/manager.go:170-187 | parsing an updated file gives exactly the mappings written, for hostnames and IPs without white space |
| `Hosts.ParseStopsAtEnd` | pkg/hosts/manager.go:178-180 | lines after the first end marker are ignored |
| `Hosts.ParseSkipsLine` | pkg/hosts/manager.go:181-183 | `#` lines, blank lines and lines with fewer than two fields are ignored |
| `Hosts.ParseSkipsOutside` | pkg/hosts/manager.go:173-181 | marker-free lines before the section are ignored |
| `Hosts.ParseLaterEntryWins` | pkg/hosts/manager.go:184 | a later entry for the same hostname replaces an earlier one |
| `Hosts.BuildMapEnumeration` | pkg/hosts/manager.go:114-116 | entries written in any enumeration of the map read back as the map |
| `Config.WithDefaultsFills` | pkg/config/config.go:117-160 | after the defaults, every endpoint has a port, a local address and an enabled flag, and so on for every field |
| `Config.EnabledDefault` | pkg/config/config.go:139-142 | an absent enabled flag becomes true, and a present one is kept |
| `Config.WithDefaultsKeepsSet` | pkg/config/config.go:117-160 | field by field: API key, certificate, key and ingress are never touched; description, region, cert dir, each endpoint's port, local address and enabled flag, the health port and address and the log level and format are kept whenever already set; endpoint names, URIs and local ports, health enabled and verbose are never touched |
| `Config.WithDefaultsFixed` | pkg/config/config.go:117-160 | a configuration already defaulted, with a cert dir, is a fixed point of setDefaults |
| `Config.WithDefaultsIdempotent` | pkg/config/config.go:117-160 | applying the defaults twice equals applying them once |
| `Config.FirstEndpointError` | pkg/config/config.go:178-191 | no error iff every endpoint passes; otherwise the first failing endpoint, its index, name and problem |
| `Config.CheckAccepts` | pkg/config/config.go:163-205 | Validate accepts iff the region, level and format are in their sets, there is an endpoint, and every endpoint has a name, a uri and ports in 1..65535 |
| `Config.EnabledOfMembers` | pkg/config/config.go:208-216 | the result holds exactly the endpoints whose flag is set and true |
| `Config.EnabledOfConcat` | pkg/config/config.go:208-216 | the filter distributes over concatenation, so the original order is kept |
| `Config.EnabledOfAll` | pkg/config/config.go:208-216 | when all endpoints are enabled, all are returned |
| `Config.MergedFields` | pkg/config/config.go:219-247 | each of the seven string flags (api-key, cert, key, cert-dir, description, region, ingress) changes its field only when present as non-empty text, and then the field takes that text; `v` can set verbose but never clears it; endpoints, health and the log level and format are unchanged |
| `Config.MergedNoFlags` | pkg/config/config.go:219-247 | no flags, no change |
| `Config.MergedIdempotent` | pkg/config/config.go:219-247 | merging the same flags twice equals merging once |
| `Config.Config.SetDefaults` | pkg/config/config.go:117-160 | the new state is `WithDefaults` of the old one |
| `Config.Config.constructor` | pkg/config/config.go:100-103 | the state is the decoded file contents |
| `Config.Config.Validate` | pkg/config/config.go:163-205 | the error is `Check` of the state, the first failure in check order |
| `Config.Config.GetEnabledEndpoints` | pkg/config/config.go:208-216 | the result is `EnabledOf` of the endpoints |
| `Config.Config.MergeWithFlags` | pkg/config/config.go:219-247 | the new state is `Merged` of the old one |
| `Config.LoadFromFile` | pkg/config/config.go:94-114 | it succeeds iff the defaulted settings validate, with those settings; otherwise it returns the validation error |
| `DaemonConfiguration.WithDefaultsFills` | pkg/config/daemon_config.go:67-104 | after the defaults, the poll interval and start port are non-zero, the listen interface is set, there is a selector, and so on for every field |
| `DaemonConfiguration.WithDefaultsKeepsSet` | pkg/config/daemon_config.go:67-104 | each of the twelve defaulted fields (API URL, ingress, log level, socket path, client cert and key, poll interval, selectors, interface name, subnet, listen interface, start port) keeps its value when already set; the API key and the overrides are never touched |
| `DaemonConfiguration.WithDefaultsFixed` | pkg/config/daemon_config.go:67-104 | a configuration with every field set is a fixed point |
| `DaemonConfiguration.WithDefaultsIdempotent` | pkg/config/daemon_config.go:67-104 | applying the defaults twice equals applying them once |
| `DaemonConfiguration.NegativePollIntervalSurvives` | pkg/config/daemon_config.go:86-88 | only a zero poll interval is replaced; a negative one survives |
| `DaemonConfiguration.DaemonConfig.SetDefaults` | pkg/config/daemon_config.go:67-104 | the new state is `WithDefaults` of the old one |
| `DaemonConfiguration.DaemonConfig.constructor` | pkg/config/daemon_config.go:54-57 | the state is the decoded file contents |
| `DaemonConfiguration.LoadDaemonConfig` | pkg/config/daemon_config.go:49-64 | the loaded configuration is the decoded one with defaults applied, and nothing else |
| `Daemon.ValidateConfig` | pkg/daemon/daemon.go:462-496 | no error iff the poll interval is > 0, the listen interface and every override are "virtual", "0.0.0.0" or an address, and the start port is in 1..65535. Each error is reported exactly when its check fails and every earlier check passes (poll interval, listen interface, overrides, start port, in that order), and an override error names an invalid override |
| `Daemon.CheckOverrides` | pkg/daemon/daemon.go:481-488 | no error iff every override is "virtual", "0.0.0.0" or an address; an error names a hostname in the map together with its invalid interface |
| `Daemon.DefaultsAccepted` | pkg/daemon/daemon.go:462-496 | the default poll interval, listen interface and start port pass validation |
| `Daemon.LoadedButRejected` | pkg/daemon/daemon.go:463-466 | a negative poll interval loads but fails validation |
| `Daemon.NoChangeNoRebind` | pkg/daemon/daemon.go:425-428 | with unchanged overrides and default, no endpoint needs rebinding |
| `Daemon.OverrideShieldsFromDefault` | pkg/daemon/daemon.go:498-503 | a hostname with the same override before and after keeps its interface, whatever the default does |
| `Daemon.DefaultChangeRebinds` | pkg/daemon/daemon.go:498-503 | a hostname without an override changes interface iff the default changes |
| `Daemon.OverrideIsLocal` | pkg/daemon/daemon.go:498-503 | setting a hostname's override gives that hostname the override and changes no other hostname |
| `Daemon.AssignPortKeeps` | pkg/daemon/daemon.go:714-724 | the hostname ends up with the port returned; other hostnames keep theirs; all ports stay below the cursor and stay distinct |
| `Daemon.AssignPortReuses` | pkg/daemon/daemon.go:714-717 | a hostname with a port reuses it and nothing changes |
| `Daemon.AssignPortFresh` | pkg/daemon/daemon.go:718-723 | two new hostnames get `nextPort` and `nextPort + 1` |
| `Daemon.DesiredOfIds` | pkg/daemon/daemon.go:270-273 | the desired map holds exactly the listed IDs, each under its own ID |
| `Daemon.DesiredOfLast` | pkg/daemon/daemon.go:270-273 | an ID maps to its last occurrence in the list |
| `Daemon.BuildDesired` | pkg/daemon/daemon.go:270-273 | the loop builds `DesiredOf` of the list |
| `Daemon.ReleasedAsWrittenDropsShared` | pkg/daemon/daemon.go:810-811 | as written, removing one of two endpoints on one hostname drops the hostname while the other is still tracked |
| `Daemon.ReleasedKeepsTracked` | pkg/daemon/daemon.go:795-818 | the corrected release keeps every remaining endpoint's IP allocated |
| `Daemon.ReleasedAgrees` | pkg/daemon/daemon.go:810-811 | the corrected and as-written releases agree unless the hostname is shared |
| `Daemon.Daemon.constructor` | pkg/daemon/daemon.go:59-83 | the configuration has defaults applied, nothing is tracked, and the port cursor is the start port |
| `Daemon.Daemon.LoadNetworkPortMappings` | pkg/daemon/daemon.go:555-563 | the table is the loaded map; `nextPort` is max(StartPort-1, largest loaded port) + 1, so it is ≥ StartPort and above every loaded port |
| `Daemon.Daemon.NetworkPortFor` | pkg/daemon/daemon.go:714-724 | the port, table and cursor are `AssignPort` of the old ones |
| `Daemon.Daemon.ResolvedInterface` | pkg/daemon/daemon.go:657-699 | a settled interface is a mode name or an address that exists on the machine, and it is what resolving the override-or-default gives |
| `Daemon.Daemon.ResolveListenInterface` | pkg/daemon/daemon.go:657-699 | the steps give `ResolvedInterface` |
| `Daemon.Daemon.ChooseListen` | pkg/daemon/daemon.go:701-725 | virtual mode listens on the hostname's IP and the endpoint's port with network port 0; network mode listens on the interface and the hostname's network port. Existing ports are kept, stay below the cursor and stay distinct |
| `Daemon.Daemon.StartAndTrack` | pkg/daemon/daemon.go:701-786 | for an already-tracked ID the tracked entries stay the same (a network port may still be assigned, as in Go, since the port is chosen before StartListener refuses the name). Otherwise either the entries stay the same, or exactly that ID is added with its hostname, allocated IP, port, URL and interface, and its listener is bound: a virtual one on the endpoint's IP and port, a network one on the interface and the hostname's port. The invariant is kept; ports and listeners are only added, and ports stay distinct |
| `Daemon.Daemon.Track` | pkg/daemon/daemon.go:773-786 | the health table gains (or replaces) the active entry for the ID at its IP and port with its URL, and the endpoint is tracked under its ID; nothing else in the daemon changes |
| `Daemon.Daemon.BindAllocated` | pkg/daemon/daemon.go:657-786 | once the hostname holds its IP: for an already-tracked ID the tracked entries stay the same; otherwise at most that ID becomes tracked, as `AddedAs` describes, and other entries, ports and listeners are kept |
| `Daemon.Daemon.AddEndpoint` | pkg/daemon/daemon.go:628-793 | at most the endpoint's ID becomes tracked, and other entries are kept. A new entry carries the URL's host and port, the hostname's allocated IP, the interface chosen for it and its listener. Ports are only added, stay distinct and stay below `nextPort` |
| `Daemon.Daemon.RemoveEndpointAsWritten` | pkg/daemon/daemon.go:795-818 | an unknown ID is a no-op; otherwise exactly that ID goes, its listener stops and its hostname is released |
| `Daemon.Daemon.RemoveEndpoint` | pkg/daemon/daemon.go:795-818 | as above, but the hostname is released only when no other tracked endpoint uses it, keeping the invariant |
| `Daemon.Daemon.RemoveUndesired` | pkg/daemon/daemon.go:279-284 | the tracked IDs become those also desired, untouched |
| `Daemon.Daemon.AddMissing` | pkg/daemon/daemon.go:286-291 | tracked entries are kept; new ones are desired IDs with the desired URL |
| `Daemon.Daemon.Reconcile` | pkg/daemon/daemon.go:256-291 | afterwards every tracked ID is listed by the API (the last listing of an ID wins); IDs tracked before and still listed are untouched; a newly tracked endpoint has the URL the API lists for it |
| `Daemon.Daemon.SelectRebind` | pkg/daemon/daemon.go:435-447 | exactly the tracked endpoints whose override-or-default interface differs, each once |
| `Daemon.Daemon.UntrackForRebind` | pkg/daemon/daemon.go:509-531 | exactly the listed IDs are untracked and their listeners stopped; every endpoint to re-create was tracked and keeps its URL |
| `Daemon.Daemon.UntrackOne` | pkg/daemon/daemon.go:511-528 | a tracked ID loses its entry and listener and is handed back with its URL; an untracked ID changes nothing |
| `Daemon.Daemon.RebindEndpoints` | pkg/daemon/daemon.go:505-538 | endpoints not listed are untouched; every listed endpoint that is tracked again is bound as addEndpoint binds a new one (`AddedAs`) under the current settings, with its old URL |
| `Daemon.Daemon.Readd` | pkg/daemon/daemon.go:533-537 | one re-add keeps every tracked entry and keeps every listed endpoint re-added so far bound as `AddedAs` describes |
| `Daemon.Daemon.ReloadConfig` | pkg/daemon/daemon.go:388-460 | a config that fails validation changes nothing: settings, tracked endpoints, IP table, listeners, port table, port cursor and health table stay as they were. Otherwise the poll interval, overrides, default interface and start port are taken over; the rebound list is exactly the tracked endpoints whose interface changed; every other endpoint is untouched; and each listed endpoint that is tracked again is bound as addEndpoint binds a new one (`AddedAs`) under the new settings, with its old URL |
| `Health.ServerAddressShape` | pkg/health/server.go:55-63 | port 0 becomes 8081, and an empty address gives ":port" |
| `Health.Server.constructor` | pkg/health/server.go:55-86 | the address is `ServerAddress`; the table is empty and not ready |
| `Health.Server.SetReady` | pkg/health/server.go:108-112 | ready is set; the table is unchanged |
| `Health.Server.RegisterEndpoint` | pkg/health/server.go:115-125 | the entry is created or replaced, active with all counters zero |
| `Health.Server.UnregisterEndpoint` | pkg/health/server.go:128-133 | only that name goes |
| `Health.Server.RecordConnection` | pkg/health/server.go:136-145 | a known name gets +1 open and +1 total; an unknown name is a no-op |
| `Health.Server.RecordConnectionClose` | pkg/health/server.go:148-155 | only the open count drops; the total is kept |
| `Health.Server.RecordError` | pkg/health/server.go:158-165 | only the error count rises |
| `Health.Server.HealthyFlag` | pkg/health/server.go:172-179 | the loop finds whether some entry is active |
| `Health.Server.HandleHealth` | pkg/health/server.go:168-188 | 200 "healthy" iff some endpoint is registered, else 503 "unhealthy" |
| `Health.Server.HandleReady` | pkg/health/server.go:191-203 | 200 "ready" iff ready, else 503 "not ready" |
| `Health.Server.CurrentStatus` | pkg/health/server.go:206-224 | the entries and the ready flag are copied; with every entry active, healthy is exactly "some entry is active", as handleHealth decides |
| `Health.HealthyIffRegistered` | pkg/health/server.go:173-179 | since every entry is active, "some entry is active" equals `len(endpoints) > 0` |
| `Listener.ListenAddressSplits` | pkg/listener/manager.go:64-68 | the listen address is the IP (127.0.0.1 when empty), a colon and the local port, and it splits back into both |
| `Listener.Manager.StartListener` | pkg/listener/manager.go:54-94 | a registered name is refused with nothing changed; a failed listen changes nothing; on success exactly the new name is added |
| `Listener.Manager.StopListener` | pkg/listener/manager.go:97-115 | an unknown name is an error; otherwise only that name goes |
| `Listener.Manager.ListActiveEndpoints` | pkg/listener/manager.go:174-185 | exactly the registered names, each once |
| `Listener.Manager.constructor` | pkg/listener/manager.go:37-44 | the registry starts empty |
| `Listener.Manager.Close` | pkg/listener/manager.go:187-200 | the registry is empty afterwards |
| `Socket.QueriesSucceed` | pkg/socket/server.go:137-141 | "status" and "list" succeed with the controller's answers |
| `Socket.SetApiKeyOutcome` | pkg/socket/server.go:143-151 | without an argument the command fails with "API key required"; with one, it succeeds iff SetAPIKey reports no error, and otherwise carries the error text |
| `Socket.UnknownCommand` | pkg/socket/server.go:153-154 | any other command fails with "unknown command: " and its name |
| `Socket.ExecuteCommand` | pkg/socket/server.go:135-156 | SetAPIKey is called iff the command is "set-api-key" with arguments, and only with the first; a response carries data iff it succeeds, and a successful one has no error |

## Left out

- **File I/O, YAML and JSON:** reading and writing files, decoding YAML and JSON, and the temp-file-and-rename writes are outside the model. The decoded values and line lists are inputs.
- **OS and network operations:** the network interface (`pkg/netif`), `net.Listen`, `resolveInterfaceToIP` and `ipExistsOnMachine` are parameters: `Listener`'s `canListen` and `Daemon.Host`. Adding and removing addresses on the interface is not modelled. `pkg/daemon/interface_resolver.go` is not part of this model.
- **Goroutines and concurrency:** goroutines, tickers, fsnotify, the accept loops, forwarding, the mutexes and the unlocking in reloadConfig are left out. Every operation is treated as atomic.
- **The ngrok API, registration, certificates and the CLI:** the API client, registration, certificates and `SetAPIKey` are left out. `GetStatus` and `ListEndpoints` are abstracted as the socket `Controller`, and the CLI is left out.
- **Time:** uptime, start time and `LastActivity` are left out.
- **IPv6:** `net.ParseIP` is modelled for dotted-quad IPv4 only. An IPv6 literal is rejected, although Go accepts it in `validateConfig` and in a listen interface.
- IpAddr.ParseCIDR: an IPv6 CIDR is rejected, although Go's `net.ParseCIDR` accepts it.
- IpAlloc.Allocator.constructor: an IPv6 subnet falls back to 10.107.0.0/16 here, where Go keeps the IPv6 subnet. The cursor starts at the corrected start address, network + 2, not at Go's network address with its last byte set to 2. The two differ for prefixes /25 to /30, where Go's first `AllocateIP` reports exhaustion (see Findings).
- IpAlloc.Allocator.LoadMappings: an entry written as an IPv4-mapped IPv6 address (`::ffff:a.b.c.d`) is ignored when finding the largest loaded address, although Go's `To4` counts it.
- **`ip.String()` and `ipnet.Contains`:** `ip.String()` is modelled as the dotted decimal text, and `ipnet.Contains` as membership in the aligned address range.
- **The home directory:** `HOME` and `filepath.Join` in `Config.setDefaults` become the `defaultCertDir` parameter.
- **Daemon.Daemon.AddEndpoint:**
  - It uses `AllocateIP`, because the `AllocateIPForPort` that daemon.go calls does not exist in allocator.go.
  - Failures of adding the address to the interface are logged and do not stop the sequence, so they are not modelled.
- **Health.EndpointStatus:** the counters are unbounded integers, not int64. The `*EndpointStatus` entries of the Go map become values replaced in the map.
- **Daemon.Daemon.ReloadConfig:**
  - Go compares the `%v` texts of the old and new override maps; the model compares the maps themselves. `%v` prints keys in sorted order but without quoting, so the two differ when an override's hostname or interface contains `:` or a space. For example, `{x: virtual, y: virtual}` and `{"x:virtual y": virtual}` both print `map[x:virtual y:virtual]`. Both pass validateConfig. With the default interface unchanged at 0.0.0.0, Go then rebinds nothing, while the model rebinds x and y.
  - Loading failures (unreadable or unparsable files) are left out with the file I/O.
- **Daemon.Daemon.Reconcile:**
  - Writing `/etc/hosts` and saving the IP and port mappings after reconciling are not modelled here. The hosts transform and its round trip are in `Hosts`.
  - It uses the corrected `RemoveEndpoint` (see Findings).
- **Daemon.Daemon.constructor:** it receives the allocator, listener manager and health server that `Start` creates. The operator ID read from disk is left out.
- **The macOS subnet:** `Start` switches to 127.0.0.0/8 on macOS; this is left out.

## Findings

| source | as written | input that shows it | evidently intended | confidence | as-written member | corrected member |
|---|---|---|---|---|---|---|
| pkg/ipalloc/allocator.go:33-35 | the start address is the network address with its last byte set to 2 | subnet `10.0.0.128/25`: the start 10.0.0.2 lies below the block, so the first AllocateIP reports "exhausted IP range" with the subnet empty | start two past the network address (the comment says skip network and gateway) | high, not executed | `IpAlloc.AsWrittenStartMissesSubnet` | `IpAlloc.StartAddressInSubnet` |
| pkg/daemon/daemon.go:810-811 | removeEndpoint releases the hostname's IP whether or not another tracked endpoint uses the same hostname | endpoints `ep1` = tcp://db.internal:5432 and `ep2` = tcp://db.internal:6379 share 10.107.0.2; removing `ep1` drops `db.internal` from the table, and so from `/etc/hosts`, while `ep2` still listens on that IP | release a hostname only when no tracked endpoint still uses it (addEndpoint already reuses one IP per hostname across ports) | medium, not executed | `Daemon.ReleasedAsWrittenDropsShared` | `Daemon.ReleasedKeepsTracked` |
