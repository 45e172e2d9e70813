# Weave network plugin: driver protocol and event watcher

A model of the core of the Weave network plugin for Docker's remote network
driver protocol (package `plugin/driver`):

- the **driver** (`driver.go`): the single managed network id (`""` for
  none), the configured nameserver, and the protocol handlers
  CreateNetwork, DeleteNetwork, CreateEndpoint, DeleteEndpoint, Join and
  Leave, with the derivation of device-pair names from an endpoint id
  (`vethPair`) and of a MAC address from a leased IP (`makeMac`);
- the **watcher** (`watcher.go`): the set of watched network ids, the
  event loop's dispatch on `"start"` / `"die"`, and the decision to
  register or deregister a container with the DNS registrar when its
  domain is `weave.local` or a subdomain of it (`isSubdomain`).

Files and modules:

- `wrappers.dfy` (`Wrappers`): `Option`, used for outcomes that can fail.
- `net.dfy` (`Net`): bytes, Go's `IP.To4` and `HardwareAddr.String`, which
  `makeMac` relies on.
- `watching.dfy` (`Watching`): the subdomain predicate, the per-event
  decisions as functions of the inspection outcome, the processing of an
  event sequence, and the `Watcher` class holding the watched set.
- `protocol.dfy` (`Protocol`): responses, external calls, device-pair
  naming, MAC derivation, the Join response, and the network state machine
  (`CreateNetworkStep`, `DeleteNetworkStep`, `Replay`) with its invariant:
  apart from the empty id, the watched set holds exactly the current
  network.
- `plugin.dfy` (`Plugin`): the `Driver` class, whose handlers are methods
  proved against the `Protocol` functions, and `MakeMac`, which fills a
  6-byte array in place.

External calls are outcome parameters: the allocator's lease
(`Option<Lease>`), the release result, the netlink add / bridge lookup /
set-master / set-up / delete results, the outcome of `net.ParseIP`, and the
result of inspecting a container (`Option<ContainerInfo>`, one per event).
Each endpoint handler returns its response together with the list of
external calls it made, in order, so "no allocator call on an unknown
network" and "the pair is never deleted after a failed Join" are stated on
that list.

On the empty network id the code behaves as follows: deleting network id
`""` while no network exists takes the success path (the id equals the
empty network id) and unwatches `""`; a create with the empty id succeeds
but leaves the driver with no network, so a later create succeeds too.
`Protocol.FirstCreateWins` therefore assumes a non-empty first id, and the
invariant `Protocol.Inv` disregards the empty id in the watched set.

`net.ParseIP` never accepts the empty string, so `SetNameserver` is
only asked to store an address that parses when that address is non-empty.

## Model

| member | source | states |
|---|---|---|
| `Net.To4` | plugin/driver/driver.go:333 | the IPv4 view exists exactly for 4-byte addresses and IPv4-mapped 16-byte ones, and is their last four bytes |
| `Net.HexDigit` | plugin/driver/driver.go:334 | nibble n renders as the n-th character of "0123456789abcdef" |
| `Net.HexByte` | plugin/driver/driver.go:334 | each byte renders as two characters |
| `Net.HexByteInjective` | plugin/driver/driver.go:334 | distinct bytes render differently |
| `Net.FormatHardwareAddr` | plugin/driver/driver.go:334 | n bytes render as 3n-1 characters; characters 3k and 3k+1 are the two hexadecimal digits of byte k, and character 3k+2 is a colon between consecutive groups; no bytes render as "" |
| `Net.FormatHardwareAddrInjective` | plugin/driver/driver.go:334 | the rendering is injective on byte strings of equal length |
| `Protocol.VethPair` | plugin/driver/driver.go:322-327 | both ends carry the suffix after a 6-character prefix, and the two names differ |
| `Protocol.EndpointVeth` | plugin/driver/driver.go:258 | the pair derived from an endpoint id has 11-character names |
| `Protocol.EndpointVethIff` | plugin/driver/driver.go:312 | two endpoint ids get the same pair if and only if their first five characters agree, so Join and Leave agree and nothing else matters |
| `Protocol.MacBytes` | plugin/driver/driver.go:329-333 | six bytes: 7a, 42, then the IPv4 octets, or four zeros when the IP has no IPv4 form |
| `Protocol.MacString` | plugin/driver/driver.go:329-335 | the MAC text is 17 characters: the six bytes of `MacBytes`, each as two hexadecimal digits, separated by colons |
| `Protocol.MacStringPrefix` | plugin/driver/driver.go:331-334 | the MAC text starts with "7a:42:" |
| `Protocol.MacStringInjective` | plugin/driver/driver.go:329-335 | distinct IPv4 addresses give distinct MACs |
| `Protocol.MacStringMappedForm` | plugin/driver/driver.go:333 | the 4-byte and IPv4-mapped 16-byte forms of an address give the same MAC |
| `Protocol.MacStringNonIPv4` | plugin/driver/driver.go:333 | every address without an IPv4 form gets 7a:42:00:00:00:00 |
| `Protocol.MacStringExample` | plugin/driver/driver.go:329-335 | 10.0.0.1 gives 7a:42:0a:00:00:01 |
| `Protocol.JoinResponse` | plugin/driver/driver.go:283-298 | the peer name as SrcName, DstPrefix "ethwe", and one connected route to nameserver/32 with no next hop if and only if a nameserver is set |
| `Protocol.Inv` | plugin/driver/driver.go:157-180 | apart from the empty id, the watched set is exactly the current network (empty when there is none): at most one non-empty id is watched, the network is among them, and nothing else is |
| `Protocol.CreateNetworkStep` | plugin/driver/driver.go:157-164 | fails, naming the existing network and changing nothing, exactly when a network exists; otherwise the id becomes the network and is watched; keeps the invariant |
| `Protocol.DeleteNetworkStep` | plugin/driver/driver.go:175-180 | fails with "Network <id> not found", changing nothing, unless the id is the current network; otherwise clears the network and unwatches the id; keeps the invariant |
| `Protocol.Step` | plugin/driver/driver.go:148-183 | every create or delete either succeeds with an empty answer or fails with an error payload and leaves the state unchanged; keeps the invariant |
| `Protocol.Replay` | plugin/driver/driver.go:148-183 | one response per request handled in sequence |
| `Protocol.ReplayKeepsInv` | plugin/driver/driver.go:157-180 | after any sequence of create/delete requests the watched set still mirrors the network, so at most one non-empty id is watched |
| `Protocol.ReachableStatesValid` | plugin/driver/driver.go:148-183 | every state reached from a new driver by create and delete requests satisfies the invariant |
| `Protocol.NetworkPersistsUntilDeleted` | plugin/driver/driver.go:157-160 | once a network exists, every request other than deleting it fails and leaves the state unchanged |
| `Protocol.CreatesFail` | plugin/driver/driver.go:157-160 | while a network exists, every create answers the "already made" error naming it |
| `Protocol.FirstCreateWins` | plugin/driver/driver.go:157-164 | of a run of creates from no network, the first succeeds and records its id, every later one fails naming it |
| `Protocol.CreateDeleteRoundTrip` | plugin/driver/driver.go:162-180 | deleting a freshly created network restores the exact previous state |
| `Plugin.MakeMac` | plugin/driver/driver.go:329-335 | filling the buffer in place yields exactly `MacString(ip)` |
| `Plugin.Driver.constructor` | plugin/driver/driver.go:39-56 | starts in `Protocol.Initial`: no network, no nameserver and a fresh watcher watching nothing |
| `Plugin.Driver.SetNameserver` | plugin/driver/driver.go:59-65 | an unparseable address is rejected with its message and the nameserver kept; otherwise it is stored, and a nameserver is then set |
| `Plugin.Driver.CreateNetwork` | plugin/driver/driver.go:148-166 | new network id and watched set are those of `CreateNetworkStep`, and the invariant is kept |
| `Plugin.Driver.DeleteNetwork` | plugin/driver/driver.go:168-183 | new network id and watched set are those of `DeleteNetworkStep`, and the invariant is kept |
| `Plugin.Driver.CreateEndpoint` | plugin/driver/driver.go:185-220 | unknown network: "No such network" and no external call; allocator failure: HTTP 500; otherwise the lease's address and `MacString` of its IP |
| `Plugin.Driver.DeleteEndpoint` | plugin/driver/driver.go:222-234 | always an empty answer, whatever the release outcome; the lease of that endpoint is released |
| `Plugin.Driver.JoinEndpoint` | plugin/driver/driver.go:247-302 | the pair of `EndpointVeth` is created first; failures are reported in order (create, bridge missing, not a bridge, attach/up); a missing or wrong bridge stops after the lookup; the link is never brought up unless attached; the pair is never deleted; success returns `JoinResponse` of the peer name and the nameserver |
| `Plugin.Driver.LeaveEndpoint` | plugin/driver/driver.go:304-318 | deletes the pair of `EndpointVeth` (the one Join created) and always answers empty |
| `Watching.HasSuffix` | plugin/driver/watcher.go:100 | s ends with suffix if and only if suffix is no longer than s and its characters are the last ones of s, position by position |
| `Watching.IsSubdomain` | plugin/driver/watcher.go:99-101 | a subdomain is at least as long as its parent and ends with it |
| `Watching.IsSubdomainReflexive` | plugin/driver/watcher.go:99-101 | every domain is a subdomain of itself |
| `Watching.IsSubdomainIff` | plugin/driver/watcher.go:99-101 | x is a subdomain of y if and only if x equals y or x is longer and ends with a dot immediately followed by y |
| `Watching.IsSubdomainTransitive` | plugin/driver/watcher.go:97-101 | a subdomain of a subdomain of y is a subdomain of y |
| `Watching.IsSubdomainExamples` | plugin/driver/watcher.go:99-101 | weave.local and foo.weave.local are inside weave.local; notweave.local and weave.local2 are not |
| `Watching.InManagedDomain` | plugin/driver/watcher.go:72 | a container taken as one of ours has a domain name ending in weave.local |
| `Watching.Fqdn` | plugin/driver/watcher.go:75 | the registered name `<hostname>.<domainname>` is a subdomain of the container's domain |
| `Watching.ContainerStart` | plugin/driver/watcher.go:64-80 | at most one call; a registration of the id, fqdn and address exactly when inspection succeeded and the domain is weave.local or inside it |
| `Watching.ContainerDied` | plugin/driver/watcher.go:82-95 | at most one call; a deregistration of the id and address under the same conditions |
| `Watching.RegisteredNamesInManagedDomain` | plugin/driver/watcher.go:72-76 | every registered name lies inside weave.local |
| `Watching.StartAndDiedAgree` | plugin/driver/watcher.go:64-95 | with the same inspection, "die" deregisters exactly the id and address that "start" registered |
| `Watching.HandleEvent` | plugin/driver/watcher.go:41-48 | at most one call, for the event's container; registrations only for "start", deregistrations only for "die", nothing for other statuses |
| `Watching.ProcessEvents` | plugin/driver/watcher.go:40-49 | no more registrar calls than events |
| `Watching.ProcessEventsAppend` | plugin/driver/watcher.go:41-48 | events are handled one at a time in arrival order: the calls for a concatenation are the concatenation of the calls |
| `Watching.ActionsAnswerEvents` | plugin/driver/watcher.go:41-48 | every call answers an event for the same container with status "start" (register) or "die" (deregister) |
| `Watching.Watcher.constructor` | plugin/driver/watcher.go:27-34 | the watched set starts empty |
| `Watching.Watcher.WatchNetwork` | plugin/driver/watcher.go:54-57 | adds the id and nothing else; idempotent |
| `Watching.Watcher.UnwatchNetwork` | plugin/driver/watcher.go:59-62 | removes the id and nothing else; no-op when absent |
| `Watching.Watcher.Run` | plugin/driver/watcher.go:40-49 | the loop issues exactly `ProcessEvents` of the events, reads nothing of the watched set and changes nothing |

## Left out

- HTTP serving and routing (`Listen`, `notFound`, `sendError`), JSON decoding failures (answered with status 400) and response-encoding failures: transport plumbing with no decision logic.
- `status`, `handshake`, `getCapabilities` and `infoEndpoint`: constant answers with no state.
- `New` and `NewWatcher`'s connection to the Docker daemon and event subscription: foreign client code; the constructors model only the initial state.
- The watcher's goroutine and channel: `Watching.Watcher.Run` handles a finite sequence of events sequentially. The event goroutine never reads or writes the watched set (`ContainerStart` and `ContainerDied` do not consult it), so it does not race with the protocol handlers.
- Concurrent protocol requests: `http.Serve` runs each connection in its own goroutine, and `createNetwork` / `deleteNetwork` read and write the network id and the watched set without a lock, so two concurrent creates can both see no network, both succeed, and leave two non-empty ids watched. The model handles one request at a time; `Protocol.Inv`, `Protocol.Step`, `Protocol.Replay`, `Protocol.ReplayKeepsInv`, `Protocol.ReachableStatesValid`, `Protocol.NetworkPersistsUntilDeleted`, `Protocol.CreatesFail`, `Protocol.FirstCreateWins`, `Protocol.CreateDeleteRoundTrip` and the `Plugin.Driver` network methods hold only under that serialisation.
- `InspectContainer`, `allocateIP`, `releaseIP`, `registerWithDNS` and `deregisterWithDNS` live in a file that is not part of this model; their results are parameters, and a failed registration (only logged) is not modelled.
- The netlink calls (`LinkAdd`, `LinkByName`, `LinkSetMaster`, `LinkSetUp`, `LinkDel`) are kernel operations; their results are parameters.
- `net.ParseIP` is the boolean parameter `parses` of `SetNameserver`; IP literal syntax is not modelled.
- `IPNet.String` is not modelled: a lease carries its own text form, which CreateEndpoint returns as the address.
- Plugin.Driver.JoinEndpoint: requires an endpoint id of at least five characters; for a shorter id the source's slice panics and the connection is dropped, which is not modelled.
- Plugin.Driver.LeaveEndpoint: requires an endpoint id of at least five characters, for the same reason.
- Protocol.EndpointVeth: strings are modelled as sequences of characters, while Go's `endID[:5]` slices bytes; the two agree only for ASCII endpoint ids (Docker's ids are 64 hexadecimal digits), and a non-ASCII id is not modelled.
- Logging (`Log`, `Debug`, `Warning`) is not modelled.
