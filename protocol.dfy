/** The value-level part of the remote network-driver protocol: responses,
    the external calls a handler makes, device-pair naming, MAC derivation,
    the Join response, and the single-network state machine that the
    driver's network handlers follow. */
module Protocol {
  import opened Wrappers
  import opened Net

  /** The well-known bridge that joined endpoints are attached to. */
  const WeaveBridge := "weave"

  /** The prefix of the interface name inside the container. */
  const DstPrefix := "ethwe"

  /** Route kinds of the protocol: via a next hop, or directly connected. */
  datatype RouteType = NextHop | Connected

  datatype StaticRoute = StaticRoute(destination: string, routeType: RouteType, nextHop: string)

  /** What a handler writes back. `ErrPayload` is an `{"Err": msg}` body with a
      success status; `HttpError` is a transport-level error status. */
  datatype Response =
    | Empty
    | ErrPayload(msg: string)
    | HttpError(code: int, msg: string)
    | EndpointResp(address: string, macAddress: string)
    | JoinResp(srcName: string, dstPrefix: string, staticRoutes: seq<StaticRoute>)

  /** An address lease from the allocator: the address, and its text form
      (`IPNet.String`) as reported to the runtime. */
  datatype Lease = Lease(ip: IP, text: string)

  /** A virtual interface pair: the host-side name and the peer (container
      side) name. */
  datatype Veth = Veth(name: string, peerName: string)

  /** What looking up the bridge device by name yields. */
  datatype LinkLookup = LinkMissing | NotABridge | FoundBridge

  /** An external call made by a handler, in the order made. */
  datatype Call =
    | AllocateIP(endpointID: string)
    | ReleaseIP(endpointID: string)
    | LinkAdd(veth: Veth)
    | LinkByName(device: string)
    | LinkSetMaster(veth: Veth, bridge: string)
    | LinkSetUp(veth: Veth)
    | LinkDel(veth: Veth)

  // ---- device-pair naming

  /** `vethPair`: both ends named from the same suffix, host side
      "vethwl", peer side "vethwg". */
  function VethPair(suffix: string): (v: Veth)
    ensures |v.name| == |v.peerName| == 6 + |suffix|
    ensures v.name[6..] == suffix && v.peerName[6..] == suffix
    ensures v.name != v.peerName
  {
    var v := Veth("vethwl" + suffix, "vethwg" + suffix);
    assert v.name[5] != v.peerName[5];
    v
  }

  /** The pair both Join and Leave derive from an endpoint id: `vethPair`
      of its first five characters. */
  function EndpointVeth(endpointID: string): (v: Veth)
    requires |endpointID| >= 5
    ensures |v.name| == 11 && |v.peerName| == 11
  {
    VethPair(endpointID[..5])
  }

  /** Two endpoint ids get the same pair exactly when their first five
      characters agree: the name depends on nothing else, and different
      prefixes never collide. */
  lemma EndpointVethIff(a: string, b: string)
    requires |a| >= 5 && |b| >= 5
    ensures EndpointVeth(a) == EndpointVeth(b) <==> a[..5] == b[..5]
  {
  }

  // ---- MAC derivation

  /** The six bytes of the hardware address derived from an IP: 7a:42 and
      then the IPv4 octets, or four zero bytes when the IP has no IPv4 form
      (`copy` from a nil slice copies nothing). */
  function MacBytes(ip: IP): (hw: seq<byte>)
    ensures |hw| == 6 && hw[0] == 0x7a && hw[1] == 0x42
    ensures To4(ip).Some? ==> hw[2..] == To4(ip).value
    ensures To4(ip).None? ==> hw[2..] == [0, 0, 0, 0]
  {
    [0x7a, 0x42] + To4(ip).GetOr([0, 0, 0, 0])
  }

  /** The text of that hardware address. */
  function MacString(ip: IP): (mac: string)
    ensures |mac| == 17
    ensures forall k :: 0 <= k < 6 ==> mac[3 * k..3 * k + 2] == HexByte(MacBytes(ip)[k])
    ensures forall k :: 0 <= k < 5 ==> mac[3 * k + 2] == ':'
  {
    FormatHardwareAddr(MacBytes(ip))
  }

  /** The MAC is six two-digit groups, starting with "7a:42". */
  lemma MacStringPrefix(ip: IP)
    ensures MacString(ip)[..6] == "7a:42:"
  {
  }

  /** Distinct IPv4 addresses give distinct MACs. */
  lemma MacStringInjective(ip1: IP, ip2: IP)
    requires To4(ip1).Some? && To4(ip2).Some?
    requires To4(ip1) != To4(ip2)
    ensures MacString(ip1) != MacString(ip2)
  {
    if MacString(ip1) == MacString(ip2) {
      FormatHardwareAddrInjective(MacBytes(ip1), MacBytes(ip2));
      assert false;
    }
  }

  /** An IPv4 address gives the same MAC whether it is held in 4 bytes or as
      an IPv4-mapped 16-byte address. */
  lemma MacStringMappedForm(octets: seq<byte>)
    requires |octets| == 4
    ensures MacString(V4InV6Prefix + octets) == MacString(octets)
  {
  }

  /** Every address without an IPv4 form gets the same MAC. */
  lemma MacStringNonIPv4(ip: IP)
    requires To4(ip).None?
    ensures MacString(ip) == "7a:42:00:00:00:00"
  {
    assert MacBytes(ip) == [0x7a, 0x42, 0, 0, 0, 0];
    assert FormatHardwareAddr([0x7a, 0x42, 0, 0, 0, 0]) == "7a:42:00:00:00:00";
  }

  /** 10.0.0.1 gives 7a:42:0a:00:00:01. */
  lemma MacStringExample()
    ensures MacString([10, 0, 0, 1]) == "7a:42:0a:00:00:01"
  {
  }

  // ---- Join response

  /** The successful Join answer: the peer end as the interface to move into
      the container, named with prefix "ethwe", and exactly one static route
      (to the nameserver, directly connected, no next hop) when a nameserver
      is configured, none otherwise. */
  function JoinResponse(peerName: string, nameserver: string): (r: Response)
    ensures r.JoinResp? && r.srcName == peerName && r.dstPrefix == DstPrefix
    ensures |r.staticRoutes| <= 1
    ensures |r.staticRoutes| == 1 <==> nameserver != ""
    ensures forall rt :: rt in r.staticRoutes ==>
      rt.destination == nameserver + "/32" && rt.routeType == Connected && rt.nextHop == ""
  {
    var routes := if nameserver != "" then [StaticRoute(nameserver + "/32", Connected, "")] else [];
    JoinResp(peerName, DstPrefix, routes)
  }

  // ---- error texts

  function AlreadyProvisioned(network: string): string {
    "You get just one network, and you already made " + network
  }

  function NetworkNotFound(networkID: string): string {
    "Network " + networkID + " not found"
  }

  function NoSuchNetwork(networkID: string): string {
    "No such network " + networkID
  }

  function CannotParseIP(address: string): string {
    "cannot parse IP address \"" + address + "\""
  }

  // ---- the single-network state machine

  /** The driver's network id ("" for none) and the watcher's watched set. */
  datatype State = State(network: string, watched: set<string>)

  /** The state of a new driver: no network, nothing watched. */
  const Initial := State("", {})

  /** The watched set mirrors the managed network: apart from the empty id,
      it holds exactly the current network, or nothing when there is none. */
  predicate Inv(s: State)
    ensures Inv(s) ==> |s.watched - {""}| <= 1
    ensures Inv(s) && s.network != "" ==> s.network in s.watched
    ensures Inv(s) ==> forall id :: id in s.watched && id != "" ==> id == s.network
  {
    assert forall id :: id in s.watched && id != "" ==> id in s.watched - {""};
    s.watched - {""} == (if s.network == "" then {} else {s.network})
  }

  /** `createNetwork`: rejected, naming the existing network and changing
      nothing, exactly when a network exists; otherwise the id becomes the
      network and is watched. Keeps the invariant. */
  function CreateNetworkStep(s: State, networkID: string): (r: (State, Response))
    ensures r.1 == Empty <==> s.network == ""
    ensures s.network != "" ==> r.0 == s && r.1 == ErrPayload(AlreadyProvisioned(s.network))
    ensures s.network == "" ==> r.0.network == networkID && r.0.watched == s.watched + {networkID}
    ensures Inv(s) ==> Inv(r.0)
  {
    if s.network != "" then (s, ErrPayload(AlreadyProvisioned(s.network)))
    else (State(networkID, s.watched + {networkID}), Empty)
  }

  /** `deleteNetwork`: rejected, naming the requested id and changing
      nothing, unless the id is the current network (the empty id matches
      when there is none); otherwise the network is cleared and the id
      unwatched. Keeps the invariant. */
  function DeleteNetworkStep(s: State, networkID: string): (r: (State, Response))
    ensures r.1 == Empty <==> networkID == s.network
    ensures networkID != s.network ==> r.0 == s && r.1 == ErrPayload(NetworkNotFound(networkID))
    ensures networkID == s.network ==> r.0.network == "" && r.0.watched == s.watched - {networkID}
    ensures Inv(s) ==> Inv(r.0)
  {
    if networkID != s.network then (s, ErrPayload(NetworkNotFound(networkID)))
    else (State("", s.watched - {networkID}), Empty)
  }

  /** A network-lifecycle request of the protocol. */
  datatype NetworkRequest = CreateRequest(networkID: string) | DeleteRequest(networkID: string)

  /** One request: every request either succeeds with an empty answer or
      fails with an error payload and changes nothing. Keeps the invariant. */
  function Step(s: State, req: NetworkRequest): (r: (State, Response))
    ensures r.1 == Empty || (r.1.ErrPayload? && r.0 == s)
    ensures Inv(s) ==> Inv(r.0)
  {
    match req
    case CreateRequest(id) => CreateNetworkStep(s, id)
    case DeleteRequest(id) => DeleteNetworkStep(s, id)
  }

  /** A sequence of requests handled one after another: the final state and
      one response per request. */
  function Replay(s: State, reqs: seq<NetworkRequest>): (r: (State, seq<Response>))
    ensures |r.1| == |reqs|
    decreases |reqs|
  {
    if reqs == [] then (s, [])
    else
      var first := Step(s, reqs[0]);
      var rest := Replay(first.0, reqs[1..]);
      (rest.0, [first.1] + rest.1)
  }

  /** The invariant holds after any sequence of requests; in particular at
      most one non-empty network id is ever watched. */
  lemma {:induction false} ReplayKeepsInv(s: State, reqs: seq<NetworkRequest>)
    requires Inv(s)
    ensures Inv(Replay(s, reqs).0)
    ensures |Replay(s, reqs).0.watched - {""}| <= 1
    decreases |reqs|
  {
    if reqs != [] {
      var t := Step(s, reqs[0]).0;
      ReplayKeepsInv(t, reqs[1..]);
    }
  }

  /** Every state a driver reaches from its initial state by create and
      delete requests satisfies the invariant. */
  lemma ReachableStatesValid(reqs: seq<NetworkRequest>)
    ensures Inv(Replay(Initial, reqs).0)
  {
    ReplayKeepsInv(Initial, reqs);
  }

  /** Once a network exists, every request other than deleting that very
      network fails and changes nothing: a second create always fails. */
  lemma {:induction false} NetworkPersistsUntilDeleted(s: State, reqs: seq<NetworkRequest>)
    requires s.network != ""
    requires forall k :: 0 <= k < |reqs| ==> reqs[k] != DeleteRequest(s.network)
    ensures Replay(s, reqs).0 == s
    ensures forall k :: 0 <= k < |reqs| ==> Replay(s, reqs).1[k].ErrPayload?
    decreases |reqs|
  {
    if reqs != [] {
      assert reqs[0] != DeleteRequest(s.network);
      NetworkPersistsUntilDeleted(s, reqs[1..]);
      assert Replay(s, reqs).1 == [Step(s, reqs[0]).1] + Replay(s, reqs[1..]).1;
    }
  }

  /** From no network, of any run of creates only the first succeeds, and it
      names the network (when its id is not empty). */
  lemma FirstCreateWins(s: State, reqs: seq<NetworkRequest>)
    requires s.network == "" && reqs != [] && reqs[0].networkID != ""
    requires forall k :: 0 <= k < |reqs| ==> reqs[k].CreateRequest?
    ensures Replay(s, reqs).0.network == reqs[0].networkID
    ensures Replay(s, reqs).1[0] == Empty
    ensures forall k :: 1 <= k < |reqs| ==>
      Replay(s, reqs).1[k] == ErrPayload(AlreadyProvisioned(reqs[0].networkID))
  {
    var t := Step(s, reqs[0]).0;
    NetworkPersistsUntilDeleted(t, reqs[1..]);
    CreatesFail(t, reqs[1..]);
  }

  /** With a network in place, creates fail with the message naming it. */
  lemma {:induction false} CreatesFail(s: State, reqs: seq<NetworkRequest>)
    requires s.network != ""
    requires forall k :: 0 <= k < |reqs| ==> reqs[k].CreateRequest?
    ensures forall k :: 0 <= k < |reqs| ==> Replay(s, reqs).1[k] == ErrPayload(AlreadyProvisioned(s.network))
    decreases |reqs|
  {
    if reqs != [] {
      CreatesFail(s, reqs[1..]);
    }
  }

  /** Deleting a freshly created network restores the state exactly. */
  lemma CreateDeleteRoundTrip(s: State, networkID: string)
    requires Inv(s) && s.network == "" && networkID != ""
    ensures Replay(s, [CreateRequest(networkID), DeleteRequest(networkID)]) == (s, [Empty, Empty])
  {
    assert networkID !in s.watched - {""};
    var reqs := [CreateRequest(networkID), DeleteRequest(networkID)];
    var tail := reqs[1..];
    var t := State(networkID, s.watched + {networkID});
    assert s.watched + {networkID} - {networkID} == s.watched;
    assert Step(s, reqs[0]) == (t, Empty);
    assert Step(t, tail[0]) == (s, Empty);
    assert Replay(s, tail[1..]) == (s, []);
    assert Replay(t, tail).1 == [Empty];
    assert Replay(s, reqs).1 == [Empty, Empty];
  }
}
