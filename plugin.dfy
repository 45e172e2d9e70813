/** The driver: the one mutable network id, the configured nameserver, the
    watcher it owns, and one method per protocol handler. The outcomes of the
    external calls a handler makes (address allocation and release, the
    netlink device operations) are parameters; each handler returns its
    response and the external calls it made, in order. */
module Plugin {
  import opened Wrappers
  import opened Net
  import opened Watching
  import opened Protocol

  /** `makeMac`: fills a 6-byte buffer with 7a, 42 and the IPv4 octets of
      the address, then renders it. */
  method MakeMac(ip: IP) returns (mac: string)
    ensures mac == MacString(ip)
  {
    var hw := new byte[6](_ => 0);
    hw[0] := 0x7a;
    hw[1] := 0x42;
    // copy(hw[2:], ip.To4()): as many bytes as both slices hold
    var src := To4(ip).GetOr([]);
    var n := if |src| < hw.Length - 2 then |src| else hw.Length - 2;
    var i := 0;
    while i < n
      invariant 0 <= i <= n
      invariant hw[0] == 0x7a && hw[1] == 0x42
      invariant forall k :: 0 <= k < i ==> hw[2 + k] == src[k]
      invariant forall k :: 2 + i <= k < 6 ==> hw[k] == 0
    {
      hw[2 + i] := src[i];
      i := i + 1;
    }
    assert hw[..] == MacBytes(ip);
    mac := FormatHardwareAddr(hw[..]);
  }

  class Driver {
    var network: string
    var nameserver: string
    const watcher: Watcher

    /** The network state: this driver's network id and its watcher's set. */
    ghost function State(): Protocol.State
      reads this, watcher
    {
      Protocol.State(network, watcher.networks)
    }

    ghost predicate Valid()
      reads this, watcher
    {
      Inv(State())
    }

    /** `New`: no network, no nameserver, a fresh watcher watching nothing. */
    constructor ()
      ensures Valid() && fresh(watcher) && State() == Initial
      ensures network == "" && nameserver == "" && watcher.networks == {}
    {
      network := "";
      nameserver := "";
      watcher := new Watcher();
    }

    /** `SetNameserver`: an address that does not parse (the outcome of
        `net.ParseIP` is `parses`; the empty string never parses) is rejected
        and the nameserver kept; otherwise it is stored, so a nameserver is
        then set. */
    method SetNameserver(address: string, parses: bool) returns (err: Option<string>)
      requires parses ==> address != ""
      modifies this`nameserver
      ensures !parses ==> err == Some(CannotParseIP(address)) && nameserver == old(nameserver)
      ensures parses ==> err == None && nameserver == address && nameserver != ""
    {
      if !parses {
        return Some(CannotParseIP(address));
      }
      nameserver := address;
      err := None;
    }

    /** `createNetwork`: follows `CreateNetworkStep`, so only the first create
        succeeds until that network is deleted, and the watched set keeps
        mirroring the network. */
    method CreateNetwork(networkID: string) returns (resp: Response)
      requires Valid()
      modifies this`network, watcher
      ensures Valid()
      ensures (State(), resp) == CreateNetworkStep(old(State()), networkID)
    {
      if network != "" {
        return ErrPayload(AlreadyProvisioned(network));
      }
      network := networkID;
      watcher.WatchNetwork(network);
      resp := Empty;
    }

    /** `deleteNetwork`: follows `DeleteNetworkStep`. */
    method DeleteNetwork(networkID: string) returns (resp: Response)
      requires Valid()
      modifies this`network, watcher
      ensures Valid()
      ensures (State(), resp) == DeleteNetworkStep(old(State()), networkID)
    {
      if networkID != network {
        return ErrPayload(NetworkNotFound(networkID));
      }
      network := "";
      watcher.UnwatchNetwork(networkID);
      resp := Empty;
    }

    /** `createEndpoint`: an unknown network is rejected before the allocator
        is called; an allocation failure (`lease` is None) is an internal
        error; otherwise the lease's address and the MAC derived from it. */
    method CreateEndpoint(networkID: string, endpointID: string, lease: Option<Lease>)
      returns (resp: Response, calls: seq<Call>)
      ensures networkID != network ==> resp == ErrPayload(NoSuchNetwork(networkID)) && calls == []
      ensures networkID == network ==> calls == [AllocateIP(endpointID)]
      ensures networkID == network && lease.None? ==> resp == HttpError(500, "Unable to allocate IP")
      ensures networkID == network && lease.Some? ==>
        resp == EndpointResp(lease.value.text, MacString(lease.value.ip))
    {
      if networkID != network {
        return ErrPayload(NoSuchNetwork(networkID)), [];
      }
      calls := [AllocateIP(endpointID)];
      if lease.None? {
        return HttpError(500, "Unable to allocate IP"), calls;
      }
      var mac := MakeMac(lease.value.ip);
      resp := EndpointResp(lease.value.text, mac);
    }

    /** `deleteEndpoint`: always an empty answer, whatever the release of the
        address lease (`released`) comes to. */
    method DeleteEndpoint(endpointID: string, released: bool) returns (resp: Response, calls: seq<Call>)
      ensures resp == Empty && calls == [ReleaseIP(endpointID)]
    {
      resp := Empty;
      calls := [ReleaseIP(endpointID)];
    }

    /** `joinEndpoint`: creates the pair named from the endpoint id, looks up
        the bridge, attaches the host end and brings it up, failing at the
        first step that fails; no step deletes the pair, so a failure after
        it was created leaves it in place. The network id is not checked. */
    method JoinEndpoint(networkID: string, endpointID: string,
                        added: bool, bridge: LinkLookup, mastered: bool, up: bool)
      returns (resp: Response, calls: seq<Call>)
      requires |endpointID| >= 5
      ensures calls != [] && calls[0] == LinkAdd(EndpointVeth(endpointID))
      ensures forall c :: c in calls ==> !c.LinkDel?
      ensures !added ==> resp == ErrPayload("could not create veth pair") && |calls| == 1
      ensures added ==> |calls| >= 2 && calls[1] == LinkByName(WeaveBridge)
      ensures added && bridge.LinkMissing? ==>
        resp == ErrPayload("bridge \"" + WeaveBridge + "\" not present")
      ensures added && bridge.NotABridge? ==>
        resp == ErrPayload("device \"" + WeaveBridge + "\" not a bridge")
      ensures added && bridge.FoundBridge? && !(mastered && up) ==>
        resp == ErrPayload("unable to bring veth up")
      ensures added && !bridge.FoundBridge? ==> |calls| == 2
      ensures !mastered ==> forall c :: c in calls ==> !c.LinkSetUp?
      ensures added && bridge.FoundBridge? && !mastered ==>
        calls == [LinkAdd(EndpointVeth(endpointID)), LinkByName(WeaveBridge),
                  LinkSetMaster(EndpointVeth(endpointID), WeaveBridge)]
      ensures added && bridge.FoundBridge? && mastered && !up ==>
        calls == [LinkAdd(EndpointVeth(endpointID)), LinkByName(WeaveBridge),
                  LinkSetMaster(EndpointVeth(endpointID), WeaveBridge),
                  LinkSetUp(EndpointVeth(endpointID))]
      ensures resp.JoinResp? <==> added && bridge.FoundBridge? && mastered && up
      ensures resp.JoinResp? ==>
        resp == JoinResponse(EndpointVeth(endpointID).peerName, nameserver) &&
        calls == [LinkAdd(EndpointVeth(endpointID)), LinkByName(WeaveBridge),
                  LinkSetMaster(EndpointVeth(endpointID), WeaveBridge),
                  LinkSetUp(EndpointVeth(endpointID))]
    {
      var local := VethPair(endpointID[..5]);
      calls := [LinkAdd(local)];
      if !added {
        return ErrPayload("could not create veth pair"), calls;
      }
      calls := calls + [LinkByName(WeaveBridge)];
      match bridge {
        case LinkMissing =>
          return ErrPayload("bridge \"" + WeaveBridge + "\" not present"), calls;
        case NotABridge =>
          return ErrPayload("device \"" + WeaveBridge + "\" not a bridge"), calls;
        case FoundBridge =>
      }
      // LinkSetMaster(...) != nil || LinkSetUp(...) != nil: bringing the
      // link up is tried only once it is attached
      calls := calls + [LinkSetMaster(local, WeaveBridge)];
      if !mastered {
        return ErrPayload("unable to bring veth up"), calls;
      }
      calls := calls + [LinkSetUp(local)];
      if !up {
        return ErrPayload("unable to bring veth up"), calls;
      }
      resp := JoinResponse(local.peerName, nameserver);
    }

    /** `leaveEndpoint`: deletes the pair Join created for the same endpoint
        id and always answers empty, whatever the deletion (`deleted`) comes
        to. */
    method LeaveEndpoint(networkID: string, endpointID: string, deleted: bool)
      returns (resp: Response, calls: seq<Call>)
      requires |endpointID| >= 5
      ensures resp == Empty && calls == [LinkDel(EndpointVeth(endpointID))]
    {
      var local := VethPair(endpointID[..5]);
      calls := [LinkDel(local)];
      resp := Empty;
    }
  }
}
