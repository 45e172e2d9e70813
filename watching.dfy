/** The event watcher: the set of watched network ids, and the decision taken
    for each container lifecycle event (register or deregister the container's
    name with the DNS registrar when its domain is the managed one). */
module Watching {
  import opened Wrappers

  /** The managed DNS domain. */
  const WeaveDomain := "weave.local"

  /** What inspecting a container yields: its configured host and domain
      names and its address on the default network. */
  datatype ContainerInfo = ContainerInfo(hostname: string, domainname: string, ipAddress: string)

  /** A runtime event: its status ("start", "die", ...) and the container id. */
  datatype Event = Event(status: string, id: string)

  /** A call to the name registrar. */
  datatype Action =
    | Register(id: string, fqdn: string, ip: string)
    | Deregister(id: string, ip: string)

  /** `strings.HasSuffix`: the last |suffix| characters of s are those of
      suffix, one by one. */
  predicate HasSuffix(s: string, suffix: string)
    ensures HasSuffix(s, suffix) <==>
      |suffix| <= |s| && forall k :: 0 <= k < |suffix| ==> s[|s| - |suffix| + k] == suffix[k]
  {
    |suffix| <= |s| && s[|s| - |suffix|..] == suffix
  }

  /** `isSubdomain`: x is y, or a (direct or indirect) subdomain of y; the
      parent's name is then a suffix of every name inside it. */
  predicate IsSubdomain(x: string, y: string)
    ensures IsSubdomain(x, y) ==> |x| >= |y| && x[|x| - |y|..] == y
  {
    x == y || HasSuffix(x, "." + y)
  }

  /** Every domain is inside itself. */
  lemma IsSubdomainReflexive(x: string)
    ensures IsSubdomain(x, x)
  {
  }

  /** An independent reading of the predicate: x is y, or x is longer than y
      and ends with a dot immediately followed by y. */
  lemma IsSubdomainIff(x: string, y: string)
    ensures IsSubdomain(x, y) <==>
      x == y || (|x| > |y| && x[|x| - |y| - 1] == '.' && x[|x| - |y|..] == y)
  {
  }

  /** A subdomain of a subdomain of y is a subdomain of y. */
  lemma IsSubdomainTransitive(x: string, y: string, z: string)
    requires IsSubdomain(x, y) && IsSubdomain(y, z)
    ensures IsSubdomain(x, z)
  {
  }

  /** Sample cases of the predicate. */
  lemma IsSubdomainExamples()
    ensures IsSubdomain("weave.local", "weave.local")
    ensures IsSubdomain("foo.weave.local", "weave.local")
    ensures !IsSubdomain("notweave.local", "weave.local")
    ensures !IsSubdomain("weave.local2", "weave.local")
  {
    IsSubdomainIff("notweave.local", "weave.local");
    assert "notweave.local"[2] == 't';
  }

  /** A container is one of ours when its domain is the managed one or
      inside it. */
  predicate InManagedDomain(info: ContainerInfo)
    ensures InManagedDomain(info) ==>
      |info.domainname| >= |WeaveDomain| &&
      info.domainname[|info.domainname| - |WeaveDomain|..] == WeaveDomain
  {
    IsSubdomain(info.domainname, WeaveDomain)
  }

  /** The name registered for a container: `<hostname>.<domainname>`. */
  function Fqdn(info: ContainerInfo): (name: string)
    ensures IsSubdomain(name, info.domainname)
  {
    var name := info.hostname + "." + info.domainname;
    assert name[|name| - |info.domainname| - 1..] == "." + info.domainname;
    name
  }

  /** `ContainerStart`, given the outcome of inspecting the container: at most
      one registration, issued exactly when inspection succeeded and the
      container is in the managed domain. */
  function ContainerStart(id: string, inspected: Option<ContainerInfo>): (acts: seq<Action>)
    ensures |acts| <= 1
    ensures acts != [] <==> inspected.Some? && InManagedDomain(inspected.value)
    ensures acts != [] ==>
      acts[0] == Register(id, Fqdn(inspected.value), inspected.value.ipAddress)
  {
    match inspected
    case None => []
    case Some(info) =>
      if InManagedDomain(info) then [Register(id, Fqdn(info), info.ipAddress)] else []
  }

  /** `ContainerDied`: at most one deregistration, under the same conditions
      as a registration. */
  function ContainerDied(id: string, inspected: Option<ContainerInfo>): (acts: seq<Action>)
    ensures |acts| <= 1
    ensures acts != [] <==> inspected.Some? && InManagedDomain(inspected.value)
    ensures acts != [] ==> acts[0] == Deregister(id, inspected.value.ipAddress)
  {
    match inspected
    case None => []
    case Some(info) =>
      if InManagedDomain(info) then [Deregister(id, info.ipAddress)] else []
  }

  /** Every name the watcher registers lies inside the managed domain. */
  lemma RegisteredNamesInManagedDomain(id: string, inspected: Option<ContainerInfo>)
    ensures forall a :: a in ContainerStart(id, inspected) ==>
      a.Register? && IsSubdomain(a.fqdn, WeaveDomain)
  {
  }

  /** With the same inspection result, a "die" event deregisters exactly the
      container and address that its "start" event registered. */
  lemma StartAndDiedAgree(id: string, inspected: Option<ContainerInfo>)
    ensures |ContainerStart(id, inspected)| == |ContainerDied(id, inspected)|
    ensures forall k :: 0 <= k < |ContainerStart(id, inspected)| ==>
      ContainerDied(id, inspected)[k].id == ContainerStart(id, inspected)[k].id &&
      ContainerDied(id, inspected)[k].ip == ContainerStart(id, inspected)[k].ip
  {
  }

  /** The body of the event loop: dispatch on the event's status. */
  function HandleEvent(e: Event, inspected: Option<ContainerInfo>): (acts: seq<Action>)
    ensures |acts| <= 1
    ensures forall a :: a in acts ==> a.id == e.id
    ensures forall a :: a in acts ==> (a.Register? <==> e.status == "start")
    ensures forall a :: a in acts ==> (a.Deregister? <==> e.status == "die")
    ensures e.status == "start" ==> acts == ContainerStart(e.id, inspected)
    ensures e.status == "die" ==> acts == ContainerDied(e.id, inspected)
  {
    if e.status == "start" then ContainerStart(e.id, inspected)
    else if e.status == "die" then ContainerDied(e.id, inspected)
    else []
  }

  /** The registrar calls made for a sequence of events, handled one at a time
      in arrival order; `inspections[k]` is what inspecting the container of
      `events[k]` returns when that event is handled. */
  function ProcessEvents(events: seq<Event>, inspections: seq<Option<ContainerInfo>>): (acts: seq<Action>)
    requires |inspections| == |events|
    ensures |acts| <= |events|
    decreases |events|
  {
    if events == [] then []
    else
      var n := |events| - 1;
      ProcessEvents(events[..n], inspections[..n]) + HandleEvent(events[n], inspections[n])
  }

  /** Processing is compositional: the calls for two batches of events are the
      calls for the first batch followed by those for the second. */
  lemma {:induction false} ProcessEventsAppend(
    e1: seq<Event>, i1: seq<Option<ContainerInfo>>,
    e2: seq<Event>, i2: seq<Option<ContainerInfo>>)
    requires |i1| == |e1| && |i2| == |e2|
    ensures ProcessEvents(e1 + e2, i1 + i2) == ProcessEvents(e1, i1) + ProcessEvents(e2, i2)
    decreases |e2|
  {
    if e2 == [] {
      assert e1 + e2 == e1 && i1 + i2 == i1;
    } else {
      var n := |e2| - 1;
      var e, i := e1 + e2, i1 + i2;
      assert e[..|e| - 1] == e1 + e2[..n];
      assert i[..|i| - 1] == i1 + i2[..n];
      assert e[|e| - 1] == e2[n] && i[|i| - 1] == i2[n];
      calc {
        ProcessEvents(e, i);
        ProcessEvents(e1 + e2[..n], i1 + i2[..n]) + HandleEvent(e2[n], i2[n]);
        { ProcessEventsAppend(e1, i1, e2[..n], i2[..n]); }
        ProcessEvents(e1, i1) + ProcessEvents(e2[..n], i2[..n]) + HandleEvent(e2[n], i2[n]);
        ProcessEvents(e1, i1) + ProcessEvents(e2, i2);
      }
    }
  }

  /** Every registrar call answers an event for the same container with the
      matching status: a registration a "start", a deregistration a "die". */
  lemma {:induction false} ActionsAnswerEvents(events: seq<Event>, inspections: seq<Option<ContainerInfo>>)
    requires |inspections| == |events|
    ensures forall a :: a in ProcessEvents(events, inspections) ==>
      exists k :: 0 <= k < |events| && events[k].id == a.id &&
        events[k].status == (if a.Register? then "start" else "die")
    decreases |events|
  {
    if events != [] {
      var n := |events| - 1;
      ActionsAnswerEvents(events[..n], inspections[..n]);
      forall a | a in ProcessEvents(events, inspections)
        ensures exists k :: (0 <= k < |events| && events[k].id == a.id &&
                             events[k].status == (if a.Register? then "start" else "die"))
      {
        if a in ProcessEvents(events[..n], inspections[..n]) {
          var k :| 0 <= k < n && events[..n][k].id == a.id &&
            events[..n][k].status == (if a.Register? then "start" else "die");
          assert events[k] == events[..n][k];
        } else {
          assert a in HandleEvent(events[n], inspections[n]);
        }
      }
    }
  }

  /** The watcher: the set of network ids of interest (a `map[string]bool`
      whose values are always true in the source). */
  class Watcher {
    var networks: set<string>

    constructor ()
      ensures networks == {}
    {
      networks := {};
    }

    /** `WatchNetwork`: uuid becomes a member; nothing else changes, and
        watching a watched network changes nothing. */
    method WatchNetwork(uuid: string)
      modifies this
      ensures networks == old(networks) + {uuid}
      ensures uuid in old(networks) ==> networks == old(networks)
    {
      networks := networks + {uuid};
    }

    /** `UnwatchNetwork`: uuid stops being a member; nothing else changes, and
        unwatching an unwatched network changes nothing. */
    method UnwatchNetwork(uuid: string)
      modifies this
      ensures networks == old(networks) - {uuid}
      ensures uuid !in old(networks) ==> networks == old(networks)
    {
      networks := networks - {uuid};
    }

    /** The event loop over a finite prefix of the event stream. It changes
        nothing in the watcher, and its calls do not depend on `networks`. */
    method Run(events: seq<Event>, inspections: seq<Option<ContainerInfo>>) returns (acts: seq<Action>)
      requires |inspections| == |events|
      ensures acts == ProcessEvents(events, inspections)
    {
      acts := [];
      var i := 0;
      while i < |events|
        invariant 0 <= i <= |events|
        invariant acts == ProcessEvents(events[..i], inspections[..i])
      {
        acts := acts + HandleEvent(events[i], inspections[i]);
        i := i + 1;
        assert events[..i][..i - 1] == events[..i - 1];
        assert inspections[..i][..i - 1] == inspections[..i - 1];
      }
      assert events[..i] == events && inspections[..i] == inspections;
    }
  }
}
