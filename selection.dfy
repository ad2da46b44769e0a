/** The selection rules of the scenario base classes: which address
    get_server_ip returns, which (port, IPv4 address) pair
    _get_server_port_id_and_ip4 picks, and how _node_state_timeout decides
    that a bare-metal node reached a target state. The server record, the
    port listing, the IPv4 test and the node as seen at each poll are
    inputs. */
module Selection {
  import opened Errors

  /* ---------------- get_server_ip ---------------- */

  /** One entry of server['addresses'][network]. */
  datatype Address = Address(version: int, addr: string)

  /** get_server_ip. With connect_method "floating" the answer is the
      address of the floating IP created for the server (`floatingIp`,
      which carries that call's failure). With "fixed" it is the first
      address of the configured network whose IP version is the configured
      one, ServerUnreachable when there is none, and a KeyError when the
      server has no address on that network. Any other method is an
      invalid configuration. */
  method GetServerIp(connectMethod: string, addresses: map<string, seq<Address>>, networkForSsh: string,
                     ipVersionForSsh: int, floatingIp: Result<string>)
    returns (r: Result<string>)
    ensures connectMethod == "floating" ==> r == floatingIp
    ensures connectMethod != "floating" && connectMethod != "fixed" ==> r == Err(InvalidConfiguration)
    ensures connectMethod == "fixed" && networkForSsh !in addresses ==> r == Err(KeyError(networkForSsh))
    ensures connectMethod == "fixed" && networkForSsh in addresses ==>
              var addrs := addresses[networkForSsh];
              (r.Ok? <==> exists i :: 0 <= i < |addrs| && addrs[i].version == ipVersionForSsh) &&
              (r.Err? ==> r.error == ServerUnreachable) &&
              (r.Ok? ==> exists i :: 0 <= i < |addrs| && addrs[i].version == ipVersionForSsh && r.value == addrs[i].addr &&
                                     forall j :: 0 <= j < i ==> addrs[j].version != ipVersionForSsh)
  {
    if connectMethod == "floating" {
      return floatingIp;
    } else if connectMethod == "fixed" {
      if networkForSsh !in addresses {
        return Err(KeyError(networkForSsh));
      }
      var addrs := addresses[networkForSsh];
      var i := 0;
      while i < |addrs|
        invariant 0 <= i <= |addrs|
        invariant forall j :: 0 <= j < i ==> addrs[j].version != ipVersionForSsh
      {
        if addrs[i].version == ipVersionForSsh {
          return Ok(addrs[i].addr);
        }
        i := i + 1;
      }
      return Err(ServerUnreachable);
    } else {
      return Err(InvalidConfiguration);
    }
  }

  /* ---------------- _get_server_port_id_and_ip4 ---------------- */

  datatype Port = Port(id: string, status: string, fixedIps: seq<string>)

  /** The (port id, address) pairs of one port that the selection keeps. */
  function PortPairs(p: Port, isIpv4: string -> bool, ips: seq<string>): (r: seq<(string, string)>)
    ensures forall i :: 0 <= i < |r| ==> r[i].0 == p.id && isIpv4(r[i].1) && p.status == "ACTIVE"
  {
    if ips == [] then []
    else (if isIpv4(ips[0]) && p.status == "ACTIVE" then [(p.id, ips[0])] else []) + PortPairs(p, isIpv4, ips[1..])
  }

  /** port_map: for each port, for each of its fixed IPs, the pair
      (port id, IP) when the IP is IPv4 and the port is ACTIVE. */
  function PortMap(ports: seq<Port>, isIpv4: string -> bool): (r: seq<(string, string)>)
    ensures forall i :: 0 <= i < |r| ==> isIpv4(r[i].1)
  {
    if ports == [] then [] else PortPairs(ports[0], isIpv4, ports[0].fixedIps) + PortMap(ports[1..], isIpv4)
  }

  /** A pair the selection is looking for: an ACTIVE port and one of its
      IPv4 fixed addresses. */
  predicate ActiveIpv4Pair(ports: seq<Port>, isIpv4: string -> bool, pair: (string, string)) {
    exists p :: p in ports && p.status == "ACTIVE" && p.id == pair.0 && pair.1 in p.fixedIps && isIpv4(pair.1)
  }

  lemma {:induction false} PortPairsMembership(p: Port, isIpv4: string -> bool, ips: seq<string>, pair: (string, string))
    ensures pair in PortPairs(p, isIpv4, ips) <==> p.status == "ACTIVE" && p.id == pair.0 && pair.1 in ips && isIpv4(pair.1)
  {
    if ips != [] {
      PortPairsMembership(p, isIpv4, ips[1..], pair);
      assert pair.1 in ips <==> pair.1 == ips[0] || pair.1 in ips[1..];
    }
  }

  /** The port map holds exactly the ACTIVE IPv4 pairs of the listed ports. */
  lemma {:induction false} PortMapMembership(ports: seq<Port>, isIpv4: string -> bool, pair: (string, string))
    ensures pair in PortMap(ports, isIpv4) <==> ActiveIpv4Pair(ports, isIpv4, pair)
  {
    if ports != [] {
      PortMapMembership(ports[1..], isIpv4, pair);
      PortPairsMembership(ports[0], isIpv4, ports[0].fixedIps, pair);
      if ActiveIpv4Pair(ports, isIpv4, pair) {
        var p :| p in ports && p.status == "ACTIVE" && p.id == pair.0 && pair.1 in p.fixedIps && isIpv4(pair.1);
        if p != ports[0] {
          assert p in ports[1..];
        }
      }
      if ActiveIpv4Pair(ports[1..], isIpv4, pair) {
        var p :| p in ports[1..] && p.status == "ACTIVE" && p.id == pair.0 && pair.1 in p.fixedIps && isIpv4(pair.1);
        assert p in ports;
      }
    }
  }

  /** _get_server_port_id_and_ip4: the single pair of the port map; an
      assertion failure when it is empty or holds more than one pair. */
  function PortIdAndIp4(ports: seq<Port>, isIpv4: string -> bool): (r: Result<(string, string)>)
    ensures r.Ok? <==> |PortMap(ports, isIpv4)| == 1
    ensures r.Ok? ==> r.value == PortMap(ports, isIpv4)[0]
  {
    var portMap := PortMap(ports, isIpv4);
    if |portMap| == 0 then Err(AssertionFailed("No IPv4 addresses found"))
    else if |portMap| != 1 then Err(AssertionFailed("Found multiple IPv4 addresses"))
    else Ok(portMap[0])
  }

  /** When the selection succeeds, the pair it returns is an ACTIVE IPv4
      pair and every ACTIVE IPv4 pair of the ports is that one; when there
      is no such pair at all, it fails. */
  lemma PortIdAndIp4Correct(ports: seq<Port>, isIpv4: string -> bool)
    ensures PortIdAndIp4(ports, isIpv4).Ok? ==>
              ActiveIpv4Pair(ports, isIpv4, PortIdAndIp4(ports, isIpv4).value) &&
              forall q :: ActiveIpv4Pair(ports, isIpv4, q) ==> q == PortIdAndIp4(ports, isIpv4).value
    ensures (forall q :: !ActiveIpv4Pair(ports, isIpv4, q)) ==> PortIdAndIp4(ports, isIpv4).Err?
  {
    var m := PortMap(ports, isIpv4);
    if |m| == 1 {
      PortMapMembership(ports, isIpv4, m[0]);
      forall q | ActiveIpv4Pair(ports, isIpv4, q) ensures q == m[0] {
        PortMapMembership(ports, isIpv4, q);
      }
    }
    if |m| > 0 {
      PortMapMembership(ports, isIpv4, m[0]);
    }
  }

  /* ---------------- _node_state_timeout ---------------- */

  /** target_states as given: one state, or a list of states. A state is a
      string, or None (NOSTATE). */
  datatype TargetStates = OneState(state: Option<string>) | StateList(states: seq<Option<string>>)

  /** A single target is turned into a one-element list. */
  function Normalise(t: TargetStates): seq<Option<string>> {
    match t
    case OneState(s) => [s]
    case StateList(ss) => ss
  }

  /** node.get(state_attr): None when the node has no such attribute. */
  function NodeGet(node: map<string, Option<string>>, attr: string): Option<string> {
    if attr in node then node[attr] else None
  }

  /** A poll that shows the node in one of the target states. */
  predicate Reached(poll: Result<map<string, Option<string>>>, stateAttr: string, targets: seq<Option<string>>) {
    poll.Ok? && NodeGet(poll.value, stateAttr) in targets
  }

  /** _node_state_timeout with call_until_true as a bounded number of polls:
      `polls` is what get_node answers at each poll the timeout allows, the
      node or the error the call raised. The wait ends at the first poll
      showing a target state, and an error raised by get_node ends it too,
      with that error; when every poll shows another state, it raises a
      timeout naming the node, the attribute and the target list. `checks`
      is the number of polls made. */
  method NodeStateTimeout(nodeId: string, stateAttr: string, targetStates: TargetStates,
                          polls: seq<Result<map<string, Option<string>>>>)
    returns (r: Outcome, checks: nat)
    ensures checks <= |polls|
    ensures forall k :: 0 <= k < checks - 1 ==> polls[k].Ok? && !Reached(polls[k], stateAttr, Normalise(targetStates))
    ensures r.Pass? <==> exists k :: 0 <= k < |polls| && Reached(polls[k], stateAttr, Normalise(targetStates)) &&
                                     forall j :: 0 <= j < k ==> polls[j].Ok?
    ensures r.Pass? ==> 0 < checks && Reached(polls[checks - 1], stateAttr, Normalise(targetStates))
    ensures r.Fail? && checks < |polls| ==> 0 < checks && polls[checks - 1].Err? && r.error == polls[checks - 1].error
    ensures r.Fail? && checks == |polls| ==>
              (0 < checks && polls[checks - 1].Err? && r.error == polls[checks - 1].error) ||
              (r.error == NodeTimeout(nodeId, stateAttr, Normalise(targetStates)) &&
               forall k :: 0 <= k < |polls| ==> polls[k].Ok? && !Reached(polls[k], stateAttr, Normalise(targetStates)))
  {
    var targets := Normalise(targetStates);
    checks := 0;
    while checks < |polls|
      invariant 0 <= checks <= |polls|
      invariant forall k :: 0 <= k < checks ==> polls[k].Ok? && !Reached(polls[k], stateAttr, targets)
    {
      var poll := polls[checks];
      checks := checks + 1;
      if poll.Err? {
        return Fail(poll.error), checks;
      }
      if NodeGet(poll.value, stateAttr) in targets {
        return Pass, checks;
      }
    }
    r := Fail(NodeTimeout(nodeId, stateAttr, targets));
  }
}
