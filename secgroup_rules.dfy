/** NetworkScenarioTest._create_loginable_secgroup_rule: open ssh, icmp and
    ipv6-icmp in both directions on a security group. Each of the six rules
    is asked for in turn, ruleset by ruleset and ingress before egress; a
    rule the service reports as already existing is skipped, every other
    failure ends the walk. The per-rule create (_create_security_group_rule
    and the client behind it) is an input. */
module SecGroupRules {
  import opened Errors
  import opened Text

  /** The protocol part of a rule: protocol, optional port range, optional
      ethertype. */
  datatype Ruleset = Ruleset(protocol: string, portRangeMin: Option<int>, portRangeMax: Option<int>, ethertype: Option<string>)

  /** One create request: a ruleset with its direction filled in. */
  datatype RuleRequest = RuleRequest(ruleset: Ruleset, direction: string)

  /** The rule the service returns, reduced to what the loop looks at. */
  datatype Rule = Rule(id: string, direction: string)

  const ExistsMsg: string := "Security group rule already exists"

  const Rulesets: seq<Ruleset> := [
    Ruleset("tcp", Some(22), Some(22), None),     // ssh
    Ruleset("icmp", None, None, None),            // ping
    Ruleset("icmp", None, None, Some("IPv6"))     // ipv6-icmp for ping6
  ]

  const Directions: seq<string> := ["ingress", "egress"]

  /** The six requests in the order the nested loops make them. */
  function Requests(): (reqs: seq<RuleRequest>)
    ensures |reqs| == |Rulesets| * |Directions|
  {
    [RuleRequest(Rulesets[0], "ingress"), RuleRequest(Rulesets[0], "egress"),
     RuleRequest(Rulesets[1], "ingress"), RuleRequest(Rulesets[1], "egress"),
     RuleRequest(Rulesets[2], "ingress"), RuleRequest(Rulesets[2], "egress")]
  }

  /** Request 2i+j is ruleset i in direction j: ruleset-major order, ingress
      before egress. */
  lemma RequestsOrder(i: nat, j: nat)
    requires i < |Rulesets| && j < |Directions|
    ensures Requests()[i * |Directions| + j] == RuleRequest(Rulesets[i], Directions[j])
  {
  }

  lemma PrependTwice(done: seq<Rule>, x: Rule, rest: Result<seq<Rule>>)
    ensures Prepend(done, Prepend([x], rest)) == Prepend(done + [x], rest)
  {
    if rest.Ok? {
      AppendAssoc(done, [x], rest.value);
    }
  }

  /** One step of the walk, seen from the rules gathered before it. */
  lemma WalkHead(reqs: seq<RuleRequest>, create: RuleRequest -> Result<Rule>, done: seq<Rule>)
    requires reqs != []
    ensures var res := create(reqs[0]);
      Prepend(done, WalkRules(reqs, create)) ==
        if res.Ok? && res.value.direction == reqs[0].direction then Prepend(done + [res.value], WalkRules(reqs[1..], create))
        else if AlreadyExists(res) then Prepend(done, WalkRules(reqs[1..], create))
        else Err(Failure(reqs[0], res))
  {
    var res := create(reqs[0]);
    if res.Ok? && res.value.direction == reqs[0].direction {
      PrependTwice(done, res.value, WalkRules(reqs[1..], create));
    }
  }

  /** The "already exists" refusal, the one failure that is skipped. */
  predicate AlreadyExists(res: Result<Rule>) {
    res.Err? && res.error.Conflict? && Contains(res.error.msg, ExistsMsg)
  }

  /** A request the walk gets past: created with the direction asked for,
      or refused as already existing. */
  predicate Tolerated(req: RuleRequest, res: Result<Rule>) {
    (res.Ok? && res.value.direction == req.direction) || AlreadyExists(res)
  }

  /** What one request ends the walk with when it is not tolerated. */
  function Failure(req: RuleRequest, res: Result<Rule>): Error {
    if res.Ok? then AssertionFailed("direction " + req.direction + " != " + res.value.direction) else res.error
  }

  /** Rules gathered so far, followed by what the rest of the walk returns. */
  function Prepend(done: seq<Rule>, rest: Result<seq<Rule>>): Result<seq<Rule>> {
    if rest.Ok? then Ok(done + rest.value) else rest
  }

  function WalkRules(reqs: seq<RuleRequest>, create: RuleRequest -> Result<Rule>): Result<seq<Rule>> {
    if reqs == [] then Ok([])
    else
      var res := create(reqs[0]);
      if res.Ok? && res.value.direction == reqs[0].direction then Prepend([res.value], WalkRules(reqs[1..], create))
      else if AlreadyExists(res) then WalkRules(reqs[1..], create)
      else Err(Failure(reqs[0], res))
  }

  /** The created rules of the tolerated requests, in request order. */
  function Created(reqs: seq<RuleRequest>, create: RuleRequest -> Result<Rule>): (rules: seq<Rule>)
    ensures |rules| <= |reqs|
  {
    if reqs == [] then []
    else if create(reqs[0]).Ok? then [create(reqs[0]).value] + Created(reqs[1..], create)
    else Created(reqs[1..], create)
  }

  /** One ruleset in each direction, in order. */
  function Directed(ruleset: Ruleset, directions: seq<string>): (reqs: seq<RuleRequest>)
    ensures |reqs| == |directions|
    ensures forall j :: 0 <= j < |directions| ==> reqs[j] == RuleRequest(ruleset, directions[j])
  {
    if directions == [] then [] else [RuleRequest(ruleset, directions[0])] + Directed(ruleset, directions[1..])
  }

  /** The requests of the two nested loops: for each ruleset, each
      direction. */
  function Cross(rulesets: seq<Ruleset>, directions: seq<string>): seq<RuleRequest> {
    if rulesets == [] then [] else Directed(rulesets[0], directions) + Cross(rulesets[1..], directions)
  }

  lemma CrossFrom(rulesets: seq<Ruleset>, directions: seq<string>, i: nat)
    requires i < |rulesets|
    ensures Cross(rulesets[i..], directions) == Directed(rulesets[i], directions) + Cross(rulesets[i + 1..], directions)
  {
    assert rulesets[i..][1..] == rulesets[i + 1..];
  }

  /** The six literal requests are those of the nested loops over the
      three rulesets and the two directions. */
  lemma RequestsAreCross()
    ensures Requests() == Cross(Rulesets, Directions)
  {
    var d := Directions;
    assert Directed(Rulesets[0], d) == [RuleRequest(Rulesets[0], "ingress"), RuleRequest(Rulesets[0], "egress")];
    assert Directed(Rulesets[1], d) == [RuleRequest(Rulesets[1], "ingress"), RuleRequest(Rulesets[1], "egress")];
    assert Directed(Rulesets[2], d) == [RuleRequest(Rulesets[2], "ingress"), RuleRequest(Rulesets[2], "egress")];
    assert Rulesets[1..][1..] == Rulesets[2..] && Rulesets[2..][1..] == [];
    assert Cross(Rulesets[2..], d) == Directed(Rulesets[2], d);
    assert Cross(Rulesets[1..], d) == Directed(Rulesets[1], d) + Directed(Rulesets[2], d);
  }

  /** The inner loop of _create_loginable_secgroup_rule: one ruleset in
      each direction, after the rules `done` gathered so far and before the
      requests `tail` of the later rulesets. `tried` lists the requests handed
      to `create`; `failure` is what ended the walk, if anything did. */
  method CreateDirected(ruleset: Ruleset, directions: seq<string>, create: RuleRequest -> Result<Rule>,
                        done: seq<Rule>, ghost tail: seq<RuleRequest>)
    returns (rules: seq<Rule>, tried: seq<RuleRequest>, failure: Option<Error>)
    ensures Prepend(done, WalkRules(Directed(ruleset, directions) + tail, create)) ==
            if failure.Some? then Err(failure.value) else Prepend(rules, WalkRules(tail, create))
    ensures |tried| <= |directions| && tried == Directed(ruleset, directions)[..|tried|]
    ensures failure.None? ==> tried == Directed(ruleset, directions)
  {
    ghost var reqs := Directed(ruleset, directions);
    ghost var rest := reqs + tail;
    rules, tried, failure := done, [], None;
    var j := 0;
    while j < |directions|
      invariant 0 <= j <= |directions|
      invariant rest == reqs[j..] + tail && tried == reqs[..j]
      invariant Prepend(done, WalkRules(reqs + tail, create)) == Prepend(rules, WalkRules(rest, create))
    {
      var req := RuleRequest(ruleset, directions[j]);
      assert rest[0] == req;
      WalkHead(rest, create, rules);
      assert rest[1..] == reqs[j + 1..] + tail;
      assert reqs[..j + 1] == reqs[..j] + [req];
      var res := create(req);
      tried := tried + [req];
      rest := rest[1..];
      if res.Ok? && res.value.direction == req.direction {
        rules := rules + [res.value];
      } else if !AlreadyExists(res) {
        failure := Some(Failure(req, res));
        return;
      }
      j := j + 1;
    }
    assert reqs[j..] == [] && reqs[..j] == reqs;
    assert rest == tail;
  }

  /** Requests handed out so far, when a prefix of the next ruleset's
      requests has been handed out too. */
  lemma Consumed<T>(all: seq<T>, tried: seq<T>, reqs: seq<T>, more: seq<T>, tail: seq<T>)
    requires all == tried + (reqs + tail)
    requires |more| <= |reqs| && more == reqs[..|more|]
    ensures |tried + more| <= |all| && tried + more == all[..|tried + more|]
    ensures more == reqs ==> all == (tried + more) + tail
  {
    AppendAssoc(tried, reqs, tail);
    assert all[..|tried + more|] == (tried + reqs)[..|tried + more|];
  }

  /** The nested loops of _create_loginable_secgroup_rule over any rulesets
      and directions. `tried` lists the requests handed to `create`: a
      prefix of the loops' requests, all of them when the walk succeeds. */
  method CreateRules(rulesets: seq<Ruleset>, directions: seq<string>, create: RuleRequest -> Result<Rule>)
    returns (r: Result<seq<Rule>>, tried: seq<RuleRequest>)
    ensures r == WalkRules(Cross(rulesets, directions), create)
    ensures |tried| <= |Cross(rulesets, directions)| && tried == Cross(rulesets, directions)[..|tried|]
    ensures r.Ok? ==> tried == Cross(rulesets, directions)
  {
    ghost var all := Cross(rulesets, directions);
    ghost var rest := all;
    var rules: seq<Rule> := [];
    tried := [];
    assert rulesets[0..] == rulesets;
    assert WalkRules(all, create) == Prepend([], WalkRules(all, create)) by {
      if WalkRules(all, create).Ok? { assert [] + WalkRules(all, create).value == WalkRules(all, create).value; }
    }
    var i := 0;
    while i < |rulesets|
      invariant 0 <= i <= |rulesets|
      invariant rest == Cross(rulesets[i..], directions)
      invariant all == tried + rest
      invariant WalkRules(all, create) == Prepend(rules, WalkRules(rest, create))
    {
      CrossFrom(rulesets, directions, i);
      ghost var reqs := Directed(rulesets[i], directions);
      ghost var tail := Cross(rulesets[i + 1..], directions);
      var more, failure;
      rules, more, failure := CreateDirected(rulesets[i], directions, create, rules, tail);
      Consumed(all, tried, reqs, more, tail);
      tried := tried + more;
      if failure.Some? {
        r := Err(failure.value);
        return;
      }
      rest := tail;
      i := i + 1;
    }
    assert rest == [] && tried == all;
    assert rules + [] == rules;
    r := Ok(rules);
  }

  /** _create_loginable_secgroup_rule: the loops over the three rulesets and
      the two directions. */
  method CreateLoginableRules(create: RuleRequest -> Result<Rule>)
    returns (r: Result<seq<Rule>>, tried: seq<RuleRequest>)
    ensures r == WalkRules(Requests(), create)
    ensures |tried| <= 6 && tried == Requests()[..|tried|]
    ensures r.Ok? ==> tried == Requests()
  {
    RequestsAreCross();
    r, tried := CreateRules(Rulesets, Directions, create);
  }

  /** The walk succeeds exactly when every request is tolerated; it then
      returns the created rule of each request that was not skipped, in
      request order, each with the direction its request asked for. When
      it fails, the error is that of the first request not tolerated. */
  lemma {:induction false} WalkFacts(reqs: seq<RuleRequest>, create: RuleRequest -> Result<Rule>)
    ensures WalkRules(reqs, create).Ok? <==> forall k :: 0 <= k < |reqs| ==> Tolerated(reqs[k], create(reqs[k]))
    ensures WalkRules(reqs, create).Ok? ==> WalkRules(reqs, create).value == Created(reqs, create)
    ensures WalkRules(reqs, create).Err? ==>
              exists k :: 0 <= k < |reqs| && !Tolerated(reqs[k], create(reqs[k])) &&
                          (forall m :: 0 <= m < k ==> Tolerated(reqs[m], create(reqs[m]))) &&
                          WalkRules(reqs, create).error == Failure(reqs[k], create(reqs[k]))
  {
    if reqs != [] {
      WalkFacts(reqs[1..], create);
      var res := create(reqs[0]);
      if Tolerated(reqs[0], res) {
        if WalkRules(reqs[1..], create).Err? {
          var k :| 0 <= k < |reqs[1..]| && !Tolerated(reqs[1..][k], create(reqs[1..][k])) &&
                   (forall m :: 0 <= m < k ==> Tolerated(reqs[1..][m], create(reqs[1..][m]))) &&
                   WalkRules(reqs[1..], create).error == Failure(reqs[1..][k], create(reqs[1..][k]));
          assert forall m :: 0 <= m < k + 1 ==> Tolerated(reqs[m], create(reqs[m])) by {
            forall m | 0 <= m < k + 1 ensures Tolerated(reqs[m], create(reqs[m])) {
              if m > 0 { assert reqs[m] == reqs[1..][m - 1]; }
            }
          }
        } else {
          assert forall k :: 0 <= k < |reqs| ==> Tolerated(reqs[k], create(reqs[k])) by {
            forall k | 0 <= k < |reqs| ensures Tolerated(reqs[k], create(reqs[k])) {
              if k > 0 { assert reqs[k] == reqs[1..][k - 1]; }
            }
          }
        }
      } else {
        assert !Tolerated(reqs[0], create(reqs[0]));
      }
    }
  }

  /** So the Neutron helper returns at most six rules, each in the
      direction it was requested in. */
  lemma LoginableRulesBound(create: RuleRequest -> Result<Rule>)
    ensures WalkRules(Requests(), create).Ok? ==>
              |WalkRules(Requests(), create).value| <= 6 &&
              forall rule :: rule in WalkRules(Requests(), create).value ==> rule.direction in Directions
  {
    var reqs := Requests();
    WalkFacts(reqs, create);
    if WalkRules(reqs, create).Ok? {
      CreatedDirections(reqs, create);
    }
  }

  lemma {:induction false} CreatedDirections(reqs: seq<RuleRequest>, create: RuleRequest -> Result<Rule>)
    requires forall k :: 0 <= k < |reqs| ==> Tolerated(reqs[k], create(reqs[k])) && reqs[k].direction in Directions
    ensures forall rule :: rule in Created(reqs, create) ==> rule.direction in Directions
  {
    if reqs != [] {
      CreatedDirections(reqs[1..], create);
      if create(reqs[0]).Ok? {
        assert Tolerated(reqs[0], create(reqs[0]));
      }
    }
  }
}
