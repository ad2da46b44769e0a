/** The CIDR allocation loop of NetworkScenarioTest._create_subnet: walk the
    candidate blocks of the tenant range in order, skip blocks already used
    by a subnet of the tenant, try to create a subnet on the first free one,
    and move on only when the service answers that the block overlaps
    another subnet. The enumeration of the candidate blocks (netaddr), the
    "in use?" listing (cidr_in_use, a _list_subnets call that can raise)
    and the create call are inputs. */
module Subnets {
  import opened Errors
  import opened Text

  /** The subnet the service returns: its id and the CIDR it was given. */
  datatype Subnet = Subnet(id: string, cidr: string)

  const OverlapMsg: string := "overlaps with another subnet"
  const UnableMsg: string := "Unable to allocate tenant network"

  /** The one refusal the loop steps past. */
  predicate Overlapping(r: Result<Subnet>) {
    r.Err? && r.error.Conflict? && Contains(r.error.msg, OverlapMsg)
  }

  /** The candidates the "in use?" check lets through, in order, up to the
      first candidate whose check raises. */
  function Free(cands: seq<string>, inUse: string -> Result<bool>): (r: seq<string>)
    ensures |r| <= |cands|
  {
    if cands == [] || inUse(cands[0]).Err? then []
    else if inUse(cands[0]).value then Free(cands[1..], inUse)
    else [cands[0]] + Free(cands[1..], inUse)
  }

  /** The error of the first "in use?" check that raises, if any does. */
  function QueryError(cands: seq<string>, inUse: string -> Result<bool>): Option<Error> {
    if cands == [] then None
    else if inUse(cands[0]).Err? then Some(inUse(cands[0]).error)
    else QueryError(cands[1..], inUse)
  }

  /** How the loop ends: every candidate used up, a subnet created on `cidr`,
      or an error other than an overlap propagated out of the loop. */
  datatype LoopEnd = Exhausted | Created(subnet: Subnet, cidr: string) | Propagated(error: Error)

  /** The loop's end and the CIDRs passed to the create call, in order. */
  datatype Search = Search(end: LoopEnd, attempts: seq<string>)

  function SearchCidrs(cands: seq<string>, inUse: string -> Result<bool>, create: string -> Result<Subnet>): (r: Search)
    ensures |r.attempts| <= |Free(cands, inUse)|
  {
    if cands == [] then Search(Exhausted, [])
    else if inUse(cands[0]).Err? then Search(Propagated(inUse(cands[0]).error), [])
    else if inUse(cands[0]).value then SearchCidrs(cands[1..], inUse, create)
    else
      var c := cands[0];
      var response := create(c);
      if response.Ok? then Search(Created(response.value, c), [c])
      else if Overlapping(response) then
        var rest := SearchCidrs(cands[1..], inUse, create);
        Search(rest.end, [c] + rest.attempts)
      else Search(Propagated(response.error), [c])
  }

  /** What _create_subnet makes of the loop's end: the assertion that a
      subnet was created, then the assertion that its CIDR is the block
      last tried. */
  function Outcome(end: LoopEnd): (r: Result<Subnet>)
    ensures r.Ok? <==> end.Created? && end.subnet.cidr == end.cidr
    ensures r.Ok? ==> end.Created? && r.value == end.subnet
    ensures end.Exhausted? ==> r == Err(AssertionFailed(UnableMsg))
    ensures end.Propagated? ==> r == Err(end.error)
  {
    match end
    case Exhausted => Err(AssertionFailed(UnableMsg))
    case Propagated(e) => Err(e)
    case Created(subnet, cidr) =>
      if subnet.cidr != cidr then Err(AssertionFailed("cidr mismatch")) else Ok(subnet)
  }

  /** The allocation loop. `attempts` lists the CIDRs handed to `create`, so
      the caller sees every remote create the loop made. */
  method AllocateSubnet(cands: seq<string>, inUse: string -> Result<bool>, create: string -> Result<Subnet>)
    returns (r: Result<Subnet>, attempts: seq<string>)
    ensures var s := SearchCidrs(cands, inUse, create); r == Outcome(s.end) && attempts == s.attempts
  {
    attempts := [];
    var end: LoopEnd := Exhausted;
    var i := 0;
    while i < |cands|
      invariant 0 <= i <= |cands|
      invariant SearchCidrs(cands, inUse, create) ==
                Search(SearchCidrs(cands[i..], inUse, create).end, attempts + SearchCidrs(cands[i..], inUse, create).attempts)
    {
      var strCidr := cands[i];
      assert cands[i..][1..] == cands[i + 1..];
      var used := inUse(strCidr);
      if used.Err? {
        end := Propagated(used.error);
        break;
      }
      if used.value {
        i := i + 1;
        continue;
      }
      var response := create(strCidr);
      attempts := attempts + [strCidr];
      if response.Ok? {
        end := Created(response.value, strCidr);
        break;
      }
      if !Overlapping(response) {
        end := Propagated(response.error);
        break;
      }
      i := i + 1;
    }
    r := Outcome(end);
  }

  /** Every create in `xs` was refused as overlapping. */
  predicate AllOverlap(xs: seq<string>, create: string -> Result<Subnet>) {
    xs == [] || (Overlapping(create(xs[0])) && AllOverlap(xs[1..], create))
  }

  /** What the loop does, for every candidate list and every answer of the
      remote side: the creates go, in order, to a prefix of the free
      candidates (so at most one per candidate and never to a block in
      use); every create before the last was refused as overlapping; the
      loop is exhausted exactly when no "in use?" check raised and all free
      candidates were tried and overlapped; it stops at the first success,
      on the block last tried; and any other error is either the last
      create's own or, after every free candidate before it overlapped, the
      error of the first "in use?" check that raised. */
  lemma {:induction false} SearchFacts(cands: seq<string>, inUse: string -> Result<bool>, create: string -> Result<Subnet>)
    ensures var s := SearchCidrs(cands, inUse, create);
      |s.attempts| <= |Free(cands, inUse)| && s.attempts == Free(cands, inUse)[..|s.attempts|]
    ensures var s := SearchCidrs(cands, inUse, create);
      forall k :: 0 <= k < |s.attempts| - 1 ==> Overlapping(create(s.attempts[k]))
    ensures var s := SearchCidrs(cands, inUse, create);
      s.end.Exhausted? <==> QueryError(cands, inUse).None? && s.attempts == Free(cands, inUse) && AllOverlap(s.attempts, create)
    ensures var s := SearchCidrs(cands, inUse, create);
      s.end.Created? ==> |s.attempts| > 0 && s.end.cidr == s.attempts[|s.attempts| - 1] &&
                         create(s.end.cidr) == Ok(s.end.subnet)
    ensures var s := SearchCidrs(cands, inUse, create);
      s.end.Propagated? ==>
        (|s.attempts| > 0 && create(s.attempts[|s.attempts| - 1]) == Err(s.end.error) &&
         !Overlapping(create(s.attempts[|s.attempts| - 1]))) ||
        (QueryError(cands, inUse) == Some(s.end.error) && s.attempts == Free(cands, inUse) && AllOverlap(s.attempts, create))
  {
    SearchAttempts(cands, inUse, create);
    SearchExhausted(cands, inUse, create);
    SearchCreated(cands, inUse, create);
    SearchPropagated(cands, inUse, create);
  }

  /** The creates go to a prefix of the free candidates, and all but the
      last were refused as overlapping. */
  lemma {:induction false} SearchAttempts(cands: seq<string>, inUse: string -> Result<bool>, create: string -> Result<Subnet>)
    ensures var s := SearchCidrs(cands, inUse, create);
      |s.attempts| <= |Free(cands, inUse)| && s.attempts == Free(cands, inUse)[..|s.attempts|]
    ensures var s := SearchCidrs(cands, inUse, create);
      forall k :: 0 <= k < |s.attempts| - 1 ==> Overlapping(create(s.attempts[k]))
  {
    if cands != [] && inUse(cands[0]).Ok? {
      SearchAttempts(cands[1..], inUse, create);
      var s := SearchCidrs(cands, inUse, create);
      var rest := SearchCidrs(cands[1..], inUse, create);
      var free := Free(cands, inUse);
      if !inUse(cands[0]).value {
        var c := cands[0];
        assert free == [c] + Free(cands[1..], inUse);
        if create(c).Ok? || !Overlapping(create(c)) {
          assert s.attempts == [c] == free[..1];
          assert !(Overlapping(create(s.attempts[0])));
        } else {
          assert s.attempts == [c] + rest.attempts;
          assert s.attempts[1..] == rest.attempts;
        }
      }
    }
  }

  lemma {:induction false} SearchExhausted(cands: seq<string>, inUse: string -> Result<bool>, create: string -> Result<Subnet>)
    ensures var s := SearchCidrs(cands, inUse, create);
      s.end.Exhausted? <==> QueryError(cands, inUse).None? && s.attempts == Free(cands, inUse) && AllOverlap(s.attempts, create)
  {
    if cands != [] && inUse(cands[0]).Ok? {
      SearchExhausted(cands[1..], inUse, create);
      var c := cands[0];
      if !inUse(c).value {
        var s := SearchCidrs(cands, inUse, create);
        var rest := SearchCidrs(cands[1..], inUse, create);
        if Overlapping(create(c)) {
          assert s.attempts == [c] + rest.attempts && s.attempts[1..] == rest.attempts;
        } else {
          assert s.attempts == [c];
          assert |Free(cands, inUse)| > 1 ==> s.attempts != Free(cands, inUse);
        }
      }
    }
  }

  lemma {:induction false} SearchCreated(cands: seq<string>, inUse: string -> Result<bool>, create: string -> Result<Subnet>)
    ensures var s := SearchCidrs(cands, inUse, create);
      s.end.Created? ==> |s.attempts| > 0 && s.end.cidr == s.attempts[|s.attempts| - 1] &&
                         create(s.end.cidr) == Ok(s.end.subnet)
  {
    if cands != [] && inUse(cands[0]).Ok? {
      SearchCreated(cands[1..], inUse, create);
    }
  }

  lemma {:induction false} SearchPropagated(cands: seq<string>, inUse: string -> Result<bool>, create: string -> Result<Subnet>)
    ensures var s := SearchCidrs(cands, inUse, create);
      s.end.Propagated? ==>
        (|s.attempts| > 0 && create(s.attempts[|s.attempts| - 1]) == Err(s.end.error) &&
         !Overlapping(create(s.attempts[|s.attempts| - 1]))) ||
        (QueryError(cands, inUse) == Some(s.end.error) && s.attempts == Free(cands, inUse) && AllOverlap(s.attempts, create))
  {
    if cands != [] && inUse(cands[0]).Ok? {
      SearchPropagated(cands[1..], inUse, create);
      var c := cands[0];
      if !inUse(c).value && Overlapping(create(c)) {
        var s := SearchCidrs(cands, inUse, create);
        var rest := SearchCidrs(cands[1..], inUse, create);
        assert s.attempts == [c] + rest.attempts && s.attempts[1..] == rest.attempts;
      }
    }
  }

  /** Five candidates of which the first three are in use and the fourth is
      free: the loop creates exactly once, on the fourth, and never looks at
      the fifth. */
  lemma FourthCandidateWins(cands: seq<string>, inUse: string -> Result<bool>, create: string -> Result<Subnet>)
    requires |cands| == 5
    requires inUse(cands[0]) == Ok(true) && inUse(cands[1]) == Ok(true) && inUse(cands[2]) == Ok(true)
    requires inUse(cands[3]) == Ok(false)
    requires create(cands[3]).Ok? && create(cands[3]).value.cidr == cands[3]
    ensures SearchCidrs(cands, inUse, create).attempts == [cands[3]]
    ensures Outcome(SearchCidrs(cands, inUse, create).end) == Ok(create(cands[3]).value)
  {
    assert cands[1..][1..] == cands[2..] && cands[2..][1..] == cands[3..];
    assert SearchCidrs(cands, inUse, create) == SearchCidrs(cands[1..], inUse, create);
    assert SearchCidrs(cands[1..], inUse, create) == SearchCidrs(cands[2..], inUse, create);
    assert SearchCidrs(cands[2..], inUse, create) == SearchCidrs(cands[3..], inUse, create);
    assert cands[3..][0] == cands[3];
  }
}
