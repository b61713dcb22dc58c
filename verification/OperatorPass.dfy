/**
 One operator pass over a live Target or Share: from claims, Volumes and node
 readiness to the status it stores. The protocol machine takes the resulting
 verdict as an arbitrary one; this module says which verdict it is.
 */
module OperatorPass {
  import opened ExportProtocol
  import opened Placement

  /** What claimVolume makes of a claim: not bound yet or not r-drbd, or a Volume. */
  datatype Claim = Unusable | Bound(volume: Volume)

  ghost predicate AllBound(claims: seq<Claim>) {
    forall i :: 0 <= i < |claims| ==> claims[i].Bound?
  }

  ghost function ChoiceOf(claims: seq<Claim>, i: nat, prefer: Node, avoid: set<Node>): Choice
    requires i < |claims| && AllBound(claims)
  {
    Resolve(claims[i].volume, prefer, avoid)
  }

  ghost predicate AllPlaced(claims: seq<Claim>, prefer: Node, avoid: set<Node>) {
    AllBound(claims) && forall i :: 0 <= i < |claims| ==> ChoiceOf(claims, i, prefer, avoid).Choice?
  }

  ghost predicate AnyReplicated(claims: seq<Claim>) {
    exists i :: 0 <= i < |claims| && claims[i].Bound? && DiskfulCount(claims[i].volume.assignment) > 1
  }

  ghost function Devices(claims: seq<Claim>, prefer: Node, avoid: set<Node>): (ds: seq<string>)
    requires AllPlaced(claims, prefer, avoid)
    ensures |ds| == |claims|
  {
    seq(|claims|, i requires 0 <= i < |claims| => ChoiceOf(claims, i, prefer, avoid).device)
  }

  /** A Target is served from its first LUN's node; a replicated LUN without a VIP is a spec error. */
  ghost function TargetVerdict(
      claims: seq<Claim>, vip: string, current: Node, avoid: set<Node>, secretProblem: bool): Verdict {
    if !AllPlaced(claims, current, avoid) || (AnyReplicated(claims) && vip == "") then Unplaced
    else if claims == [] then Place("", [], secretProblem)
    else Place(ChoiceOf(claims, 0, current, avoid).node, Devices(claims, current, avoid), secretProblem)
  }

  ghost function ShareVerdict(claim: Claim, current: Node, avoid: set<Node>): Verdict {
    if claim.Unusable? then Unplaced
    else match Resolve(claim.volume, current, avoid)
      case NoReplica => Unplaced
      case Choice(node, device) => Place(node, [device], false)
  }

  method ResolveLUNs(claims: seq<Claim>, current: Node, avoid: set<Node>)
    returns (placed: bool, node: Node, devices: seq<string>, replicated: bool)
    requires AllBound(claims)
    ensures placed == AllPlaced(claims, current, avoid)
    ensures placed ==> replicated == AnyReplicated(claims) && devices == Devices(claims, current, avoid)
    ensures placed ==> node == if claims == [] then "" else ChoiceOf(claims, 0, current, avoid).node
  {
    placed, node, devices, replicated := true, "", [], false;
    for i := 0 to |claims|
      invariant placed && AllPlaced(claims[..i], current, avoid)
      invariant replicated == AnyReplicated(claims[..i])
      invariant devices == Devices(claims[..i], current, avoid)
      invariant i == 0 ==> node == ""
      invariant i > 0 ==> ChoiceOf(claims, 0, current, avoid).Choice?
      invariant i > 0 ==> node == ChoiceOf(claims, 0, current, avoid).node
    {
      var choice, replicas := ResolvePlacement(claims[i].volume, current, avoid);
      ghost var sofar := claims[..i + 1];
      assert sofar == claims[..i] + [claims[i]];
      assert choice == ChoiceOf(claims, i, current, avoid);
      if choice.NoReplica? {
        placed := false;
        return;
      }
      if i == 0 {
        node := choice.node;
      }
      replicated := replicated || replicas > 1;
      devices := devices + [choice.device];
      AnyReplicatedGrows(claims[..i], claims[i]);
      assert forall k :: 0 <= k < i ==> ChoiceOf(claims[..i], k, current, avoid) == ChoiceOf(sofar, k, current, avoid);
      assert ChoiceOf(sofar, i, current, avoid) == choice;
    }
    assert claims[..|claims|] == claims;
  }

  lemma AnyReplicatedGrows(claims: seq<Claim>, c: Claim)
    requires c.Bound?
    ensures AnyReplicated(claims + [c]) <==> AnyReplicated(claims) || DiskfulCount(c.volume.assignment) > 1
  {
    var all := claims + [c];
    if AnyReplicated(claims) {
      var i :| 0 <= i < |claims| && claims[i].Bound? && DiskfulCount(claims[i].volume.assignment) > 1;
      assert all[i] == claims[i];
    }
    if DiskfulCount(c.volume.assignment) > 1 {
      assert all[|claims|] == c;
    }
  }

  /**
   What a Target's stored status says of its claims: a pass that cannot place changes nothing but Available; one
   that can stores the first LUN's node and each LUN's device, and keeps the report only if the node stays.
   */
  lemma TargetStatusMeans(
      o: Object, claims: seq<Claim>, vip: string, avoid: set<Node>, secretProblem: bool, status: Object)
    requires status == OperatorStatus(o, TargetVerdict(claims, vip, o.node, avoid, secretProblem))
    ensures (exists i :: 0 <= i < |claims| && claims[i].Unusable?) ==> status == o.(available := false)
    ensures (forall i :: 0 <= i < |claims| ==> claims[i].Bound?) ==>
      (exists i :: 0 <= i < |claims| && Resolve(claims[i].volume, o.node, avoid).NoReplica?) ==>
      status == o.(available := false)
    ensures (forall i :: 0 <= i < |claims| ==> claims[i].Bound?) && vip == "" ==>
      (exists i :: 0 <= i < |claims| && DiskfulCount(claims[i].volume.assignment) > 1) ==>
      status == o.(available := false)
    ensures claims != [] && (forall i :: 0 <= i < |claims| ==> claims[i].Bound?) ==>
      (forall i :: 0 <= i < |claims| ==> Resolve(claims[i].volume, o.node, avoid).Choice?) ==>
      (vip == "" ==> forall i :: 0 <= i < |claims| ==> DiskfulCount(claims[i].volume.assignment) <= 1) ==>
      && status.node == Resolve(claims[0].volume, o.node, avoid).node
      && |status.devices| == |claims|
      && (forall i :: 0 <= i < |claims| ==> status.devices[i] == Resolve(claims[i].volume, o.node, avoid).device)
      && status.hostReady == (o.hostReady && (o.node == "" || o.node == status.node))
      && status.available == (status.hostReady && !secretProblem)
      && status == o.(node := status.node, devices := status.devices,
                      hostReady := status.hostReady, available := status.available)
  {
    if forall i :: 0 <= i < |claims| ==> claims[i].Bound? {
      assert forall i :: 0 <= i < |claims| ==>
        ChoiceOf(claims, i, o.node, avoid) == Resolve(claims[i].volume, o.node, avoid);
    }
  }

  /** The live branch of the Target operator's Reconcile, up to the status write. */
  method TargetPass(
      o: Object, claims: seq<Claim>, vip: string, avoid: set<Node>, secretProblem: bool)
    returns (status: Object)
    ensures status == OperatorStatus(o, TargetVerdict(claims, vip, o.node, avoid, secretProblem))
    ensures (exists i :: 0 <= i < |claims| && claims[i].Unusable?) ==> status == o.(available := false)
    ensures (forall i :: 0 <= i < |claims| ==> claims[i].Bound?) ==>
      (exists i :: 0 <= i < |claims| && Resolve(claims[i].volume, o.node, avoid).NoReplica?) ==>
      status == o.(available := false)
    ensures (forall i :: 0 <= i < |claims| ==> claims[i].Bound?) && vip == "" ==>
      (exists i :: 0 <= i < |claims| && DiskfulCount(claims[i].volume.assignment) > 1) ==>
      status == o.(available := false)
    ensures claims != [] && (forall i :: 0 <= i < |claims| ==> claims[i].Bound?) ==>
      (forall i :: 0 <= i < |claims| ==> Resolve(claims[i].volume, o.node, avoid).Choice?) ==>
      (vip == "" ==> forall i :: 0 <= i < |claims| ==> DiskfulCount(claims[i].volume.assignment) <= 1) ==>
      && status.node == Resolve(claims[0].volume, o.node, avoid).node
      && |status.devices| == |claims|
      && (forall i :: 0 <= i < |claims| ==> status.devices[i] == Resolve(claims[i].volume, o.node, avoid).device)
      && status.hostReady == (o.hostReady && (o.node == "" || o.node == status.node))
      && status.available == (status.hostReady && !secretProblem)
      && status == o.(node := status.node, devices := status.devices,
                      hostReady := status.hostReady, available := status.available)
  {
    status := StatusOf(o, claims, vip, avoid, secretProblem);
    TargetStatusMeans(o, claims, vip, avoid, secretProblem, status);
  }

  method StatusOf(o: Object, claims: seq<Claim>, vip: string, avoid: set<Node>, secretProblem: bool)
    returns (status: Object)
    ensures status == OperatorStatus(o, TargetVerdict(claims, vip, o.node, avoid, secretProblem))
  {
    status := o;
    var available := false;
    var usable := true;
    for i := 0 to |claims|
      invariant usable ==> AllBound(claims[..i])
      invariant !usable ==> !AllBound(claims)
    {
      if claims[i].Unusable? {
        usable := false;
        break;
      }
    }
    if usable {
      assert claims[..|claims|] == claims;
      var placed, node, devices, replicated := ResolveLUNs(claims, o.node, avoid);
      if !placed {
      } else if replicated && vip == "" {
      } else {
        var moved := status.node != "" && status.node != node;
        status := status.(node := node, devices := devices);
        if moved {
          status := status.(hostReady := false);
        }
        if secretProblem {
        } else if status.hostReady {
          available := true;
        }
      }
    }
    status := status.(available := available);
  }

  method SharePass(o: Object, claim: Claim, avoid: set<Node>) returns (status: Object)
    ensures status == OperatorStatus(o, ShareVerdict(claim, o.node, avoid))
    ensures claim.Unusable? || Resolve(claim.volume, o.node, avoid).NoReplica? ==> status == o.(available := false)
    ensures claim.Bound? && Resolve(claim.volume, o.node, avoid).Choice? ==>
      var c := Resolve(claim.volume, o.node, avoid);
      var hostReady := o.hostReady && (o.node == "" || o.node == c.node);
      status == o.(node := c.node, devices := [c.device], hostReady := hostReady, available := hostReady)
  {
    status := o;
    var available := false;
    if claim.Bound? {
      var choice, _ := ResolvePlacement(claim.volume, o.node, avoid);
      if choice.Choice? {
        var moved := status.node != "" && status.node != choice.node;
        status := status.(node := choice.node, devices := [choice.device]);
        if moved {
          status := status.(hostReady := false);
        }
        available := status.hostReady;
      }
    }
    status := status.(available := available);
  }

  /** Replica reports carry the name of the node that wrote them. */
  ghost predicate NamedReplicas(claims: seq<Claim>) {
    forall i :: 0 <= i < |claims| && claims[i].Bound? ==>
      forall r :: r in claims[i].volume.replicas ==> r.node != ""
  }

  /** With at least one LUN, which the API demands, a placement always names a node outside `avoid`. */
  lemma VerdictNamesANode(claims: seq<Claim>, vip: string, current: Node, avoid: set<Node>, secretProblem: bool)
    requires claims != [] && NamedReplicas(claims)
    ensures var v := TargetVerdict(claims, vip, current, avoid, secretProblem);
      v.Place? ==> v.node != "" && v.node !in avoid && |v.devices| == |claims|
  {
    var v := TargetVerdict(claims, vip, current, avoid, secretProblem);
    if v.Place? {
      assert ChoiceOf(claims, 0, current, avoid).Choice?;
      var best := ResolveIsOptimal(claims[0].volume, current, avoid);
      var volume := claims[0].volume;
      var r :| r in volume.replicas && Usable(volume, r) && AsCandidate(volume, r) == best;
    }
  }

  /** Run again on unchanged inputs, a pass keeps the node it chose, so it never resets the report it is waiting for. */
  lemma RepeatedPassDoesNotMove(
      o: Object, claims: seq<Claim>, vip: string, avoid: set<Node>, problem: bool, report: bool)
    requires claims != [] && TargetVerdict(claims, vip, o.node, avoid, problem).Place?
    ensures var once := OperatorStatus(o, TargetVerdict(claims, vip, o.node, avoid, problem)).(hostReady := report);
      var twice := OperatorStatus(once, TargetVerdict(claims, vip, once.node, avoid, problem));
      && twice.node == once.node && twice.hostReady == report && twice.available == (report && !problem)
  {
    var n := ChoiceOf(claims, 0, o.node, avoid).node;
    forall i | 0 <= i < |claims|
      ensures ChoiceOf(claims, i, n, avoid).Choice?
    {
      assert ChoiceOf(claims, i, o.node, avoid).Choice?;
      var a := ResolveIsOptimal(claims[i].volume, o.node, avoid);
      var b := ResolveIsOptimal(claims[i].volume, n, avoid);
    }
    ResolveIsStable(claims[0].volume, o.node, avoid);
    assert ChoiceOf(claims, 0, n, avoid).node == n;
  }

  // ---- updates the Volume filter drops -------------------------------------------------

  /** The claims differ only in what the filter ignores. */
  ghost predicate SameKeys(claims: seq<Claim>, later: seq<Claim>) {
    |claims| == |later| && forall i :: 0 <= i < |claims| ==> SameKey(claims[i], later[i])
  }

  ghost predicate SameKey(a: Claim, b: Claim) {
    if a.Unusable? then b.Unusable?
    else b.Bound? && UniqueNodes(a.volume) && UniqueNodes(b.volume) && Serving(a.volume) == Serving(b.volume)
  }

  ghost predicate TiedClaim(claims: seq<Claim>, i: nat, current: Node, avoid: set<Node>)
    requires i < |claims|
  {
    claims[i].Bound? && Tied(claims[i].volume, current, avoid)
  }

  /** One LUN: no replica stays no replica, an untied choice stays. */
  lemma ChoiceStays(claims: seq<Claim>, later: seq<Claim>, i: nat, current: Node, avoid: set<Node>)
    requires SameKeys(claims, later) && AllBound(claims) && i < |claims|
    ensures AllBound(later)
    ensures ChoiceOf(claims, i, current, avoid).Choice? <==> ChoiceOf(later, i, current, avoid).Choice?
    ensures !TiedClaim(claims, i, current, avoid) ==>
      ChoiceOf(later, i, current, avoid) == ChoiceOf(claims, i, current, avoid)
    ensures DiskfulCount(claims[i].volume.assignment) == DiskfulCount(later[i].volume.assignment)
  {
    forall k | 0 <= k < |later|
      ensures later[k].Bound?
    {
      assert SameKey(claims[k], later[k]);
    }
    assert SameKey(claims[i], later[i]);
    var v, w := claims[i].volume, later[i].volume;
    FilterIsSound(v, w, current, avoid);
    FilterIsSound(w, v, current, avoid);
    if ChoiceOf(claims, i, current, avoid).Choice? && !TiedClaim(claims, i, current, avoid) {
      UntiedStays(v, w, current, avoid);
    }
  }

  lemma PlacedStays(claims: seq<Claim>, later: seq<Claim>, current: Node, avoid: set<Node>)
    requires SameKeys(claims, later) && AllPlaced(claims, current, avoid)
    ensures AllPlaced(later, current, avoid) && (AnyReplicated(claims) ==> AnyReplicated(later))
  {
    forall i | 0 <= i < |later|
      ensures later[i].Bound? && AllBound(later) && ChoiceOf(later, i, current, avoid).Choice?
      ensures DiskfulCount(claims[i].volume.assignment) == DiskfulCount(later[i].volume.assignment)
    {
      assert ChoiceOf(claims, i, current, avoid).Choice?;
      ChoiceStays(claims, later, i, current, avoid);
    }
  }

  lemma SameKeysBack(claims: seq<Claim>, later: seq<Claim>)
    requires SameKeys(claims, later)
    ensures SameKeys(later, claims)
  {
    forall i | 0 <= i < |claims|
      ensures SameKey(later[i], claims[i])
    {
      assert SameKey(claims[i], later[i]);
    }
  }

  /**
   After updates the filter drops, a Target pass would say the same: the same node if the first LUN's choice is
   untied under the active node, and the same devices if every LUN's is.
   */
  lemma DroppedUpdatesChangeNothing(
      claims: seq<Claim>, later: seq<Claim>, vip: string, current: Node, avoid: set<Node>, problem: bool)
    requires SameKeys(claims, later)
    ensures var v := TargetVerdict(claims, vip, current, avoid, problem);
      var w := TargetVerdict(later, vip, current, avoid, problem);
      && (v.Place? <==> w.Place?)
      && (v.Place? && claims != [] && !TiedClaim(claims, 0, current, avoid) ==> w.node == v.node)
      && ((forall i :: 0 <= i < |claims| ==> !TiedClaim(claims, i, current, avoid)) ==> w == v)
  {
    SameKeysBack(claims, later);
    if AllPlaced(claims, current, avoid) {
      PlacedStays(claims, later, current, avoid);
    }
    if AllPlaced(later, current, avoid) {
      PlacedStays(later, claims, current, avoid);
    }
    if AllPlaced(claims, current, avoid) {
      forall i | 0 <= i < |claims|
        ensures !TiedClaim(claims, i, current, avoid) ==>
          ChoiceOf(later, i, current, avoid) == ChoiceOf(claims, i, current, avoid)
      {
        ChoiceStays(claims, later, i, current, avoid);
      }
      if forall i :: 0 <= i < |claims| ==> !TiedClaim(claims, i, current, avoid) {
        assert Devices(claims, current, avoid) == Devices(later, current, avoid);
      }
    }
  }

  /** And that is exact: a tied LUN's choice changes in some listing of the same keys. */
  lemma ChoicesAreExact(claims: seq<Claim>, current: Node, avoid: set<Node>)
    requires SameKeys(claims, claims) && AllPlaced(claims, current, avoid)
    ensures (forall i :: 0 <= i < |claims| ==> !TiedClaim(claims, i, current, avoid)) <==>
      forall later :: SameKeys(claims, later) ==> SameChoices(claims, later, current, avoid)
  {
    if i :| 0 <= i < |claims| && TiedClaim(claims, i, current, avoid) {
      assert SameKey(claims[i], claims[i]);
      var w := TiedMoves(claims[i].volume, current, avoid);
      var later := claims[i := Bound(w)];
      forall k | 0 <= k < |claims|
        ensures SameKey(claims[k], later[k])
      {
        assert SameKey(claims[k], claims[k]);
      }
      assert SameKeys(claims, later) && !SameChoices(claims, later, current, avoid);
    } else {
      forall later: seq<Claim> | SameKeys(claims, later)
        ensures SameChoices(claims, later, current, avoid)
      {
        forall i | 0 <= i < |claims|
          ensures later[i].Bound?
          ensures Resolve(later[i].volume, current, avoid) == Resolve(claims[i].volume, current, avoid)
        {
          ChoiceStays(claims, later, i, current, avoid);
          assert ChoiceOf(later, i, current, avoid) == ChoiceOf(claims, i, current, avoid);
        }
      }
    }
  }

  ghost predicate SameChoices(claims: seq<Claim>, later: seq<Claim>, current: Node, avoid: set<Node>)
    requires |claims| == |later|
  {
    forall i :: 0 <= i < |claims| ==>
      claims[i].Bound? && later[i].Bound? &&
      Resolve(later[i].volume, current, avoid) == Resolve(claims[i].volume, current, avoid)
  }
}
