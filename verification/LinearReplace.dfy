/**
 Disk replacement in a linear pool: planDevices and convergeDevices of
 internal/agent/replace.go, driven by ensureLinearPool, over an abstract volume
 group. vgreduce refuses a member holding extents; pvmove runs in the
 background and, once complete, has moved extents without losing any.
 */
module LinearReplace {

  /** One VG member as pvs reports it: kernel path, device lost, extents allocated. */
  datatype PV = PV(name: string, missing: bool, used: nat)

  datatype Plan = Plan(add: seq<string>, evacuate: seq<string>, drop: seq<string>, missing: bool)

  predicate Empty(p: Plan) {
    p.add == [] && p.evacuate == [] && p.drop == [] && !p.missing
  }

  function Kernel(resolved: map<string, string>, dev: string): string {
    if dev in resolved && resolved[dev] != "" then resolved[dev] else dev
  }

  function Want(spec: seq<string>, resolved: map<string, string>): set<string> {
    set d | d in spec :: Kernel(resolved, d)
  }

  function Live(pvs: seq<PV>): set<string> {
    set pv | pv in pvs && !pv.missing :: pv.name
  }

  /** Live members outside the spec, in report order: those holding extents, or those that do not. */
  function Outsiders(pvs: seq<PV>, want: set<string>, holding: bool): seq<string> {
    if pvs == [] then []
    else
      var pv := pvs[|pvs| - 1];
      Outsiders(pvs[..|pvs| - 1], want, holding) +
      if !pv.missing && pv.name !in want && (pv.used > 0) == holding then [pv.name] else []
  }

  function Absentees(spec: seq<string>, resolved: map<string, string>, present: set<string>): seq<string> {
    if spec == [] then []
    else
      var d := spec[|spec| - 1];
      Absentees(spec[..|spec| - 1], resolved, present) + if Kernel(resolved, d) !in present then [d] else []
  }

  function PlanOf(spec: seq<string>, resolved: map<string, string>, pvs: seq<PV>): Plan {
    var want := Want(spec, resolved);
    Plan(Absentees(spec, resolved, Live(pvs)), Outsiders(pvs, want, true), Outsiders(pvs, want, false),
         AnyMissing(pvs))
  }

  predicate AnyMissing(pvs: seq<PV>) {
    pvs != [] && (pvs[|pvs| - 1].missing || AnyMissing(pvs[..|pvs| - 1]))
  }

  method Wanted(spec: seq<string>, resolved: map<string, string>) returns (want: set<string>)
    ensures want == Want(spec, resolved)
  {
    want := {};
    for i := 0 to |spec|
      invariant want == Want(spec[..i], resolved)
    {
      assert spec[..i + 1] == spec[..i] + [spec[i]];
      want := want + {Kernel(resolved, spec[i])};
    }
    assert spec[..|spec|] == spec;
  }

  method Classify(pvs: seq<PV>, want: set<string>) returns (plan: Plan, present: set<string>)
    ensures present == Live(pvs)
    ensures plan == Plan([], Outsiders(pvs, want, true), Outsiders(pvs, want, false), AnyMissing(pvs))
  {
    plan, present := Plan([], [], [], false), {};
    for i := 0 to |pvs|
      invariant present == Live(pvs[..i])
      invariant plan ==
        Plan([], Outsiders(pvs[..i], want, true), Outsiders(pvs[..i], want, false), AnyMissing(pvs[..i]))
    {
      var pv := pvs[i];
      LiveGrows(pvs[..i], pv);
      assert pvs[..i + 1] == pvs[..i] + [pv];
      assert pvs[..i + 1][..i] == pvs[..i];
      if pv.missing {
        plan := plan.(missing := true);
        continue;
      }
      present := present + {pv.name};
      if pv.name in want {
        continue;
      }
      if pv.used > 0 {
        plan := plan.(evacuate := plan.evacuate + [pv.name]);
      } else {
        plan := plan.(drop := plan.drop + [pv.name]);
      }
    }
    assert pvs[..|pvs|] == pvs;
  }

  lemma LiveGrows(pvs: seq<PV>, pv: PV)
    ensures Live(pvs + [pv]) == Live(pvs) + if pv.missing then {} else {pv.name}
  {
  }

  method PlanDevices(spec: seq<string>, resolved: map<string, string>, pvs: seq<PV>) returns (plan: Plan)
    ensures plan == PlanOf(spec, resolved, pvs)
  {
    var want := Wanted(spec, resolved);
    var present: set<string>;
    plan, present := Classify(pvs, want);
    for i := 0 to |spec|
      invariant plan == PlanOf(spec, resolved, pvs).(add := Absentees(spec[..i], resolved, present))
    {
      assert spec[..i + 1][..i] == spec[..i];
      if Kernel(resolved, spec[i]) !in present {
        plan := plan.(add := plan.add + [spec[i]]);
      }
    }
    assert spec[..|spec|] == spec;
  }

  // ---- what a plan says -----------------------------------------------------------

  lemma {:induction false} OutsidersAre(pvs: seq<PV>, want: set<string>, holding: bool, name: string)
    ensures name in Outsiders(pvs, want, holding) <==>
      exists pv :: pv in pvs && pv.name == name && !pv.missing && name !in want && (pv.used > 0) == holding
  {
    if pvs != [] {
      var n := |pvs| - 1;
      OutsidersAre(pvs[..n], want, holding, name);
      assert pvs == pvs[..n] + [pvs[n]];
    }
  }

  lemma {:induction false} AnyMissingIs(pvs: seq<PV>)
    ensures AnyMissing(pvs) <==> exists pv :: pv in pvs && pv.missing
  {
    if pvs != [] {
      var n := |pvs| - 1;
      AnyMissingIs(pvs[..n]);
      assert pvs == pvs[..n] + [pvs[n]];
    }
  }

  lemma {:induction false} AbsenteesAre(
      spec: seq<string>, resolved: map<string, string>, present: set<string>, d: string)
    ensures d in Absentees(spec, resolved, present) <==> d in spec && Kernel(resolved, d) !in present
  {
    if spec != [] {
      var n := |spec| - 1;
      AbsenteesAre(spec[..n], resolved, present, d);
      assert spec == spec[..n] + [spec[n]];
    }
  }

  /** There is nothing to do exactly when the live members are the resolved spec and no member is missing. */
  lemma EmptyPlanMeansConverged(spec: seq<string>, resolved: map<string, string>, pvs: seq<PV>)
    ensures Empty(PlanOf(spec, resolved, pvs)) <==>
      Live(pvs) == Want(spec, resolved) && forall pv :: pv in pvs ==> !pv.missing
  {
    var plan, want := PlanOf(spec, resolved, pvs), Want(spec, resolved);
    AnyMissingIs(pvs);
    forall pv | pv in pvs
      ensures !pv.missing && pv.name !in want ==> pv.name in plan.evacuate || pv.name in plan.drop
    {
      OutsidersAre(pvs, want, true, pv.name);
      OutsidersAre(pvs, want, false, pv.name);
    }
    forall d | d in spec
      ensures Kernel(resolved, d) !in Live(pvs) ==> d in plan.add
    {
      AbsenteesAre(spec, resolved, Live(pvs), d);
    }
    if plan.add != [] {
      AbsenteesAre(spec, resolved, Live(pvs), plan.add[0]);
      assert plan.add[0] in plan.add;
    }
    if plan.evacuate != [] {
      OutsidersAre(pvs, want, true, plan.evacuate[0]);
      assert plan.evacuate[0] in plan.evacuate;
    }
    if plan.drop != [] {
      OutsidersAre(pvs, want, false, plan.drop[0]);
      assert plan.drop[0] in plan.drop;
    }
  }

  /** The kernel path of a spec device: what it resolves to, or itself if it does not. */
  ghost predicate At(resolved: map<string, string>, d: string, k: string) {
    k == if d in resolved && resolved[d] != "" then resolved[d] else d
  }

  ghost predicate LiveAt(pvs: seq<PV>, k: string) {
    exists pv :: pv in pvs && !pv.missing && pv.name == k
  }

  /** A spec disk is never moved out, and is added exactly if no live member is at its path. */
  lemma SpecDiskStays(spec: seq<string>, resolved: map<string, string>, pvs: seq<PV>, d: string, k: string)
    requires d in spec && At(resolved, d, k)
    ensures var plan := PlanOf(spec, resolved, pvs);
      k !in plan.evacuate && k !in plan.drop && (d in plan.add <==> !LiveAt(pvs, k))
  {
    var want := Want(spec, resolved);
    assert k in want;
    OutsidersAre(pvs, want, true, k);
    OutsidersAre(pvs, want, false, k);
    AbsenteesAre(spec, resolved, Live(pvs), d);
  }

  /**
   A live member no spec device is at is evacuated if it holds extents and dropped if it does not; nothing else is.
   */
  lemma OutgoingDisks(spec: seq<string>, resolved: map<string, string>, pvs: seq<PV>, name: string)
    ensures var plan := PlanOf(spec, resolved, pvs);
      && (name in plan.evacuate <==>
            (forall d :: d in spec ==> !At(resolved, d, name)) &&
            exists pv :: pv in pvs && pv.name == name && !pv.missing && pv.used > 0)
      && (name in plan.drop <==>
            (forall d :: d in spec ==> !At(resolved, d, name)) &&
            exists pv :: pv in pvs && pv.name == name && !pv.missing && pv.used == 0)
  {
    var want := Want(spec, resolved);
    assert name in want <==> exists d :: d in spec && At(resolved, d, name);
    OutsidersAre(pvs, want, true, name);
    OutsidersAre(pvs, want, false, name);
  }

  /**
   There is nothing to do exactly when each spec device has a live member at its path, each live member a spec device,
   and no disk is lost.
   */
  lemma EmptyPlanOnDisks(spec: seq<string>, resolved: map<string, string>, pvs: seq<PV>)
    ensures Empty(PlanOf(spec, resolved, pvs)) <==>
      && (forall pv :: pv in pvs ==> !pv.missing)
      && (forall d, k :: d in spec && At(resolved, d, k) ==> LiveAt(pvs, k))
      && (forall pv :: pv in pvs ==> exists d :: d in spec && At(resolved, d, pv.name))
  {
    var want, live := Want(spec, resolved), Live(pvs);
    EmptyPlanMeansConverged(spec, resolved, pvs);
    forall k
      ensures k in want <==> exists d :: d in spec && At(resolved, d, k)
      ensures k in live <==> LiveAt(pvs, k)
    {
      if d :| d in spec && At(resolved, d, k) {
        assert Kernel(resolved, d) == k;
      }
    }
    forall d, k | d in spec && At(resolved, d, k)
      ensures k in want
    {
    }
    forall pv | pv in pvs && !pv.missing
      ensures pv.name in live
    {
    }
  }

  // ---- executing a plan -------------------------------------------------------------

  function Total(pvs: seq<PV>): nat {
    if pvs == [] then 0 else Total(pvs[..|pvs| - 1]) + pvs[|pvs| - 1].used
  }

  function Joined(pvs: seq<PV>, resolved: map<string, string>, devs: seq<string>): seq<PV> {
    pvs + seq(|devs|, i requires 0 <= i < |devs| => PV(Kernel(resolved, devs[i]), false, 0))
  }

  function Without(pvs: seq<PV>, names: set<string>): seq<PV> {
    if pvs == [] then []
    else
      var pv := pvs[|pvs| - 1];
      Without(pvs[..|pvs| - 1], names) + if !pv.missing && pv.name in names then [] else [pv]
  }

  lemma {:induction false} TotalAppend(a: seq<PV>, b: seq<PV>)
    ensures Total(a + b) == Total(a) + Total(b)
  {
    if b == [] {
      assert a + b == a;
    } else {
      var n := |b| - 1;
      TotalAppend(a, b[..n]);
      assert (a + b)[..|a + b| - 1] == a + b[..n];
    }
  }

  /** With TotalAppend: the total is the sum of what the members hold. */
  lemma TotalOfOne(pv: PV)
    ensures Total([pv]) == pv.used && Total([]) == 0
  {
    assert [pv][..0] == [];
  }

  lemma {:induction false} EmptyOnesHoldNothing(pvs: seq<PV>)
    requires forall i :: 0 <= i < |pvs| ==> pvs[i].used == 0
    ensures Total(pvs) == 0
  {
    if pvs != [] {
      EmptyOnesHoldNothing(pvs[..|pvs| - 1]);
    }
  }

  lemma JoiningKeepsTotal(pvs: seq<PV>, resolved: map<string, string>, devs: seq<string>)
    ensures Total(Joined(pvs, resolved, devs)) == Total(pvs)
  {
    var newcomers := seq(|devs|, i requires 0 <= i < |devs| => PV(Kernel(resolved, devs[i]), false, 0));
    TotalAppend(pvs, newcomers);
    EmptyOnesHoldNothing(newcomers);
  }

  ghost predicate NoneHeld(pvs: seq<PV>, names: set<string>) {
    forall pv :: pv in pvs && !pv.missing && pv.name in names ==> pv.used == 0
  }

  lemma {:induction false} DroppingKeepsTotal(pvs: seq<PV>, names: set<string>)
    requires NoneHeld(pvs, names)
    ensures Total(Without(pvs, names)) == Total(pvs)
  {
    if pvs != [] {
      var n := |pvs| - 1;
      assert pvs == pvs[..n] + [pvs[n]];
      DroppingKeepsTotal(pvs[..n], names);
      var kept := if !pvs[n].missing && pvs[n].name in names then [] else [pvs[n]];
      TotalAppend(Without(pvs[..n], names), kept);
      if kept != [] {
        assert kept[..0] == [];
      }
    }
  }

  lemma {:induction false} WithoutIs(pvs: seq<PV>, names: set<string>, pv: PV)
    ensures pv in Without(pvs, names) <==> pv in pvs && (pv.missing || pv.name !in names)
  {
    if pvs != [] {
      var n := |pvs| - 1;
      WithoutIs(pvs[..n], names, pv);
      assert pvs == pvs[..n] + [pvs[n]];
    }
  }

  function DropAll(pvs: seq<PV>, names: seq<string>): seq<PV> {
    if names == [] then pvs else Without(DropAll(pvs, names[..|names| - 1]), {names[|names| - 1]})
  }

  /** An extent-holding member is never lost, and extents are never lost. */
  ghost predicate Preserved(before: seq<PV>, after: seq<PV>) {
    Total(after) == Total(before) && forall pv :: pv in before && pv.used > 0 ==> pv in after
  }

  lemma PreservedTransitive(a: seq<PV>, b: seq<PV>, c: seq<PV>)
    requires Preserved(a, b) && Preserved(b, c)
    ensures Preserved(a, c)
  {
  }

  lemma JoiningPreserves(pvs: seq<PV>, resolved: map<string, string>, devs: seq<string>)
    ensures Preserved(pvs, Joined(pvs, resolved, devs))
  {
    JoiningKeepsTotal(pvs, resolved, devs);
  }

  lemma DroppingPreserves(pvs: seq<PV>, names: set<string>)
    requires NoneHeld(pvs, names)
    ensures Preserved(pvs, Without(pvs, names))
  {
    DroppingKeepsTotal(pvs, names);
    forall pv | pv in pvs && pv.used > 0
      ensures pv in Without(pvs, names)
    {
      WithoutIs(pvs, names, pv);
    }
  }

  /** pvmove once per member; one already running keeps its destination. */
  function Started(moves: map<string, string>, names: seq<string>, dst: string): map<string, string> {
    if names == [] then moves
    else
      var before, name := Started(moves, names[..|names| - 1], dst), names[|names| - 1];
      if name in before then before else before[name := dst]
  }

  /** Every named member is on the move, a new move to the destination, a running one where it was going. */
  lemma {:induction false} StartedMeans(moves: map<string, string>, names: seq<string>, dst: string)
    ensures var after := Started(moves, names, dst);
      forall n :: (n in after <==> n in moves || n in names) &&
        (n in after ==> after[n] == if n in moves then moves[n] else dst)
  {
    if names != [] {
      StartedMeans(moves, names[..|names| - 1], dst);
      assert names == names[..|names| - 1] + [names[|names| - 1]];
    }
  }

  /** The one new disk, at its own path, if there is exactly one. */
  lemma DestinationMeans(resolved: map<string, string>, plan: Plan)
    ensures |plan.add| == 1 ==> At(resolved, plan.add[0], Destination(resolved, plan))
    ensures |plan.add| != 1 ==> Destination(resolved, plan) == ""
  {
  }

  function Destination(resolved: map<string, string>, plan: Plan): string {
    if |plan.add| == 1 then Kernel(resolved, plan.add[0]) else ""
  }

  /** None of the devices is a member yet, and no two are the same disk. */
  ghost predicate Joinable(pvs: seq<PV>, resolved: map<string, string>, devs: seq<string>) {
    DistinctDevices(devs, resolved) && forall i :: 0 <= i < |devs| ==> Kernel(resolved, devs[i]) !in Live(pvs)
  }

  lemma StillJoinable(pvs: seq<PV>, resolved: map<string, string>, devs: seq<string>, i: nat)
    requires Joinable(pvs, resolved, devs) && i < |devs|
    ensures Kernel(resolved, devs[i]) !in Live(Joined(pvs, resolved, devs[..i]))
  {
    var joined := Joined(pvs, resolved, devs[..i]);
    assert forall k :: 0 <= k < |pvs| ==> joined[k] in pvs;
    assert forall k :: |pvs| <= k < |joined| ==> joined[k].name == Kernel(resolved, devs[k - |pvs|]);
  }

  /** At most one member, live and holding nothing. */
  ghost predicate Droppable(pvs: seq<PV>, names: seq<string>) {
    |names| <= 1 && (names != [] ==> names[0] in Live(pvs) && NoneHeld(pvs, {names[0]}))
  }

  /** The host refuses none of the plan's commands. */
  ghost predicate Executable(pvs: seq<PV>, resolved: map<string, string>, plan: Plan) {
    Joinable(pvs, resolved, plan.add) && Droppable(pvs, plan.drop)
  }

  lemma DropStillAllowed(pvs: seq<PV>, resolved: map<string, string>, plan: Plan)
    requires Executable(pvs, resolved, plan) && plan.drop != []
    ensures var joined := Joined(pvs, resolved, plan.add);
      plan.drop[0] in Live(joined) && NoneHeld(joined, {plan.drop[0]})
  {
    var joined := Joined(pvs, resolved, plan.add);
    var pv :| pv in pvs && !pv.missing && pv.name == plan.drop[0];
    assert pv in joined;
    forall q | q in joined && !q.missing && q.name in {plan.drop[0]}
      ensures q.used == 0
    {
      var k :| 0 <= k < |joined| && joined[k] == q;
      if k < |pvs| {
        assert q in pvs;
      }
    }
  }

  class VolumeGroup {
    var pvs: seq<PV>
    var moves: map<string, string>

    constructor (members: seq<PV>)
      ensures pvs == members && moves == map[]
    {
      pvs, moves := members, map[];
    }

    /** vgextend, which refuses a device that is already a member. */
    method Extend(resolved: map<string, string>, dev: string) returns (ok: bool)
      modifies this`pvs
      ensures ok == (Kernel(resolved, dev) !in Live(old(pvs)))
      ensures pvs == if ok then Joined(old(pvs), resolved, [dev]) else old(pvs)
    {
      var name := Kernel(resolved, dev);
      ok := name !in Live(pvs);
      if ok {
        pvs := pvs + [PV(name, false, 0)];
      }
    }

    /** vgreduce refuses a member holding extents. */
    method Reduce(name: string) returns (ok: bool)
      modifies this`pvs
      ensures ok == (name in Live(old(pvs)) && NoneHeld(old(pvs), {name}))
      ensures pvs == if ok then Without(old(pvs), {name}) else old(pvs)
    {
      var holds := exists pv :: pv in pvs && !pv.missing && pv.name in {name} && pv.used != 0;
      ok := name in Live(pvs) && !holds;
      if ok {
        pvs := Without(pvs, {name});
      }
    }

    method JoinAll(resolved: map<string, string>, devs: seq<string>, commands: nat) returns (ok: bool, left: nat)
      modifies this`pvs
      ensures exists n :: 0 <= n <= |devs| && (ok ==> n == |devs|) && pvs == Joined(old(pvs), resolved, devs[..n])
      ensures commands >= |devs| && Joinable(old(pvs), resolved, devs) ==> ok && left == commands - |devs|
    {
      left := commands;
      for i := 0 to |devs|
        invariant left == commands - i
        invariant pvs == Joined(old(pvs), resolved, devs[..i])
      {
        if left == 0 {
          return false, left;
        }
        left := left - 1;
        if Joinable(old(pvs), resolved, devs) {
          StillJoinable(old(pvs), resolved, devs, i);
        }
        ok := Extend(resolved, devs[i]);
        if !ok {
          return false, left;
        }
        assert devs[..i + 1] == devs[..i] + [devs[i]];
      }
      return true, left;
    }

    /** pvmove in the background; one already running is not an error. */
    method EvacuateAll(names: seq<string>, dst: string, commands: nat) returns (ok: bool, left: nat)
      modifies this`moves
      ensures ok ==> moves == Started(old(moves), names, dst)
      ensures commands >= |names| ==> ok && left == commands - |names|
    {
      left := commands;
      for i := 0 to |names|
        invariant left == commands - i
        invariant moves == Started(old(moves), names[..i], dst)
      {
        assert names[..i + 1][..i] == names[..i];
        if left == 0 {
          return false, left;
        }
        left := left - 1;
        if names[i] !in moves {
          moves := moves[names[i] := dst];
        }
      }
      assert names[..|names|] == names;
      return true, left;
    }

    method DropMembers(names: seq<string>, commands: nat) returns (ok: bool)
      modifies this`pvs
      ensures Preserved(old(pvs), pvs)
      ensures ok ==> pvs == DropAll(old(pvs), names)
      ensures commands >= |names| && Droppable(old(pvs), names) ==> ok
    {
      var left := commands;
      for i := 0 to |names|
        invariant left == commands - i && Preserved(old(pvs), pvs)
        invariant pvs == DropAll(old(pvs), names[..i])
      {
        if left == 0 {
          return false;
        }
        left := left - 1;
        ghost var before := pvs;
        var reduced := Reduce(names[i]);
        if !reduced {
          return false;
        }
        DroppingPreserves(before, {names[i]});
        PreservedTransitive(old(pvs), before, pvs);
        assert names[..i + 1][..i] == names[..i];
      }
      assert names[..|names|] == names;
      return true;
    }

    /**
     The replacement joins first so the move has somewhere to go. The pass stops
     at the first failing command; even then no extent and no member holding one is lost.
     */
    method ConvergeDevices(resolved: map<string, string>, plan: Plan, commands: nat) returns (ok: bool)
      modifies this
      ensures Preserved(old(pvs), pvs)
      ensures ok ==> pvs == DropAll(Joined(old(pvs), resolved, plan.add), plan.drop)
      ensures ok ==> moves == Started(old(moves), plan.evacuate, Destination(resolved, plan))
      ensures commands >= |plan.add| + |plan.evacuate| + |plan.drop| && Executable(old(pvs), resolved, plan) ==> ok
    {
      var left;
      ok, left := JoinAll(resolved, plan.add, commands);
      ghost var n :| 0 <= n <= |plan.add| && (ok ==>
        n == |plan.add|) && pvs == Joined(old(pvs), resolved, plan.add[..n]);
      JoiningPreserves(old(pvs), resolved, plan.add[..n]);
      if !ok {
        return;
      }
      assert plan.add[..n] == plan.add;
      var dst := Destination(resolved, plan);
      ok, left := EvacuateAll(plan.evacuate, dst, left);
      if !ok {
        return;
      }
      ghost var joined := pvs;
      if Executable(old(pvs), resolved, plan) && plan.drop != [] {
        DropStillAllowed(old(pvs), resolved, plan);
      }
      ok := DropMembers(plan.drop, left);
      PreservedTransitive(old(pvs), joined, pvs);
    }
  }

  // ---- repeated passes converge --------------------------------------------------------

  ghost predicate Healthy(pvs: seq<PV>) {
    && (forall i, j :: 0 <= i < j < |pvs| ==> pvs[i].name != pvs[j].name)
    && (forall i :: 0 <= i < |pvs| ==> !pvs[i].missing)
  }

  ghost predicate DistinctDevices(spec: seq<string>, resolved: map<string, string>) {
    forall i, j :: 0 <= i < j < |spec| ==> Kernel(resolved, spec[i]) != Kernel(resolved, spec[j])
  }

  /** One disk is being swapped: at most one live member lies outside the spec. */
  ghost predicate OneSwap(spec: seq<string>, resolved: map<string, string>, pvs: seq<PV>) {
    var want := Want(spec, resolved);
    Healthy(pvs) && forall a, b :: a in pvs && b in pvs && a.name !in want && b.name !in want ==> a == b
  }

  /** The group and the moves that run in the background, each with its destination. */
  datatype Group = Group(pvs: seq<PV>, moves: map<string, string>)

  /** What a pass makes of the group when nothing fails and the replacements are there. */
  function PassOf(spec: seq<string>, resolved: map<string, string>, g: Group): Group {
    var plan := PlanOf(spec, resolved, g.pvs);
    Group(DropAll(Joined(g.pvs, resolved, plan.add), plan.drop),
          Started(g.moves, plan.evacuate, Destination(resolved, plan)))
  }

  predicate Drained(pvs: seq<PV>, src: string) {
    forall pv :: pv in pvs && pv.name == src ==> pv.used == 0
  }

  /**
   A running pvmove gets on: its source loses extents, nobody else does, and with a destination given only that gains.
   */
  ghost predicate Moved(g: Group, after: Group, src: string) {
    && src in g.moves && |after.pvs| == |g.pvs| && Total(after.pvs) == Total(g.pvs)
    && (forall i :: 0 <= i < |g.pvs| ==> MovedAt(g.pvs[i], after.pvs[i], src, g.moves[src]))
    && after.moves == if Drained(after.pvs, src) then g.moves - {src} else g.moves
  }

  predicate MovedAt(b: PV, a: PV, src: string, dst: string) {
    && a.name == b.name && a.missing == b.missing
    && (if b.name == src then a.used < b.used else a.used >= b.used)
    && (dst != "" && b.name != src && b.name != dst ==> a.used == b.used)
  }

  /** One disk is being swapped, and only its extents are on the move, once all spec devices have joined. */
  ghost predicate Swapping(spec: seq<string>, resolved: map<string, string>, g: Group) {
    && OneSwap(spec, resolved, g.pvs) && DistinctDevices(spec, resolved)
    && (forall src :: src in g.moves ==>
      src !in Want(spec, resolved) && exists pv :: pv in g.pvs && pv.name == src && pv.used > 0)
    && (g.moves != map[] ==> Want(spec, resolved) <= Live(g.pvs))
  }

  function Outside(pvs: seq<PV>, want: set<string>): nat {
    if pvs == [] then 0
    else Outside(pvs[..|pvs| - 1], want) + if pvs[|pvs| - 1].name in want then 0 else pvs[|pvs| - 1].used
  }

  /** What is left to do: joins, the start of the move, its extents, its end and the drop. */
  ghost function Work(spec: seq<string>, resolved: map<string, string>, g: Group): nat {
    var plan := PlanOf(spec, resolved, g.pvs);
    |plan.add| + |plan.drop| + Outside(g.pvs, Want(spec, resolved)) +
    if plan.evacuate == [] then 0 else if plan.evacuate[0] in g.moves then 2 else 3
  }

  lemma {:induction false} OutsidersListedOnce(pvs: seq<PV>, want: set<string>, holding: bool)
    requires Healthy(pvs)
    ensures var names := Outsiders(pvs, want, holding); forall i, j :: 0 <= i < j < |names| ==> names[i] != names[j]
  {
    if pvs != [] {
      var n := |pvs| - 1;
      OutsidersListedOnce(pvs[..n], want, holding);
      OutsidersAre(pvs[..n], want, holding, pvs[n].name);
      var earlier := Outsiders(pvs[..n], want, holding);
      assert forall i :: 0 <= i < |earlier| ==> earlier[i] in earlier;
    }
  }

  /** With one swap there is at most one outsider, listed once, on one of the two lists. */
  lemma AtMostOneOutsider(spec: seq<string>, resolved: map<string, string>, pvs: seq<PV>)
    requires OneSwap(spec, resolved, pvs)
    ensures var plan := PlanOf(spec, resolved, pvs); |plan.evacuate| + |plan.drop| <= 1 && !plan.missing
  {
    var want, plan := Want(spec, resolved), PlanOf(spec, resolved, pvs);
    AnyMissingIs(pvs);
    OutsiderListIsShort(spec, resolved, pvs, true);
    OutsiderListIsShort(spec, resolved, pvs, false);
    if plan.evacuate != [] && plan.drop != [] {
      var a, b := plan.evacuate[0], plan.drop[0];
      assert a in plan.evacuate && b in plan.drop;
      OutsidersAre(pvs, want, true, a);
      OutsidersAre(pvs, want, false, b);
    }
  }

  lemma OutsiderListIsShort(spec: seq<string>, resolved: map<string, string>, pvs: seq<PV>, holding: bool)
    requires OneSwap(spec, resolved, pvs)
    ensures |Outsiders(pvs, Want(spec, resolved), holding)| <= 1
  {
    var want := Want(spec, resolved);
    var names := Outsiders(pvs, want, holding);
    OutsidersListedOnce(pvs, want, holding);
    if |names| > 1 {
      OutsidersAre(pvs, want, holding, names[0]);
      OutsidersAre(pvs, want, holding, names[1]);
    }
  }

  lemma {:induction false} AbsenteesDistinct(spec: seq<string>, resolved: map<string, string>, present: set<string>)
    requires DistinctDevices(spec, resolved)
    ensures DistinctDevices(Absentees(spec, resolved, present), resolved)
  {
    if spec != [] {
      var n := |spec| - 1;
      AbsenteesDistinct(spec[..n], resolved, present);
      var earlier := Absentees(spec[..n], resolved, present);
      forall i | 0 <= i < |earlier|
        ensures Kernel(resolved, earlier[i]) != Kernel(resolved, spec[n])
      {
        AbsenteesAre(spec[..n], resolved, present, earlier[i]);
        assert earlier[i] in earlier;
      }
    }
  }

  lemma AddedAre(spec: seq<string>, resolved: map<string, string>, pvs: seq<PV>, i: nat)
    requires i < |PlanOf(spec, resolved, pvs).add|
    ensures var k := Kernel(resolved, PlanOf(spec, resolved, pvs).add[i]); k in Want(spec, resolved) && k !in Live(pvs)
  {
    var add := PlanOf(spec, resolved, pvs).add;
    assert add[i] in add;
    AbsenteesAre(spec, resolved, Live(pvs), add[i]);
  }

  /** While one disk is swapped, the host refuses nothing the plan asks for. */
  lemma SwapIsExecutable(spec: seq<string>, resolved: map<string, string>, pvs: seq<PV>)
    requires OneSwap(spec, resolved, pvs) && DistinctDevices(spec, resolved)
    ensures Executable(pvs, resolved, PlanOf(spec, resolved, pvs))
  {
    var plan := PlanOf(spec, resolved, pvs);
    AtMostOneOutsider(spec, resolved, pvs);
    AbsenteesDistinct(spec, resolved, Live(pvs));
    forall i | 0 <= i < |plan.add|
      ensures Kernel(resolved, plan.add[i]) !in Live(pvs)
    {
      AddedAre(spec, resolved, pvs, i);
    }
    if plan.drop != [] {
      assert plan.drop[0] in plan.drop;
      OutsidersAre(pvs, Want(spec, resolved), false, plan.drop[0]);
    }
  }

  lemma JoinedHealthy(spec: seq<string>, resolved: map<string, string>, pvs: seq<PV>)
    requires Healthy(pvs) && DistinctDevices(spec, resolved)
    ensures Healthy(Joined(pvs, resolved, PlanOf(spec, resolved, pvs).add))
  {
    var add := PlanOf(spec, resolved, pvs).add;
    AbsenteesDistinct(spec, resolved, Live(pvs));
    forall i | 0 <= i < |add|
      ensures forall j :: 0 <= j < |pvs| ==> pvs[j].name != Kernel(resolved, add[i])
    {
      AddedAre(spec, resolved, pvs, i);
      forall j | 0 <= j < |pvs|
        ensures pvs[j].name in Live(pvs)
      {
        assert pvs[j] in pvs;
      }
    }
  }

  /** Nothing outside the spec joins. */
  lemma JoinedOutsiders(spec: seq<string>, resolved: map<string, string>, pvs: seq<PV>, pv: PV)
    requires pv.name !in Want(spec, resolved)
    ensures pv in Joined(pvs, resolved, PlanOf(spec, resolved, pvs).add) <==> pv in pvs
  {
    var add := PlanOf(spec, resolved, pvs).add;
    forall i | 0 <= i < |add|
      ensures Kernel(resolved, add[i]) != pv.name
    {
      AddedAre(spec, resolved, pvs, i);
    }
  }

  /** After the joins every spec device is a live member. */
  lemma JoinedCoversSpec(spec: seq<string>, resolved: map<string, string>, pvs: seq<PV>)
    ensures Want(spec, resolved) <= Live(Joined(pvs, resolved, PlanOf(spec, resolved, pvs).add))
  {
    var add := PlanOf(spec, resolved, pvs).add;
    var joined := Joined(pvs, resolved, add);
    forall d | d in spec
      ensures Kernel(resolved, d) in Live(joined)
    {
      AbsenteesAre(spec, resolved, Live(pvs), d);
      if Kernel(resolved, d) in Live(pvs) {
        var pv :| pv in pvs && !pv.missing && pv.name == Kernel(resolved, d);
        assert pv in joined;
      } else {
        var i :| 0 <= i < |add| && add[i] == d;
        assert joined[|pvs| + i] in joined;
      }
    }
  }

  lemma {:induction false} WithoutHealthy(pvs: seq<PV>, names: set<string>)
    requires Healthy(pvs)
    ensures Healthy(Without(pvs, names))
  {
    if pvs != [] {
      var n := |pvs| - 1;
      WithoutHealthy(pvs[..n], names);
      var kept := Without(pvs[..n], names);
      forall i | 0 <= i < |kept|
        ensures kept[i].name != pvs[n].name && !kept[i].missing
      {
        WithoutIs(pvs[..n], names, kept[i]);
        assert kept[i] in kept;
      }
    }
  }

  lemma CoveredNeedsNothing(spec: seq<string>, resolved: map<string, string>, pvs: seq<PV>)
    requires Want(spec, resolved) <= Live(pvs)
    ensures PlanOf(spec, resolved, pvs).add == []
  {
    var add := PlanOf(spec, resolved, pvs).add;
    if add != [] {
      AddedAre(spec, resolved, pvs, 0);
    }
  }

  lemma NoOutsiders(pvs: seq<PV>, want: set<string>, holding: bool)
    requires forall pv :: pv in pvs && !pv.missing && pv.name !in want ==> (pv.used > 0) != holding
    ensures Outsiders(pvs, want, holding) == []
  {
    var names := Outsiders(pvs, want, holding);
    if names != [] {
      OutsidersAre(pvs, want, holding, names[0]);
    }
  }

  /** No move needed: the pass joins, drops the empty outsider if there is one, and is done. */
  lemma PassWithoutMove(spec: seq<string>, resolved: map<string, string>, before: seq<PV>)
    requires OneSwap(spec, resolved, before) && DistinctDevices(spec, resolved)
    requires PlanOf(spec, resolved, before).evacuate == []
    ensures var plan := PlanOf(spec, resolved, before);
      var after := DropAll(Joined(before, resolved, plan.add), plan.drop);
      && OneSwap(spec, resolved, after) && Total(after) == Total(before)
      && Empty(PlanOf(spec, resolved, after)) && (forall pv :: pv in after ==> pv.name in Want(spec, resolved))
  {
    var plan, want := PlanOf(spec, resolved, before), Want(spec, resolved);
    var joined := Joined(before, resolved, plan.add);
    var after := DropAll(joined, plan.drop);
    AtMostOneOutsider(spec, resolved, before);
    JoinedHealthy(spec, resolved, before);
    JoinedCoversSpec(spec, resolved, before);
    JoiningKeepsTotal(before, resolved, plan.add);
    var gone := set n | n in plan.drop;
    DroppedRound(joined, plan.drop);
    assert after == Without(joined, gone);
    WithoutHealthy(joined, gone);
    forall pv | pv in joined
      ensures pv.name !in want ==> pv in before && pv.used == 0 && pv.name in gone
      ensures pv.name in want ==> pv.name !in gone
    {
      OutsidersAre(before, want, true, pv.name);
      OutsidersAre(before, want, false, pv.name);
      if pv.name !in want {
        JoinedOutsiders(spec, resolved, before, pv);
      }
    }
    DroppingKeepsTotal(joined, gone);
    forall pv
      ensures pv in after <==> pv in joined && pv.name in want
    {
      WithoutIs(joined, gone, pv);
    }
    assert Live(after) >= want;
    CoveredNeedsNothing(spec, resolved, after);
    NoOutsiders(after, want, true);
    NoOutsiders(after, want, false);
    AnyMissingIs(after);
  }

  lemma DroppedRound(pvs: seq<PV>, names: seq<string>)
    requires |names| <= 1
    ensures DropAll(pvs, names) == Without(pvs, set n | n in names)
  {
    if names == [] {
      WithoutNothing(pvs);
      assert (set n | n in names) == {};
    } else {
      assert names[..0] == [];
      assert (set n | n in names) == {names[0]};
    }
  }

  lemma {:induction false} WithoutNothing(pvs: seq<PV>)
    ensures Without(pvs, {}) == pvs
  {
    if pvs != [] {
      WithoutNothing(pvs[..|pvs| - 1]);
    }
  }

  /** All outsiders of the joined group are the one being evacuated. */
  lemma OnlySourceIsOutside(spec: seq<string>, resolved: map<string, string>, pvs: seq<PV>, i: nat)
    requires OneSwap(spec, resolved, pvs) && PlanOf(spec, resolved, pvs).evacuate != []
    requires i < |Joined(pvs, resolved, PlanOf(spec, resolved, pvs).add)|
    ensures var pv := Joined(pvs, resolved, PlanOf(spec, resolved, pvs).add)[i];
      pv.name !in Want(spec, resolved) ==> pv.name == PlanOf(spec, resolved, pvs).evacuate[0]
  {
    var plan := PlanOf(spec, resolved, pvs);
    var joined := Joined(pvs, resolved, plan.add);
    assert joined[i] in joined && plan.evacuate[0] in plan.evacuate;
    OutsidersAre(pvs, Want(spec, resolved), true, plan.evacuate[0]);
    if joined[i].name !in Want(spec, resolved) {
      JoinedOutsiders(spec, resolved, pvs, joined[i]);
    }
  }

  lemma SameNamesSameLive(a: seq<PV>, b: seq<PV>)
    requires |a| == |b| && forall i :: 0 <= i < |a| ==> a[i].name == b[i].name && a[i].missing == b[i].missing
    ensures Live(a) == Live(b)
  {
    forall n | n in Live(a)
      ensures n in Live(b)
    {
      var i :| 0 <= i < |a| && a[i].name == n && !a[i].missing;
      assert b[i] in b;
    }
    forall n | n in Live(b)
      ensures n in Live(a)
    {
      var i :| 0 <= i < |b| && b[i].name == n && !b[i].missing;
      assert a[i] in a;
    }
  }

  /** Devices absent from the host cannot join. */
  function OnHost(devs: seq<string>, block: set<string>): (live: seq<string>)
    ensures (forall i :: 0 <= i < |devs| ==> devs[i] in block) ==> live == devs
    ensures forall d :: d in live <==> d in devs && d in block
  {
    if devs == [] then []
    else
      var n := |devs| - 1;
      assert devs == devs[..n] + [devs[n]];
      OnHost(devs[..n], block) + if devs[n] in block then [devs[n]] else []
  }

  method KeepOnHost(devs: seq<string>, block: set<string>) returns (live: seq<string>)
    ensures live == OnHost(devs, block)
  {
    live := [];
    for i := 0 to |devs|
      invariant live == OnHost(devs[..i], block)
    {
      assert devs[..i + 1][..i] == devs[..i];
      if devs[i] in block {
        live := live + [devs[i]];
      }
    }
    assert devs[..|devs|] == devs;
  }

  function Length(plan: Plan): nat { |plan.add| + |plan.evacuate| + |plan.drop| }

  /** The replacement disks are there. */
  ghost predicate Replaceable(spec: seq<string>, resolved: map<string, string>, pvs: seq<PV>, block: set<string>) {
    var add := PlanOf(spec, resolved, pvs).add;
    OneSwap(spec, resolved, pvs) && DistinctDevices(spec, resolved) && forall i :: 0 <= i < |add| ==> add[i] in block
  }

  /**
   The membership part of one pass. Nothing is ever lost; with live replacements
   and enough successful commands it is a pass of the histories below.
   */
  method PoolPass(
      vg: VolumeGroup, spec: seq<string>, resolved: map<string, string>, block: set<string>, commands: nat)
    returns (ok: bool)
    modifies vg
    ensures Preserved(old(vg.pvs), vg.pvs)
    ensures ok ==> var plan := PlanOf(spec, resolved, old(vg.pvs));
      vg.pvs == DropAll(Joined(old(vg.pvs), resolved, OnHost(plan.add, block)), plan.drop)
    ensures Replaceable(spec, resolved, old(vg.pvs), block) ==>
      commands >= Length(PlanOf(spec, resolved, old(vg.pvs))) ==> ok
    ensures ok && Replaceable(spec, resolved, old(vg.pvs), block) ==>
      Group(vg.pvs, vg.moves) == PassOf(spec, resolved, Group(old(vg.pvs), old(vg.moves)))
  {
    var plan := PlanDevices(spec, resolved, vg.pvs);
    if Replaceable(spec, resolved, vg.pvs, block) {
      SwapIsExecutable(spec, resolved, vg.pvs);
    }
    var live := KeepOnHost(plan.add, block);
    plan := plan.(add := live);
    if Empty(plan) {
      assert Joined(vg.pvs, resolved, []) == vg.pvs;
      return true;
    }
    ok := vg.ConvergeDevices(resolved, plan, commands);
  }

  // ---- passes while a move is running ---------------------------------------------------

  lemma {:induction false} NothingOutside(pvs: seq<PV>, want: set<string>)
    requires forall pv :: pv in pvs ==> pv.name in want
    ensures Outside(pvs, want) == 0
  {
    if pvs != [] {
      assert pvs[|pvs| - 1] in pvs;
      assert forall pv :: pv in pvs[..|pvs| - 1] ==> pv in pvs;
      NothingOutside(pvs[..|pvs| - 1], want);
    }
  }

  lemma {:induction false} OutsideOfJoined(pvs: seq<PV>, joining: seq<PV>, want: set<string>)
    requires forall i :: 0 <= i < |joining| ==> joining[i].used == 0
    ensures Outside(pvs + joining, want) == Outside(pvs, want)
    decreases |joining|
  {
    if joining == [] {
      assert pvs + joining == pvs;
    } else {
      var n := |joining| - 1;
      OutsideOfJoined(pvs, joining[..n], want);
      assert (pvs + joining)[..|pvs + joining| - 1] == pvs + joining[..n];
    }
  }

  lemma {:induction false} OutsideShrinks(before: seq<PV>, after: seq<PV>, src: string, dst: string, want: set<string>)
    requires |before| == |after| && src !in want && forall i :: 0 <= i < |before| ==>
      MovedAt(before[i], after[i], src, dst)
    requires forall i :: 0 <= i < |before| ==> before[i].name in want || before[i].name == src
    ensures Outside(after, want) <= Outside(before, want)
    ensures (exists pv :: pv in before && pv.name == src) ==> Outside(after, want) < Outside(before, want)
  {
    if before != [] {
      var n := |before| - 1;
      assert before == before[..n] + [before[n]];
      OutsideShrinks(before[..n], after[..n], src, dst, want);
    }
  }

  lemma MoverIsOnlyOutsider(spec: seq<string>, resolved: map<string, string>, g: Group, src: string)
    requires Swapping(spec, resolved, g) && src in g.moves
    ensures g.moves.Keys == {src}
    ensures forall i :: 0 <= i < |g.pvs| ==> g.pvs[i].name in Want(spec, resolved) || g.pvs[i].name == src
  {
    var pv :| pv in g.pvs && pv.name == src && pv.used > 0;
    forall x | x in g.moves
      ensures x == src
    {
      var q :| q in g.pvs && q.name == x && q.used > 0;
    }
    forall i | 0 <= i < |g.pvs|
      ensures g.pvs[i].name in Want(spec, resolved) || g.pvs[i].name == src
    {
      assert g.pvs[i] in g.pvs;
    }
  }

  /** The one member a move runs for is the plan's only outsider. */
  lemma RunningPlan(spec: seq<string>, resolved: map<string, string>, g: Group, src: string)
    requires Swapping(spec, resolved, g) && src in g.moves
    ensures var plan := PlanOf(spec, resolved, g.pvs); plan.add == [] && plan.evacuate == [src] && plan.drop == []
    ensures g.moves.Keys == {src}
    ensures forall i :: 0 <= i < |g.pvs| ==> g.pvs[i].name in Want(spec, resolved) || g.pvs[i].name == src
  {
    MoverIsOnlyOutsider(spec, resolved, g, src);
    CoveredNeedsNothing(spec, resolved, g.pvs);
    AtMostOneOutsider(spec, resolved, g.pvs);
    OutsidersAre(g.pvs, Want(spec, resolved), true, src);
  }

  lemma StartedOnce(moves: map<string, string>, name: string, dst: string)
    ensures Started(moves, [name], dst) == if name in moves then moves else moves[name := dst]
  {
    assert [name][..0] == [];
  }

  /** While the move runs, a pass changes nothing. */
  lemma RunningPassIsIdle(spec: seq<string>, resolved: map<string, string>, g: Group)
    requires Swapping(spec, resolved, g) && g.moves != map[]
    ensures PassOf(spec, resolved, g) == g
  {
    var src :| src in g.moves;
    RunningPlan(spec, resolved, g, src);
    StartedOnce(g.moves, src, Destination(resolved, PlanOf(spec, resolved, g.pvs)));
    assert Joined(g.pvs, resolved, []) == g.pvs;
  }

  /** The joined group of a swap whose outgoing member still holds extents. */
  lemma JoinedForMove(spec: seq<string>, resolved: map<string, string>, pvs: seq<PV>)
    requires OneSwap(spec, resolved, pvs) && DistinctDevices(spec, resolved)
    requires PlanOf(spec, resolved, pvs).evacuate != []
    ensures var plan := PlanOf(spec, resolved, pvs);
      var joined := Joined(pvs, resolved, plan.add);
      && plan.drop == [] && |plan.evacuate| == 1
      && Healthy(joined) && Want(spec, resolved) <= Live(joined) && Total(joined) == Total(pvs)
      && Outside(joined, Want(spec, resolved)) == Outside(pvs, Want(spec, resolved))
      && plan.evacuate[0] !in Want(spec, resolved)
      && (exists pv :: pv in joined && pv.name == plan.evacuate[0] && pv.used > 0)
      && (forall i :: 0 <= i < |joined| ==>
        joined[i].name in Want(spec, resolved) || joined[i].name == plan.evacuate[0])
  {
    var plan, want := PlanOf(spec, resolved, pvs), Want(spec, resolved);
    var joined := Joined(pvs, resolved, plan.add);
    AtMostOneOutsider(spec, resolved, pvs);
    JoinedHealthy(spec, resolved, pvs);
    JoinedCoversSpec(spec, resolved, pvs);
    JoiningKeepsTotal(pvs, resolved, plan.add);
    OutsideOfJoined(pvs, joined[|pvs|..], want);
    assert joined == pvs + joined[|pvs|..];
    assert plan.evacuate[0] in plan.evacuate;
    OutsidersAre(pvs, want, true, plan.evacuate[0]);
    forall i | 0 <= i < |joined|
      ensures joined[i].name in want || joined[i].name == plan.evacuate[0]
    {
      OnlySourceIsOutside(spec, resolved, pvs, i);
    }
  }

  lemma HealthyOneSwap(spec: seq<string>, resolved: map<string, string>, pvs: seq<PV>, src: string)
    requires Healthy(pvs) && forall i :: 0 <= i < |pvs| ==> pvs[i].name in Want(spec, resolved) || pvs[i].name == src
    ensures OneSwap(spec, resolved, pvs)
  {
  }

  lemma StartedSwap(spec: seq<string>, resolved: map<string, string>, joined: seq<PV>, src: string, dst: string)
    requires Healthy(joined) && DistinctDevices(spec, resolved) && Want(spec, resolved) <= Live(joined)
    requires src !in Want(spec, resolved)
    requires exists pv :: pv in joined && pv.name == src && pv.used > 0
    requires forall i :: 0 <= i < |joined| ==> joined[i].name in Want(spec, resolved) || joined[i].name == src
    ensures Swapping(spec, resolved, Group(joined, map[src := dst]))
    ensures Work(spec, resolved, Group(joined, map[src := dst])) == Outside(joined, Want(spec, resolved)) + 2
  {
    HealthyOneSwap(spec, resolved, joined, src);
    RunningPlan(spec, resolved, Group(joined, map[src := dst]), src);
  }

  /** The pass that starts the move. */
  lemma StartingPass(spec: seq<string>, resolved: map<string, string>, g: Group)
    requires Swapping(spec, resolved, g) && g.moves == map[] && PlanOf(spec, resolved, g.pvs).evacuate != []
    ensures var after := PassOf(spec, resolved, g);
      && Swapping(spec, resolved, after) && Total(after.pvs) == Total(g.pvs)
      && Work(spec, resolved, after) < Work(spec, resolved, g)
  {
    var plan := PlanOf(spec, resolved, g.pvs);
    var src, dst, joined := plan.evacuate[0], Destination(resolved, plan), Joined(g.pvs, resolved, plan.add);
    JoinedForMove(spec, resolved, g.pvs);
    assert plan.evacuate == [src];
    StartedOnce(g.moves, src, dst);
    assert PassOf(spec, resolved, g) == Group(joined, map[src := dst]);
    StartedSwap(spec, resolved, joined, src, dst);
  }

  /** The pass that needs no move finishes the swap. */
  lemma FinishingPass(spec: seq<string>, resolved: map<string, string>, g: Group)
    requires Swapping(spec, resolved, g) && g.moves == map[] && PlanOf(spec, resolved, g.pvs).evacuate == []
    ensures var after := PassOf(spec, resolved, g);
      Swapping(spec, resolved, after) && Total(after.pvs) == Total(g.pvs) && Work(spec, resolved, after) == 0
    ensures Work(spec, resolved, g) == 0 ==> PassOf(spec, resolved, g) == g && Empty(PlanOf(spec, resolved, g.pvs))
  {
    var after := PassOf(spec, resolved, g);
    PassWithoutMove(spec, resolved, g.pvs);
    NothingOutside(after.pvs, Want(spec, resolved));
    AtMostOneOutsider(spec, resolved, g.pvs);
    assert Joined(g.pvs, resolved, []) == g.pvs;
  }

  /**
   A pass keeps the swap going and every extent; it leaves less to do, or changes nothing while a move runs or all is
   done.
   */
  lemma PassProgress(spec: seq<string>, resolved: map<string, string>, g: Group)
    requires Swapping(spec, resolved, g)
    ensures var after := PassOf(spec, resolved, g);
      && Swapping(spec, resolved, after) && Total(after.pvs) == Total(g.pvs)
      && (Work(spec, resolved, after) < Work(spec, resolved, g) || after == g)
      && (after == g ==> g.moves != map[] || Empty(PlanOf(spec, resolved, g.pvs)))
  {
    if g.moves != map[] {
      RunningPassIsIdle(spec, resolved, g);
    } else if PlanOf(spec, resolved, g.pvs).evacuate != [] {
      StartingPass(spec, resolved, g);
    } else {
      FinishingPass(spec, resolved, g);
    }
  }

  lemma MovedHealthy(g: Group, after: Group, src: string)
    requires Healthy(g.pvs) && Moved(g, after, src)
    ensures Healthy(after.pvs) && Live(after.pvs) == Live(g.pvs)
  {
    assert forall i :: 0 <= i < |g.pvs| ==> MovedAt(g.pvs[i], after.pvs[i], src, g.moves[src]);
    SameNamesSameLive(g.pvs, after.pvs);
  }

  /** Every step of a move leaves less to do, its last one included, and loses no extent. */
  lemma MoveProgress(spec: seq<string>, resolved: map<string, string>, g: Group, after: Group, src: string)
    requires Swapping(spec, resolved, g) && Moved(g, after, src)
    ensures Swapping(spec, resolved, after) && Total(after.pvs) == Total(g.pvs)
    ensures Work(spec, resolved, after) < Work(spec, resolved, g)
  {
    var want := Want(spec, resolved);
    RunningPlan(spec, resolved, g, src);
    MovedHealthy(g, after, src);
    OutsideShrinks(g.pvs, after.pvs, src, g.moves[src], want);
    HealthyOneSwap(spec, resolved, after.pvs, src);
    CoveredNeedsNothing(spec, resolved, after.pvs);
    AtMostOneOutsider(spec, resolved, after.pvs);
    if Drained(after.pvs, src) {
      assert after.moves == map[];
      NoOutsiders(after.pvs, want, true);
    } else {
      RunningPlan(spec, resolved, after, src);
    }
  }

  ghost predicate MoveRan(g: Group, after: Group) { exists src :: Moved(g, after, src) }

  /** A history of passes and of steps of moves, in any order. */
  ghost predicate Follows(spec: seq<string>, resolved: map<string, string>, history: seq<Group>, i: nat)
    requires i + 1 < |history|
  {
    history[i + 1] == PassOf(spec, resolved, history[i]) || MoveRan(history[i], history[i + 1])
  }

  ghost predicate History(spec: seq<string>, resolved: map<string, string>, history: seq<Group>) {
    |history| > 0 && Swapping(spec, resolved, history[0]) && forall i :: 0 <= i < |history| - 1 ==>
      Follows(spec, resolved, history, i)
  }

  /** The steps so far that changed anything. */
  ghost function ChangedAt(history: seq<Group>, n: nat): set<nat>
    requires n < |history|
  {
    set k | 0 <= k < n && ChangesStep(history, k)
  }

  ghost predicate ChangesStep(history: seq<Group>, k: nat)
    requires k + 1 < |history|
  {
    history[k + 1] != history[k]
  }

  lemma ChangesGrow(history: seq<Group>, n: nat)
    requires n + 1 < |history|
    ensures |ChangedAt(history, n + 1)| == |ChangedAt(history, n)| + if ChangesStep(history, n) then 1 else 0
  {
    assert ChangedAt(history, n + 1) == ChangedAt(history, n) + if ChangesStep(history, n) then {n} else {};
  }

  lemma StepProgress(spec: seq<string>, resolved: map<string, string>, history: seq<Group>, i: nat)
    requires i + 1 < |history| && Swapping(spec, resolved, history[i]) && Follows(spec, resolved, history, i)
    ensures var g, after := history[i], history[i + 1];
      && Swapping(spec, resolved, after) && Total(after.pvs) == Total(g.pvs)
      && (Work(spec, resolved, after) < Work(spec, resolved, g) || after == g)
  {
    if history[i + 1] == PassOf(spec, resolved, history[i]) {
      PassProgress(spec, resolved, history[i]);
    } else {
      var src :| Moved(history[i], history[i + 1], src);
      MoveProgress(spec, resolved, history[i], history[i + 1], src);
    }
  }

  ghost predicate Spent(spec: seq<string>, resolved: map<string, string>, history: seq<Group>, i: nat)
    requires i < |history|
  {
    && Swapping(spec, resolved, history[i]) && Total(history[i].pvs) == Total(history[0].pvs)
    && Work(spec, resolved, history[i]) + |ChangedAt(history, i)| <= Work(spec, resolved, history[0])
  }

  lemma StepSpends(spec: seq<string>, resolved: map<string, string>, history: seq<Group>, i: nat)
    requires History(spec, resolved, history) && i + 1 < |history| && Spent(spec, resolved, history, i)
    ensures Spent(spec, resolved, history, i + 1)
  {
    assert Follows(spec, resolved, history, i);
    StepProgress(spec, resolved, history, i);
    ChangesGrow(history, i);
  }

  lemma NothingSpent(spec: seq<string>, resolved: map<string, string>, history: seq<Group>)
    requires |history| > 0 && Swapping(spec, resolved, history[0])
    ensures Spent(spec, resolved, history, 0)
  {
    assert ChangedAt(history, 0) == {};
  }

  lemma {:induction false} ChangesAreBounded(
      spec: seq<string>, resolved: map<string, string>, history: seq<Group>, i: nat)
    requires History(spec, resolved, history) && i < |history|
    ensures Spent(spec, resolved, history, i)
  {
    if i == 0 {
      NothingSpent(spec, resolved, history);
    } else {
      ChangesAreBounded(spec, resolved, history, i - 1);
      StepSpends(spec, resolved, history, i - 1);
    }
  }

  /**
   Over every history of passes and move progress, whatever the allocator decides: no extent is lost, at most
   Work of the first state steps change anything, and where neither a move runs nor a pass changes anything the
   live members are exactly the spec's devices.
   */
  lemma HistoriesConverge(spec: seq<string>, resolved: map<string, string>, history: seq<Group>, i: nat)
    requires History(spec, resolved, history) && i < |history|
    ensures Total(history[i].pvs) == Total(history[0].pvs)
    ensures |ChangedAt(history, i)| <= Work(spec, resolved, history[0])
    ensures history[i].moves == map[] && PassOf(spec, resolved, history[i]) == history[i] ==>
      Empty(PlanOf(spec, resolved, history[i].pvs)) && Live(history[i].pvs) == Want(spec, resolved)
  {
    ChangesAreBounded(spec, resolved, history, i);
    PassProgress(spec, resolved, history[i]);
    EmptyPlanMeansConverged(spec, resolved, history[i].pvs);
  }

  lemma OutsidersOfOne(pv: PV, want: set<string>, holding: bool)
    ensures Outsiders([pv], want, holding) ==
      if !pv.missing && pv.name !in want && (pv.used > 0) == holding then [pv.name] else []
    ensures AnyMissing([pv]) == pv.missing
  {
    assert [pv][..0] == [];
  }

  lemma OutsidersOfTwo(p: PV, q: PV, want: set<string>, holding: bool)
    requires q.name in want && !q.missing
    ensures Outsiders([p, q], want, holding) == Outsiders([p], want, holding) && AnyMissing([p, q]) == AnyMissing([p])
  {
    assert [p, q][..1] == [p];
  }

  lemma AbsenteesOfOne(d: string, resolved: map<string, string>, present: set<string>)
    ensures Absentees([d], resolved, present) == if Kernel(resolved, d) !in present then [d] else []
  {
    assert [d][..0] == [];
  }

  lemma FirstDropped(p: PV, q: PV)
    requires !p.missing && p.name != q.name
    ensures DropAll([p, q], [p.name]) == [q]
  {
    assert [p.name][..0] == [] && [p, q][..1] == [p] && [p][..0] == [];
    assert Without([p], {p.name}) == [];
  }

  /** A swap of disk a for spec device d, which resolves to b: the newcomer joins and the move to it starts. */
  lemma SwapStarts(d: string, a: string, b: string, used: nat)
    requires a != b && b != "" && used > 0
    ensures var g := Group([PV(a, false, used)], map[]);
      && Swapping([d], map[d := b], g)
      && PassOf([d], map[d := b], g) == Group([PV(a, false, used), PV(b, false, 0)], map[a := b])
  {
    var spec, resolved, pvs := [d], map[d := b], [PV(a, false, used)];
    assert d in spec && Kernel(resolved, d) == b && pvs[0] in pvs;
    assert Want(spec, resolved) == {b} && Live(pvs) == {a};
    OutsidersOfOne(pvs[0], {b}, true);
    OutsidersOfOne(pvs[0], {b}, false);
    AbsenteesOfOne(d, resolved, {a});
    assert PlanOf(spec, resolved, pvs) == Plan([d], [a], [], false);
    StartedOnce(map[], a, b);
  }

  /** Once the move is done, the old disk is dropped. */
  lemma SwapFinishes(d: string, a: string, b: string, used: nat)
    requires a != b && b != ""
    ensures var g := Group([PV(a, false, 0), PV(b, false, used)], map[]);
      PassOf([d], map[d := b], g) == Group([PV(b, false, used)], map[])
  {
    var spec, resolved, pvs := [d], map[d := b], [PV(a, false, 0), PV(b, false, used)];
    assert d in spec && Kernel(resolved, d) == b && pvs[0] in pvs && pvs[1] in pvs;
    assert Want(spec, resolved) == {b} && Live(pvs) == {a, b};
    OutsidersOfOne(pvs[0], {b}, true);
    OutsidersOfOne(pvs[0], {b}, false);
    OutsidersOfTwo(pvs[0], pvs[1], {b}, true);
    OutsidersOfTwo(pvs[0], pvs[1], {b}, false);
    AbsenteesOfOne(d, resolved, {a, b});
    assert PlanOf(spec, resolved, pvs) == Plan([], [], [a], false);
    assert Joined(pvs, resolved, []) == pvs;
    FirstDropped(pvs[0], pvs[1]);
  }
}
