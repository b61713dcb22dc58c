/**
 Where a Volume is served (operator/internal/rdrbd/resolver.go) and the event
 filter that decides whether to ask again (operator/internal/controller/claim.go).
 */
module Placement {

  datatype Role = Diskful | Diskless | Tiebreaker

  datatype Assigned = Assigned(node: string, role: Role)

  /** `note` stands for what the filter ignores: sync progress, peers, quorum. */
  datatype Replica = Replica(node: string, present: bool, inUse: bool, device: string, diskState: string, note: int)

  /** A Volume without an assignment is one with an empty assignment list. */
  datatype Volume = Volume(assignment: seq<Assigned>, primary: string, replicas: seq<Replica>)
  {
    /** Volume.Diskful of operator/api/rdrbd/v1alpha1/volume_types.go. */
    predicate IsDiskful(node: string) {
      Assigned(node, Diskful) in assignment
    }
  }

  datatype Candidate = Candidate(node: string, device: string, inUse: bool, upToDate: bool)

  datatype Choice = NoReplica | Choice(node: string, device: string)

  predicate Usable(v: Volume, r: Replica) {
    r.present && r.device != "" && v.IsDiskful(r.node)
  }

  function AsCandidate(v: Volume, r: Replica): Candidate {
    Candidate(r.node, r.device, r.inUse || v.primary == r.node, r.diskState == "UpToDate")
  }

  function Candidates(v: Volume, rs: seq<Replica>): seq<Candidate> {
    if rs == [] then []
    else
      var n := |rs| - 1;
      Candidates(v, rs[..n]) + if Usable(v, rs[n]) then [AsCandidate(v, rs[n])] else []
  }

  function Score(c: Candidate, prefer: string): nat {
    (if c.upToDate then 4 else 0) + if c.inUse then 2 else if c.node == prefer then 1 else 0
  }

  function DiskfulCount(a: seq<Assigned>): nat {
    if a == [] then 0
    else DiskfulCount(a[..|a| - 1]) + if a[|a| - 1].role == Diskful then 1 else 0
  }

  /** Index of the first best candidate outside `avoid`, or -1. */
  ghost predicate IsPick(cs: seq<Candidate>, prefer: string, avoid: set<string>, pick: int) {
    && -1 <= pick < |cs|
    && (pick == -1 ==> forall i :: 0 <= i < |cs| ==> cs[i].node in avoid)
    && (pick >= 0 ==>
          && cs[pick].node !in avoid
          && (forall i :: 0 <= i < |cs| && cs[i].node !in avoid ==> Score(cs[i], prefer) <= Score(cs[pick], prefer))
          && (forall i :: 0 <= i < pick && cs[i].node !in avoid ==> Score(cs[i], prefer) < Score(cs[pick], prefer)))
  }

  function Pick(cs: seq<Candidate>, prefer: string, avoid: set<string>): (pick: int)
    ensures IsPick(cs, prefer, avoid, pick)
  {
    if cs == [] then -1
    else
      var n := |cs| - 1;
      var p := Pick(cs[..n], prefer, avoid);
      assert forall i :: 0 <= i < n ==> cs[..n][i] == cs[i];
      if cs[n].node in avoid || (p != -1 && Score(cs[n], prefer) <= Score(cs[p], prefer)) then p else n
  }

  function Resolve(v: Volume, prefer: string, avoid: set<string>): Choice {
    var cs := Candidates(v, v.replicas);
    var p := Pick(cs, prefer, avoid);
    if p == -1 then NoReplica else Choice(cs[p].node, cs[p].device)
  }

  method Collect(v: Volume) returns (all: seq<Candidate>)
    ensures all == Candidates(v, v.replicas)
  {
    all := [];
    for i := 0 to |v.replicas|
      invariant all == Candidates(v, v.replicas[..i])
    {
      var r := v.replicas[i];
      assert v.replicas[..i + 1][..i] == v.replicas[..i];
      if !r.present || r.device == "" || !v.IsDiskful(r.node) {
        continue;
      }
      all := all + [Candidate(r.node, r.device, r.inUse || v.primary == r.node, r.diskState == "UpToDate")];
    }
    assert v.replicas[..|v.replicas|] == v.replicas;
  }

  method CountDiskful(a: seq<Assigned>) returns (replicas: nat)
    ensures replicas == DiskfulCount(a)
  {
    replicas := 0;
    for i := 0 to |a|
      invariant replicas == DiskfulCount(a[..i])
    {
      assert a[..i + 1][..i] == a[..i];
      if a[i].role == Diskful {
        replicas := replicas + 1;
      }
    }
    assert a[..|a|] == a;
  }

  method ResolvePlacement(v: Volume, prefer: string, avoid: set<string>) returns (choice: Choice, replicas: nat)
    ensures choice == Resolve(v, prefer, avoid)
    ensures replicas == DiskfulCount(v.assignment)
  {
    var all := Collect(v);
    replicas := CountDiskful(v.assignment);
    var pick := -1;
    for i := 0 to |all|
      invariant -1 <= pick < i
      invariant pick == Pick(all[..i], prefer, avoid)
    {
      assert all[..i + 1][..i] == all[..i];
      if all[i].node in avoid {
        continue;
      }
      if pick == -1 || Score(all[i], prefer) > Score(all[pick], prefer) {
        pick := i;
      }
    }
    assert all[..|all|] == all;
    if pick == -1 {
      return NoReplica, replicas;
    }
    return Choice(all[pick].node, all[pick].device), replicas;
  }

  // ---- candidates, as a set ---------------------------------------------------

  ghost predicate Eligible(v: Volume, avoid: set<string>, c: Candidate) {
    c.node !in avoid && exists r :: r in v.replicas && Usable(v, r) && AsCandidate(v, r) == c
  }

  lemma {:induction false} CandidatesAre(v: Volume, rs: seq<Replica>, c: Candidate)
    ensures c in Candidates(v, rs) <==> exists r :: r in rs && Usable(v, r) && AsCandidate(v, r) == c
  {
    if rs != [] {
      var n := |rs| - 1;
      CandidatesAre(v, rs[..n], c);
      assert rs == rs[..n] + [rs[n]];
    }
  }

  /**
   The choice is a usable replica outside `avoid`, and none is missed: it is
   UpToDate whenever one is, in use whenever one of the same freshness is, and
   the preferred one whenever that is as good.
   */
  lemma ResolveIsOptimal(v: Volume, prefer: string, avoid: set<string>) returns (best: Candidate)
    ensures Resolve(v, prefer, avoid).NoReplica? <==> forall c :: !Eligible(v, avoid, c)
    ensures Resolve(v, prefer, avoid).Choice? ==>
      && Eligible(v, avoid, best) && Resolve(v, prefer, avoid) == Choice(best.node, best.device)
      && forall c :: Eligible(v, avoid, c) ==>
           && (c.upToDate ==> best.upToDate)
           && (c.upToDate == best.upToDate && c.inUse ==> best.inUse)
           && (c.upToDate == best.upToDate && c.node == prefer ==> best.inUse || best.node == prefer)
  {
    var cs := Candidates(v, v.replicas);
    var p := Pick(cs, prefer, avoid);
    best := if p == -1 then Candidate("", "", false, false) else cs[p];
    forall c
      ensures Eligible(v, avoid, c) <==> c.node !in avoid && c in cs
    {
      CandidatesAre(v, v.replicas, c);
    }
    if p != -1 {
      assert best in cs;
    }
    forall c | Eligible(v, avoid, c)
      ensures p != -1 && Score(c, prefer) <= Score(best, prefer)
    {
      var i :| 0 <= i < |cs| && cs[i] == c;
    }
  }

  // ---- stability ---------------------------------------------------------------

  /**
   A candidate strictly better than every other one outside `avoid` is the choice, in whatever order they are listed.
   */
  lemma StrictBestIsPicked(v: Volume, prefer: string, avoid: set<string>, c: Candidate)
    requires Eligible(v, avoid, c)
    requires forall d :: Eligible(v, avoid, d) && d != c ==> Score(d, prefer) < Score(c, prefer)
    ensures Resolve(v, prefer, avoid) == Choice(c.node, c.device)
  {
    var cs := Candidates(v, v.replicas);
    var p := Pick(cs, prefer, avoid);
    CandidatesAre(v, v.replicas, c);
    var i :| 0 <= i < |cs| && cs[i] == c;
    CandidatesAre(v, v.replicas, cs[p]);
    assert cs[p] in cs;
  }

  /** Feeding a choice back as the preference returns it. */
  lemma ResolveIsStable(v: Volume, prefer: string, avoid: set<string>)
    requires Resolve(v, prefer, avoid).Choice?
    ensures Resolve(v, Resolve(v, prefer, avoid).node, avoid) == Resolve(v, prefer, avoid)
  {
    var cs := Candidates(v, v.replicas);
    var p := Pick(cs, prefer, avoid);
    var q := Pick(cs, cs[p].node, avoid);
    assert Score(cs[p], prefer) <= Score(cs[p], cs[p].node);
  }

  /** Each node reports at most one replica and holds at most one role. */
  ghost predicate UniqueNodes(v: Volume) {
    && DistinctReplicas(v.replicas)
    && DistinctAssigned(v.assignment)
  }

  ghost predicate DistinctAssigned(a: seq<Assigned>) {
    forall i, j :: 0 <= i < j < |a| ==> a[i].node != a[j].node
  }

  lemma OneCandidatePerNode(v: Volume, avoid: set<string>, c: Candidate, d: Candidate)
    requires UniqueNodes(v) && Eligible(v, avoid, c) && Eligible(v, avoid, d) && c.node == d.node
    ensures c == d
  {
    var r :| r in v.replicas && Usable(v, r) && AsCandidate(v, r) == c;
    var t :| t in v.replicas && Usable(v, t) && AsCandidate(v, t) == d;
    assert r == t;
  }

  /** Nothing moves an export off a node that stays UpToDate and allowed while no other replica is in use. */
  ghost predicate Settled(v: Volume, avoid: set<string>, node: string) {
    && UniqueNodes(v)
    && (exists c :: Eligible(v, avoid, c) && c.node == node && c.upToDate)
    && (forall d :: Eligible(v, avoid, d) && d.inUse ==> d.node == node)
  }

  lemma SettledStaysPut(v: Volume, avoid: set<string>, node: string)
    requires Settled(v, avoid, node)
    ensures Resolve(v, node, avoid).Choice? && Resolve(v, node, avoid).node == node
  {
    var c :| Eligible(v, avoid, c) && c.node == node && c.upToDate;
    forall d | Eligible(v, avoid, d) && d != c
      ensures Score(d, node) < Score(c, node)
    {
      if d.node == node {
        OneCandidatePerNode(v, avoid, c, d);
      }
    }
    StrictBestIsPicked(v, node, avoid, c);
  }

  /** The node placement holds after following a sequence of Volume states; a failed resolve leaves it alone. */
  function Follow(vs: seq<Volume>, avoids: seq<set<string>>, node: string): string
    requires |vs| == |avoids|
  {
    if vs == [] then node
    else
      var before := Follow(vs[..|vs| - 1], avoids[..|vs| - 1], node);
      match Resolve(vs[|vs| - 1], before, avoids[|vs| - 1])
      case NoReplica => before
      case Choice(n, _) => n
  }

  /** Each Volume state moves placement to the choice made with the node before it as preference, if there is one. */
  lemma FollowStep(vs: seq<Volume>, avoids: seq<set<string>>, node: string, v: Volume, avoid: set<string>)
    requires |vs| == |avoids|
    ensures var before, after := Follow(vs, avoids, node), Follow(vs + [v], avoids + [avoid], node);
      if Resolve(v, before, avoid).Choice? then after == Resolve(v, before, avoid).node else after == before
    ensures Follow([], [], node) == node
  {
    assert (vs + [v])[..|vs|] == vs && (avoids + [avoid])[..|vs|] == avoids;
  }

  lemma {:induction false} PlacementDoesNotFlap(vs: seq<Volume>, avoids: seq<set<string>>, node: string)
    requires |vs| == |avoids|
    requires forall t :: 0 <= t < |vs| ==> Settled(vs[t], avoids[t], node)
    ensures Follow(vs, avoids, node) == node
  {
    if vs != [] {
      var n := |vs| - 1;
      PlacementDoesNotFlap(vs[..n], avoids[..n], node);
      SettledStaysPut(vs[n], avoids[n], node);
    }
  }

  // ---- the event filter ----------------------------------------------------------

  /** What the filter compares: list order and the ignored fields are gone. */
  datatype ServingKey = ServingKey(primary: string, roles: map<string, Role>, replicas: map<string, Replica>)

  function Roles(a: seq<Assigned>): map<string, Role> {
    if a == [] then map[] else Roles(a[..|a| - 1])[a[|a| - 1].node := a[|a| - 1].role]
  }

  function Reports(rs: seq<Replica>): map<string, Replica> {
    if rs == [] then map[] else Reports(rs[..|rs| - 1])[rs[|rs| - 1].node := rs[|rs| - 1].(note := 0)]
  }

  function Serving(v: Volume): ServingKey {
    ServingKey(v.primary, Roles(v.assignment), Reports(v.replicas))
  }

  method ServingOf(v: Volume) returns (k: ServingKey)
    ensures k == Serving(v)
  {
    k := ServingKey(v.primary, map[], map[]);
    for i := 0 to |v.assignment|
      invariant k == ServingKey(v.primary, Roles(v.assignment[..i]), map[])
    {
      assert v.assignment[..i + 1][..i] == v.assignment[..i];
      k := k.(roles := k.roles[v.assignment[i].node := v.assignment[i].role]);
    }
    assert v.assignment[..|v.assignment|] == v.assignment;
    for i := 0 to |v.replicas|
      invariant k == ServingKey(v.primary, Roles(v.assignment), Reports(v.replicas[..i]))
    {
      var r := v.replicas[i];
      assert v.replicas[..i + 1][..i] == v.replicas[..i];
      k := k.(replicas := k.replicas[r.node := Replica(r.node, r.present, r.inUse, r.device, r.diskState, 0)]);
    }
    assert v.replicas[..|v.replicas|] == v.replicas;
  }

  lemma {:induction false} RolesAre(a: seq<Assigned>, node: string, role: Role)
    requires DistinctAssigned(a)
    ensures node in Roles(a) && Roles(a)[node] == role <==> Assigned(node, role) in a
  {
    if a != [] {
      var n := |a| - 1;
      RolesAre(a[..n], node, role);
      assert a == a[..n] + [a[n]];
      if a[n].node == node {
        assert forall x :: x in a[..n] ==> x.node != node;
      }
    }
  }

  ghost predicate DistinctReplicas(rs: seq<Replica>) {
    forall i, j :: 0 <= i < j < |rs| ==> rs[i].node != rs[j].node
  }

  lemma {:induction false} ReportsAre(rs: seq<Replica>, node: string)
    requires DistinctReplicas(rs)
    ensures node in Reports(rs) <==> exists r :: r in rs && r.node == node
    ensures forall r :: r in rs && r.node == node ==> Reports(rs)[node] == r.(note := 0)
  {
    if rs != [] {
      var n := |rs| - 1;
      ReportsAre(rs[..n], node);
      assert rs == rs[..n] + [rs[n]];
      if rs[n].node == node {
        assert forall r :: r in rs[..n] ==> r.node != node;
      }
    }
  }

  /** Equal keys mean equal candidates, in some order. */
  lemma SameKeySameCandidates(v: Volume, w: Volume, avoid: set<string>, c: Candidate)
    requires UniqueNodes(v) && UniqueNodes(w) && Serving(v) == Serving(w)
    requires Eligible(v, avoid, c)
    ensures Eligible(w, avoid, c)
  {
    var r :| r in v.replicas && Usable(v, r) && AsCandidate(v, r) == c;
    ReportsAre(v.replicas, r.node);
    ReportsAre(w.replicas, r.node);
    var t :| t in w.replicas && t.node == r.node;
    RolesAre(v.assignment, r.node, Diskful);
    RolesAre(w.assignment, r.node, Diskful);
    assert t.(note := 0) == r.(note := 0);
    assert t in w.replicas && Usable(w, t) && AsCandidate(w, t) == c;
  }

  function DiskfulNodes(a: seq<Assigned>): set<string> {
    set x | x in a && x.role == Diskful :: x.node
  }

  lemma {:induction false} CountIsCardinality(a: seq<Assigned>)
    requires DistinctAssigned(a)
    ensures DiskfulCount(a) == |DiskfulNodes(a)|
  {
    if a != [] {
      var n := |a| - 1;
      CountIsCardinality(a[..n]);
      var x := a[n];
      assert a == a[..n] + [x];
      assert DiskfulNodes(a) == DiskfulNodes(a[..n]) + if x.role == Diskful then {x.node} else {};
      assert x.node !in DiskfulNodes(a[..n]);
    }
  }

  lemma SameKeySameCount(v: Volume, w: Volume)
    requires UniqueNodes(v) && UniqueNodes(w) && Serving(v) == Serving(w)
    ensures DiskfulCount(v.assignment) == DiskfulCount(w.assignment)
  {
    CountIsCardinality(v.assignment);
    CountIsCardinality(w.assignment);
    forall n
      ensures n in DiskfulNodes(v.assignment) <==> n in DiskfulNodes(w.assignment)
    {
      RolesAre(v.assignment, n, Diskful);
      RolesAre(w.assignment, n, Diskful);
      assert n in DiskfulNodes(v.assignment) <==> Assigned(n, Diskful) in v.assignment;
      assert n in DiskfulNodes(w.assignment) <==> Assigned(n, Diskful) in w.assignment;
    }
    assert DiskfulNodes(v.assignment) == DiskfulNodes(w.assignment);
  }

  /** Two replicas are open at once and equally fresh, and one of them is the choice. */
  ghost predicate Rival(v: Volume, avoid: set<string>, node: string, b: Candidate, d: Candidate) {
    && Eligible(v, avoid, b) && Eligible(v, avoid, d) && b.node == node && d.node != node
    && b.inUse && d.inUse && b.upToDate == d.upToDate
  }

  ghost predicate Contested(v: Volume, avoid: set<string>, node: string) {
    exists b, d :: Rival(v, avoid, node, b, d)
  }

  /** An update the filter drops could not have moved anything: same node, same device, same replica count. */
  lemma FilterIsSound(v: Volume, w: Volume, prefer: string, avoid: set<string>)
    requires UniqueNodes(v) && UniqueNodes(w) && Serving(v) == Serving(w)
    ensures DiskfulCount(w.assignment) == DiskfulCount(v.assignment)
    ensures var was := Resolve(v, prefer, avoid);
      match was
      case NoReplica => forall p :: Resolve(w, p, avoid) == NoReplica
      case Choice(node, _) => !Contested(v, avoid, node) ==> Resolve(w, node, avoid) == was
  {
    SameKeySameCount(v, w);
    var best := ResolveIsOptimal(v, prefer, avoid);
    if Resolve(v, prefer, avoid).NoReplica? {
      forall p
        ensures Resolve(w, p, avoid) == NoReplica
      {
        var other := ResolveIsOptimal(w, p, avoid);
        forall c
          ensures !Eligible(w, avoid, c)
        {
          if Eligible(w, avoid, c) {
            SameKeySameCandidates(w, v, avoid, c);
          }
        }
      }
    } else if !Contested(v, avoid, best.node) {
      BestStaysStrict(v, w, avoid, prefer, best);
    }
  }

  lemma BestStaysStrict(v: Volume, w: Volume, avoid: set<string>, prefer: string, best: Candidate)
    requires UniqueNodes(v) && UniqueNodes(w) && Serving(v) == Serving(w)
    requires Eligible(v, avoid, best) && !Contested(v, avoid, best.node)
    requires forall c :: Eligible(v, avoid, c) ==>
      (c.upToDate ==> best.upToDate) && (c.upToDate == best.upToDate && c.inUse ==> best.inUse)
    ensures Resolve(w, best.node, avoid) == Choice(best.node, best.device)
  {
    SameKeySameCandidates(v, w, avoid, best);
    forall d | Eligible(w, avoid, d) && d != best
      ensures Score(d, best.node) < Score(best, best.node)
    {
      SameKeySameCandidates(w, v, avoid, d);
      if d.node == best.node {
        OneCandidatePerNode(v, avoid, best, d);
      }
      assert !Rival(v, avoid, best.node, best, d);
    }
    StrictBestIsPicked(w, best.node, avoid, best);
  }

  // ---- the filter is exact about ties ----------------------------------------------

  /** The same Volume with replica i listed first. */
  function Reordered(v: Volume, i: nat): Volume
    requires i < |v.replicas|
  {
    v.(replicas := [v.replicas[i]] + v.replicas[..i] + v.replicas[i + 1..])
  }

  lemma SameElementsSameReports(rs: seq<Replica>, ts: seq<Replica>)
    requires DistinctReplicas(rs) && DistinctReplicas(ts)
    requires forall r :: r in rs <==> r in ts
    ensures Reports(rs) == Reports(ts)
  {
    forall n
      ensures n in Reports(rs) <==> n in Reports(ts)
      ensures n in Reports(rs) ==> Reports(rs)[n] == Reports(ts)[n]
    {
      ReportsAre(rs, n);
      ReportsAre(ts, n);
    }
  }

  lemma ReorderedSameKey(v: Volume, i: nat)
    requires i < |v.replicas| && UniqueNodes(v)
    ensures UniqueNodes(Reordered(v, i)) && Serving(Reordered(v, i)) == Serving(v)
  {
    var rs, ts := v.replicas, Reordered(v, i).replicas;
    assert rs == rs[..i] + [rs[i]] + rs[i + 1..];
    SameElementsSameReports(rs, ts);
  }

  lemma {:induction false} FirstUsableIsFirst(v: Volume, rs: seq<Replica>)
    requires rs != [] && Usable(v, rs[0])
    ensures |Candidates(v, rs)| > 0 && Candidates(v, rs)[0] == AsCandidate(v, rs[0])
  {
    if |rs| > 1 {
      FirstUsableIsFirst(v, rs[..|rs| - 1]);
    } else {
      assert Candidates(v, rs[..0]) == [];
    }
  }

  /** With two equally fresh replicas open at once, listing the other one first moves the export. */
  lemma ContestedMoves(v: Volume, prefer: string, avoid: set<string>) returns (w: Volume)
    requires UniqueNodes(v) && Resolve(v, prefer, avoid).Choice?
    requires Contested(v, avoid, Resolve(v, prefer, avoid).node)
    ensures UniqueNodes(w) && Serving(w) == Serving(v)
    ensures Resolve(w, Resolve(v, prefer, avoid).node, avoid) != Resolve(v, prefer, avoid)
  {
    var was := Resolve(v, prefer, avoid);
    var best := ResolveIsOptimal(v, prefer, avoid);
    var b, d :| Rival(v, avoid, was.node, b, d);
    OneCandidatePerNode(v, avoid, b, best);
    var r :| r in v.replicas && Usable(v, r) && AsCandidate(v, r) == d;
    var i :| 0 <= i < |v.replicas| && v.replicas[i] == r;
    w := Reordered(v, i);
    ReorderedSameKey(v, i);
    assert Usable(w, w.replicas[0]) && AsCandidate(w, w.replicas[0]) == d;
    FirstUsableIsFirst(w, w.replicas);
    var cs := Candidates(w, w.replicas);
    var p := Pick(cs, was.node, avoid);
    if cs[p].node == was.node {
      CandidatesAre(w, w.replicas, cs[p]);
      assert cs[p] in cs;
      SameKeySameCandidates(w, v, avoid, cs[p]);
      OneCandidatePerNode(v, avoid, cs[p], best);
    }
  }

  /** Dropping key-preserving updates is right for every listing order exactly when the choice is not contested. */
  lemma FilterIsExact(v: Volume, prefer: string, avoid: set<string>)
    requires UniqueNodes(v) && Resolve(v, prefer, avoid).Choice?
    ensures var was := Resolve(v, prefer, avoid);
      (forall w :: UniqueNodes(w) && Serving(w) == Serving(v) ==> Resolve(w, was.node, avoid) == was)
      <==> !Contested(v, avoid, was.node)
  {
    var was := Resolve(v, prefer, avoid);
    if Contested(v, avoid, was.node) {
      var w := ContestedMoves(v, prefer, avoid);
    } else {
      forall w | UniqueNodes(w) && Serving(w) == Serving(v)
        ensures Resolve(w, was.node, avoid) == was
      {
        FilterIsSound(v, w, prefer, avoid);
      }
    }
  }

  // ---- any preference: a Target's further LUNs are resolved with its active node ---------

  /** The candidate behind a choice: nothing eligible scores higher. */
  ghost predicate Best(v: Volume, prefer: string, avoid: set<string>, best: Candidate) {
    && Eligible(v, avoid, best) && Resolve(v, prefer, avoid) == Choice(best.node, best.device)
    && forall c :: Eligible(v, avoid, c) ==> Score(c, prefer) <= Score(best, prefer)
  }

  ghost predicate HasEqual(v: Volume, prefer: string, avoid: set<string>, best: Candidate) {
    exists d :: Eligible(v, avoid, d) && d != best && Score(d, prefer) == Score(best, prefer)
  }

  /** Another replica is as good as the chosen one under this preference. */
  ghost predicate Tied(v: Volume, prefer: string, avoid: set<string>) {
    exists best :: Best(v, prefer, avoid, best) && HasEqual(v, prefer, avoid, best)
  }

  lemma ChoiceHasBest(v: Volume, prefer: string, avoid: set<string>) returns (best: Candidate)
    requires Resolve(v, prefer, avoid).Choice?
    ensures Best(v, prefer, avoid, best)
  {
    var cs := Candidates(v, v.replicas);
    best := cs[Pick(cs, prefer, avoid)];
    assert best in cs;
    CandidatesAre(v, v.replicas, best);
    forall c | Eligible(v, avoid, c)
      ensures Score(c, prefer) <= Score(best, prefer)
    {
      CandidatesAre(v, v.replicas, c);
      var i :| 0 <= i < |cs| && cs[i] == c;
    }
  }

  lemma BestIsUnique(v: Volume, prefer: string, avoid: set<string>, b: Candidate, c: Candidate)
    requires UniqueNodes(v) && Best(v, prefer, avoid, b) && Best(v, prefer, avoid, c)
    ensures b == c
  {
    OneCandidatePerNode(v, avoid, b, c);
  }

  /** An untied choice is made in every listing of the same key. */
  lemma UntiedStays(v: Volume, w: Volume, prefer: string, avoid: set<string>)
    requires UniqueNodes(v) && UniqueNodes(w) && Serving(v) == Serving(w)
    requires Resolve(v, prefer, avoid).Choice? && !Tied(v, prefer, avoid)
    ensures Resolve(w, prefer, avoid) == Resolve(v, prefer, avoid)
  {
    var best := ChoiceHasBest(v, prefer, avoid);
    assert !HasEqual(v, prefer, avoid, best);
    SameKeySameCandidates(v, w, avoid, best);
    forall d | Eligible(w, avoid, d) && d != best
      ensures Score(d, prefer) < Score(best, prefer)
    {
      SameKeySameCandidates(w, v, avoid, d);
    }
    StrictBestIsPicked(w, prefer, avoid, best);
  }

  /** A tied one is not: the other replica, listed first, is chosen. */
  lemma TiedMoves(v: Volume, prefer: string, avoid: set<string>) returns (w: Volume)
    requires UniqueNodes(v) && Tied(v, prefer, avoid)
    ensures UniqueNodes(w) && Serving(w) == Serving(v) && Resolve(w, prefer, avoid) != Resolve(v, prefer, avoid)
  {
    var best :| Best(v, prefer, avoid, best) && HasEqual(v, prefer, avoid, best);
    var d :| Eligible(v, avoid, d) && d != best && Score(d, prefer) == Score(best, prefer);
    var r :| r in v.replicas && Usable(v, r) && AsCandidate(v, r) == d;
    var i :| 0 <= i < |v.replicas| && v.replicas[i] == r;
    w := Reordered(v, i);
    ReorderedSameKey(v, i);
    assert Usable(w, w.replicas[0]) && AsCandidate(w, w.replicas[0]) == d;
    FirstUsableIsFirst(w, w.replicas);
    if Resolve(w, prefer, avoid) == Resolve(v, prefer, avoid) {
      NotTheFirst(v, w, prefer, avoid, best, d);
    }
  }

  lemma NotTheFirst(v: Volume, w: Volume, prefer: string, avoid: set<string>, best: Candidate, d: Candidate)
    requires UniqueNodes(v) && UniqueNodes(w) && Serving(w) == Serving(v)
    requires Best(v, prefer, avoid, best) && d.node !in avoid && d != best && Score(d, prefer) == Score(best, prefer)
    requires Candidates(w, w.replicas) != [] && Candidates(w, w.replicas)[0] == d
    ensures Resolve(w, prefer, avoid) != Resolve(v, prefer, avoid)
  {
    var cs := Candidates(w, w.replicas);
    var p := Pick(cs, prefer, avoid);
    assert cs[p] in cs;
    CandidatesAre(w, w.replicas, cs[p]);
    SameKeySameCandidates(w, v, avoid, cs[p]);
    if cs[p].node == best.node {
      OneCandidatePerNode(v, avoid, cs[p], best);
    }
  }

  /** For every preference: each listing of the same key resolves alike exactly when the choice is untied. */
  lemma FilterIsExactUnder(v: Volume, prefer: string, avoid: set<string>)
    requires UniqueNodes(v) && Resolve(v, prefer, avoid).Choice?
    ensures !Tied(v, prefer, avoid) <==>
      forall w :: UniqueNodes(w) && Serving(w) == Serving(v) ==> Resolve(w, prefer, avoid) == Resolve(v, prefer, avoid)
  {
    if Tied(v, prefer, avoid) {
      var w := TiedMoves(v, prefer, avoid);
    } else {
      forall w | UniqueNodes(w) && Serving(w) == Serving(v)
        ensures Resolve(w, prefer, avoid) == Resolve(v, prefer, avoid)
      {
        UntiedStays(v, w, prefer, avoid);
      }
    }
  }

  // ---- on the Volume's own fields ----------------------------------------------------------

  /** A replica that may serve: reported here, with a device, diskful by assignment, on a node not avoided. */
  ghost predicate CanServe(v: Volume, avoid: set<string>, r: Replica) {
    r in v.replicas && r.present && r.device != "" && Assigned(r.node, Diskful) in v.assignment && r.node !in avoid
  }

  ghost predicate Open(v: Volume, r: Replica) { r.inUse || v.primary == r.node }

  lemma EligibleIsServing(v: Volume, avoid: set<string>, r: Replica)
    requires CanServe(v, avoid, r)
    ensures Eligible(v, avoid, Candidate(r.node, r.device, Open(v, r), r.diskState == "UpToDate"))
  {
    assert Usable(v, r) && AsCandidate(v, r) == Candidate(r.node, r.device, Open(v, r), r.diskState == "UpToDate");
  }

  /**
   A choice is a replica that may serve, UpToDate whenever one is, among equally fresh ones open whenever one is,
   then the preferred one; there is none exactly when no replica may serve.
   */
  lemma ChoiceOnReplicas(v: Volume, prefer: string, avoid: set<string>) returns (r: Replica)
    ensures Resolve(v, prefer, avoid).NoReplica? <==> forall t :: !CanServe(v, avoid, t)
    ensures Resolve(v, prefer, avoid).Choice? ==>
      && CanServe(v, avoid, r) && Resolve(v, prefer, avoid) == Choice(r.node, r.device)
      && forall t :: CanServe(v, avoid, t) ==>
           && (t.diskState == "UpToDate" ==> r.diskState == "UpToDate")
           && ((t.diskState == "UpToDate") == (r.diskState == "UpToDate") ==>
                 && (Open(v, t) ==> Open(v, r))
                 && (t.node == prefer ==> Open(v, r) || r.node == prefer))
  {
    var best := ResolveIsOptimal(v, prefer, avoid);
    r := Replica("", false, false, "", "", 0);
    if Resolve(v, prefer, avoid).Choice? {
      r :| r in v.replicas && Usable(v, r) && AsCandidate(v, r) == best;
    }
    forall t | CanServe(v, avoid, t)
      ensures Eligible(v, avoid, Candidate(t.node, t.device, Open(v, t), t.diskState == "UpToDate"))
    {
      EligibleIsServing(v, avoid, t);
    }
    forall c | Eligible(v, avoid, c)
      ensures exists t :: CanServe(v, avoid, t)
    {
      var t :| t in v.replicas && Usable(v, t) && AsCandidate(v, t) == c;
      assert CanServe(v, avoid, t);
    }
  }
}
