/**
 How a pool pass names its disks: the status pairing at the end of
 ensureLinearPool and ensureRaidPool (internal/agent/pool.go) and the join onto
 the spec in poolModel (internal/clusterstate/clusterstate.go). A dead disk has
 no kernel path, so its slot is paired with a spec device that lost its disk.
 */
module DeviceReport {
  import opened SlotStates
  import LinearReplace

  /** One VG member or array slot, under the kernel path the host tools print. */
  datatype Slot = Slot(name: string, state: SlotState)

  datatype Row = Row(path: string, state: SlotState)

  /** A pool as a pass sees it; `resolved` maps every spec device to its kernel path. */
  datatype View = View(raid: bool, spec: seq<string>, resolved: map<string, string>, slots: seq<Slot>)

  /** Kernel path to spec device; the two are in bijection when resolution is injective. */
  function SpecPaths(spec: seq<string>, resolved: map<string, string>): map<string, string>
    requires forall d :: d in spec ==> d in resolved
  {
    if spec == [] then map[]
    else
      var d := spec[|spec| - 1];
      SpecPaths(spec[..|spec| - 1], resolved)[resolved[d] := d]
  }

  predicate Matched(raid: bool, names: map<string, string>, s: Slot) {
    s.name in names && (raid ==> s.name != "")
  }

  predicate Present(raid: bool, names: map<string, string>, s: Slot) {
    Matched(raid, names, s) && (raid || s.state != Missing)
  }

  /** Slots that may stand for a spec device whose disk is gone. */
  predicate Pairs(raid: bool, names: map<string, string>, s: Slot) {
    !Matched(raid, names, s) && if raid then s.state != InSync else s.state == Missing
  }

  function PresentSpec(raid: bool, names: map<string, string>, slots: seq<Slot>): set<string> {
    set s | s in slots && Present(raid, names, s) :: names[s.name]
  }

  function Orphans(spec: seq<string>, present: set<string>): seq<string> {
    if spec == [] then []
    else Orphans(spec[..|spec| - 1], present) + if spec[|spec| - 1] !in present then [spec[|spec| - 1]] else []
  }

  /** How many of the first n slots were candidates for pairing. */
  function Rank(raid: bool, names: map<string, string>, slots: seq<Slot>, n: nat): nat
    requires n <= |slots|
  {
    if n == 0 then 0 else Rank(raid, names, slots, n - 1) + if Pairs(raid, names, slots[n - 1]) then 1 else 0
  }

  function RowFor(raid: bool, names: map<string, string>, orphans: seq<string>, s: Slot, rank: nat): Row {
    if Matched(raid, names, s) then Row(names[s.name], s.state)
    else if Pairs(raid, names, s) && rank < |orphans| then Row(orphans[rank], s.state)
    else Row(s.name, s.state)
  }

  function RowAt(raid: bool, names: map<string, string>, orphans: seq<string>, slots: seq<Slot>, i: nat): Row
    requires i < |slots|
  {
    RowFor(raid, names, orphans, slots[i], Rank(raid, names, slots, i))
  }

  ghost predicate Resolves(v: View) {
    forall d :: d in v.spec ==> d in v.resolved
  }

  function Names(v: View): map<string, string>
    requires Resolves(v)
  {
    SpecPaths(v.spec, v.resolved)
  }

  function Lost(v: View): seq<string>
    requires Resolves(v)
  {
    Orphans(v.spec, PresentSpec(v.raid, Names(v), v.slots))
  }

  function ReportRow(v: View, i: nat): Row
    requires Resolves(v) && i < |v.slots|
  {
    RowAt(v.raid, Names(v), Lost(v), v.slots, i)
  }

  /** A linear member's state: a lost disk, a newcomer while extents are on the move, or in sync. */
  function LinearSlot(pv: LinearReplace.PV, added: set<string>, moving: bool): Slot {
    Slot(pv.name, if pv.missing then Missing else if moving && pv.name in added then Rebuilding else InSync)
  }

  method LinearSlots(
      pvs: seq<LinearReplace.PV>, added: set<string>, moving: bool)
    returns (slots: seq<Slot>, degraded: bool)
    ensures |slots| == |pvs| && forall i :: 0 <= i < |pvs| ==> slots[i] == LinearSlot(pvs[i], added, moving)
    ensures forall i :: 0 <= i < |pvs| ==>
      && slots[i].name == pvs[i].name && (slots[i].state == Missing <==> pvs[i].missing) && slots[i].state != Failed
      && (slots[i].state == Rebuilding <==> !pvs[i].missing && moving && pvs[i].name in added)
    ensures degraded <==> exists i :: 0 <= i < |slots| && slots[i].state == Missing
  {
    slots, degraded := [], false;
    for i := 0 to |pvs|
      invariant |slots| == i && forall k :: 0 <= k < i ==> slots[k] == LinearSlot(pvs[k], added, moving)
      invariant degraded <==> exists k :: 0 <= k < i && slots[k].state == Missing
    {
      var state := InSync;
      if pvs[i].missing {
        state := Missing;
        degraded := true;
      } else if moving && pvs[i].name in added {
        state := Rebuilding;
      }
      slots := slots + [Slot(pvs[i].name, state)];
    }
  }

  method FindOrphans(v: View) returns (names: map<string, string>, orphans: seq<string>)
    requires Resolves(v)
    ensures names == Names(v) && orphans == Lost(v)
  {
    names := map[];
    for i := 0 to |v.spec|
      invariant names == SpecPaths(v.spec[..i], v.resolved)
    {
      assert v.spec[..i + 1][..i] == v.spec[..i];
      names := names[v.resolved[v.spec[i]] := v.spec[i]];
    }
    assert v.spec[..|v.spec|] == v.spec;
    var present: set<string> := {};
    for i := 0 to |v.slots|
      invariant present == PresentSpec(v.raid, names, v.slots[..i])
    {
      var s := v.slots[i];
      assert v.slots[..i + 1] == v.slots[..i] + [s];
      if s.name in names && (if v.raid then s.name != "" else s.state != Missing) {
        present := present + {names[s.name]};
      }
    }
    assert v.slots[..|v.slots|] == v.slots;
    orphans := [];
    for i := 0 to |v.spec|
      invariant orphans == Orphans(v.spec[..i], present)
    {
      assert v.spec[..i + 1][..i] == v.spec[..i];
      if v.spec[i] !in present {
        orphans := orphans + [v.spec[i]];
      }
    }
  }

  /** What is left of the orphans after `rank` pairings. */
  function Unpaired(lost: seq<string>, rank: nat): seq<string> {
    if rank <= |lost| then lost[rank..] else []
  }

  method NameSlot(
      raid: bool, names: map<string, string>, ghost lost: seq<string>, s: Slot, orphans: seq<string>, ghost rank: nat)
    returns (row: Row, left: seq<string>)
    requires orphans == Unpaired(lost, rank)
    ensures row == RowFor(raid, names, lost, s, rank)
    ensures left == Unpaired(lost, rank + if Pairs(raid, names, s) then 1 else 0)
  {
    left := orphans;
    if s.name in names && (raid ==> s.name != "") {
      return Row(names[s.name], s.state), left;
    }
    var path := s.name;
    if (if raid then s.state != InSync else s.state == Missing) && |orphans| > 0 {
      path, left := orphans[0], orphans[1..];
    }
    return Row(path, s.state), left;
  }

  method Report(v: View) returns (rows: seq<Row>)
    requires Resolves(v)
    ensures |rows| == |v.slots| && forall i :: 0 <= i < |rows| ==> rows[i] == ReportRow(v, i)
  {
    var names, orphans := FindOrphans(v);
    rows := NameAll(v.raid, names, orphans, v.slots);
  }

  ghost predicate RowsOf(
      raid: bool, names: map<string, string>, lost: seq<string>, slots: seq<Slot>, rows: seq<Row>) {
    |rows| <= |slots| && forall i :: 0 <= i < |rows| ==> rows[i] == RowAt(raid, names, lost, slots, i)
  }

  lemma RowsGrow(raid: bool, names: map<string, string>, lost: seq<string>, slots: seq<Slot>, rows: seq<Row>, row: Row)
    requires RowsOf(raid, names, lost, slots, rows) && |rows| < |slots|
    requires row == RowAt(raid, names, lost, slots, |rows|)
    ensures RowsOf(raid, names, lost, slots, rows + [row])
  {
  }

  method NameAll(raid: bool, names: map<string, string>, lost: seq<string>, slots: seq<Slot>) returns (rows: seq<Row>)
    ensures |rows| == |slots| && RowsOf(raid, names, lost, slots, rows)
  {
    var orphans := lost;
    rows := [];
    for i := 0 to |slots|
      invariant |rows| == i && RowsOf(raid, names, lost, slots, rows)
      invariant orphans == Unpaired(lost, Rank(raid, names, slots, i))
    {
      var row;
      row, orphans := NameSlot(raid, names, lost, slots[i], orphans, Rank(raid, names, slots, i));
      RowsGrow(raid, names, lost, slots, rows, row);
      rows := rows + [row];
    }
  }

  /** The UI's view: spec order, with the state reported under that very path, if any. */
  datatype Shown = Unreported | Shown(state: SlotState)

  function Observed(rows: seq<Row>): map<string, SlotState> {
    if rows == [] then map[] else Observed(rows[..|rows| - 1])[rows[|rows| - 1].path := rows[|rows| - 1].state]
  }

  method Join(spec: seq<string>, rows: seq<Row>) returns (shown: seq<Shown>)
    ensures |shown| == |spec|
    ensures forall i :: 0 <= i < |spec| ==>
      shown[i] == if spec[i] in Observed(rows) then Shown(Observed(rows)[spec[i]]) else Unreported
  {
    var observed: map<string, SlotState> := map[];
    for i := 0 to |rows|
      invariant observed == Observed(rows[..i])
    {
      assert rows[..i + 1][..i] == rows[..i];
      observed := observed[rows[i].path := rows[i].state];
    }
    assert rows[..|rows|] == rows;
    shown := [];
    for i := 0 to |spec|
      invariant |shown| == i
      invariant forall k :: 0 <= k < i ==>
        shown[k] == if spec[k] in observed then Shown(observed[spec[k]]) else Unreported
    {
      shown := shown + [if spec[i] in observed then Shown(observed[spec[i]]) else Unreported];
    }
  }

  // ---- what the report promises --------------------------------------------------------

  /**
   Distinct spec devices resolve to distinct, non-empty kernel paths; live slots
   have distinct names; a lost member is not printed under a spec device's
   kernel path; and a kernel path that happens to be a spec entry resolves to itself.
   */
  ghost predicate Faithful(v: View) {
    && Resolves(v)
    && (forall i, j :: 0 <= i < j < |v.spec| ==> v.spec[i] != v.spec[j])
    && (forall c, d :: c in v.spec && d in v.spec && v.resolved[c] == v.resolved[d] ==> c == d)
    && (forall d :: d in v.spec ==> v.resolved[d] != "")
    && (forall i, j :: 0 <= i < j < |v.slots| && OnSpec(v, v.slots[i].name) ==> v.slots[i].name != v.slots[j].name)
    && (forall s :: s in v.slots && s.state == Missing ==> !OnSpec(v, s.name))
    && (forall s :: s in v.slots && s.name in v.spec ==> v.resolved[s.name] == s.name)
  }

  ghost predicate OnSpec(v: View, name: string)
    requires Resolves(v)
  {
    exists d :: d in v.spec && v.resolved[d] == name
  }

  lemma {:induction false} SpecPathsAre(spec: seq<string>, resolved: map<string, string>, name: string)
    requires forall d :: d in spec ==> d in resolved
    ensures name in SpecPaths(spec, resolved) <==> exists d :: d in spec && resolved[d] == name
    ensures name in SpecPaths(spec, resolved) ==>
      SpecPaths(spec, resolved)[name] in spec && resolved[SpecPaths(spec, resolved)[name]] == name
  {
    if spec != [] {
      var n := |spec| - 1;
      SpecPathsAre(spec[..n], resolved, name);
      assert spec == spec[..n] + [spec[n]];
    }
  }

  lemma {:induction false} OrphansAre(spec: seq<string>, present: set<string>)
    ensures forall d :: d in Orphans(spec, present) <==> d in spec && d !in present
    ensures (forall i, j :: 0 <= i < j < |spec| ==> spec[i] != spec[j]) ==>
      forall i, j :: 0 <= i < j < |Orphans(spec, present)| ==> Orphans(spec, present)[i] != Orphans(spec, present)[j]
  {
    if spec != [] {
      var n := |spec| - 1;
      OrphansAre(spec[..n], present);
      assert spec == spec[..n] + [spec[n]];
      var earlier := Orphans(spec[..n], present);
      assert forall i :: 0 <= i < |earlier| ==> earlier[i] in earlier;
    }
  }

  lemma {:induction false} RankMonotone(raid: bool, names: map<string, string>, slots: seq<Slot>, i: nat, j: nat)
    requires i < j <= |slots|
    ensures Rank(raid, names, slots, i) + (if Pairs(raid, names, slots[i]) then 1 else 0) <=
      Rank(raid, names, slots, j)
    decreases j
  {
    if i < j - 1 {
      RankMonotone(raid, names, slots, i, j - 1);
    }
  }

  lemma {:induction false} RankIsReached(
      raid: bool, names: map<string, string>, slots: seq<Slot>, n: nat, r: nat)
    returns (i: nat)
    requires n <= |slots| && r < Rank(raid, names, slots, n)
    ensures i < n && Pairs(raid, names, slots[i]) && Rank(raid, names, slots, i) == r
  {
    if r < Rank(raid, names, slots, n - 1) {
      i := RankIsReached(raid, names, slots, n - 1, r);
    } else {
      i := n - 1;
    }
  }

  /** A member whose disk is there is reported under its own spec path. */
  lemma PresentUnderOwnPath(v: View, i: nat, d: string)
    requires Faithful(v) && i < |v.slots| && d in v.spec && v.slots[i].name == v.resolved[d]
    ensures ReportRow(v, i) == Row(d, v.slots[i].state)
  {
    SpecPathsAre(v.spec, v.resolved, v.slots[i].name);
  }

  /** No spec device is named by two rows. */
  lemma NamedAtMostOnce(v: View, i: nat, j: nat)
    requires Faithful(v) && i < j < |v.slots|
    requires ReportRow(v, i).path in v.spec
    ensures ReportRow(v, i).path != ReportRow(v, j).path
  {
    var names, lost := Names(v), Lost(v);
    var a, b := v.slots[i], v.slots[j];
    SpecPathsAre(v.spec, v.resolved, a.name);
    SpecPathsAre(v.spec, v.resolved, b.name);
    OrphansAre(v.spec, PresentSpec(v.raid, names, v.slots));
    RankMonotone(v.raid, names, v.slots, i, j);
    assert a in v.slots && b in v.slots;
    assert forall k :: 0 <= k < |lost| ==> lost[k] in lost;
    assert Matched(v.raid, names, a) ==> names[a.name] in PresentSpec(v.raid, names, v.slots);
    assert Matched(v.raid, names, b) ==> names[b.name] in PresentSpec(v.raid, names, v.slots);
  }

  // ---- on slots and spec alone -------------------------------------------------------------

  /** Slot i is under no spec device's kernel path and is bad: not in sync in an array, lost in a linear pool. */
  ghost predicate BadSlot(v: View, i: nat)
    requires Resolves(v) && i < |v.slots|
  {
    && (forall e :: e in v.spec ==> v.resolved[e] != v.slots[i].name)
    && (if v.raid then v.slots[i].state != InSync else v.slots[i].state == Missing)
  }

  /** Spec device d has no present member under its kernel path. */
  ghost predicate LostDisk(v: View, d: string)
    requires Resolves(v) && d in v.spec
  {
    forall s :: s in v.slots && s.name == v.resolved[d] ==> !v.raid && s.state == Missing
  }

  ghost function BadSlots(v: View): set<nat>
    requires Resolves(v)
  {
    set i | 0 <= i < |v.slots| && BadSlot(v, i)
  }

  ghost function LostDisks(v: View): set<string>
    requires Resolves(v)
  {
    set d | d in v.spec && LostDisk(v, d)
  }

  lemma PairsAreBadSlots(v: View, i: nat)
    requires Faithful(v) && i < |v.slots|
    ensures Pairs(v.raid, Names(v), v.slots[i]) <==> BadSlot(v, i)
  {
    var s := v.slots[i];
    SpecPathsAre(v.spec, v.resolved, s.name);
    assert s in v.slots;
  }

  lemma LostAreLostDisks(v: View, d: string)
    requires Faithful(v)
    ensures d in Lost(v) <==> d in LostDisks(v)
  {
    var present := PresentSpec(v.raid, Names(v), v.slots);
    OrphansAre(v.spec, present);
    forall s | s in v.slots
      ensures s.name in Names(v) <==> OnSpec(v, s.name)
      ensures s.name in Names(v) ==> Names(v)[s.name] in v.spec && v.resolved[Names(v)[s.name]] == s.name
    {
      SpecPathsAre(v.spec, v.resolved, s.name);
    }
    if d in v.spec {
      if s :| s in v.slots && s.name == v.resolved[d] && (v.raid || s.state != Missing) {
        assert OnSpec(v, s.name);
        assert Names(v)[s.name] == d && Present(v.raid, Names(v), s);
        assert d in present;
      } else {
        assert LostDisk(v, d);
      }
    }
  }

  lemma {:induction false} DistinctCardinality(s: seq<string>)
    requires forall i, j :: 0 <= i < j < |s| ==> s[i] != s[j]
    ensures |set d | d in s| == |s|
  {
    if s != [] {
      var n := |s| - 1;
      DistinctCardinality(s[..n]);
      assert s == s[..n] + [s[n]];
      assert (set d | d in s) == (set d | d in s[..n]) + {s[n]};
      assert s[n] !in s[..n];
    }
  }

  ghost function BadUpTo(v: View, n: nat): set<nat>
    requires Resolves(v) && n <= |v.slots|
  {
    set i | 0 <= i < n && BadSlot(v, i)
  }

  lemma BadGrow(v: View, n: nat)
    requires Resolves(v) && n < |v.slots|
    ensures |BadUpTo(v, n + 1)| == |BadUpTo(v, n)| + if BadSlot(v, n) then 1 else 0
  {
    assert BadUpTo(v, n + 1) == BadUpTo(v, n) + if BadSlot(v, n) then {n} else {};
  }

  lemma {:induction false} RankCounts(v: View, n: nat)
    requires Faithful(v) && n <= |v.slots|
    ensures Rank(v.raid, Names(v), v.slots, n) == |BadUpTo(v, n)|
  {
    if n == 0 {
      assert BadUpTo(v, n) == {};
    } else {
      RankCounts(v, n - 1);
      PairsAreBadSlots(v, n - 1);
      BadGrow(v, n - 1);
    }
  }

  /**
   With as many bad slots under no spec path as there are spec devices without a present member, every such device
   is named by a row in a bad state, so the replace flow can name the victim.
   */
  lemma EveryLostDiskIsNamed(v: View, d: string) returns (i: nat)
    requires Faithful(v) && d in v.spec && LostDisk(v, d) && |BadSlots(v)| >= |LostDisks(v)|
    ensures i < |v.slots| && BadSlot(v, i) && ReportRow(v, i) == Row(d, v.slots[i].state)
  {
    LostAreLostDisks(v, d);
    LostIsCounted(v);
    RankCounts(v, |v.slots|);
    assert BadSlots(v) == BadUpTo(v, |v.slots|);
    var r :| 0 <= r < |Lost(v)| && Lost(v)[r] == d;
    i := RankIsReached(v.raid, Names(v), v.slots, |v.slots|, r);
    PairsAreBadSlots(v, i);
  }

  /** A mirror that lost its second disk: the slot without a path is reported as that disk. */
  lemma DeadSlotByExample(v: View)
    requires v.raid && v.spec == ["a", "b"] && v.resolved == map["a" := "/dev/sda", "b" := "b"]
    requires v.slots == [Slot("/dev/sda", InSync), Slot("", Missing)]
    ensures Faithful(v) && ReportRow(v, 0) == Row("a", InSync) && ReportRow(v, 1) == Row("b", Missing)
  {
    assert v.slots[0] in v.slots && v.slots[1] in v.slots && v.spec[0] in v.spec && v.spec[1] in v.spec;
    PresentUnderOwnPath(v, 0, "a");
    assert BadSlots(v) == {1};
    assert LostDisks(v) == {"b"};
    var i := EveryLostDiskIsNamed(v, "b");
  }

  lemma LostIsCounted(v: View)
    requires Faithful(v)
    ensures |Lost(v)| == |LostDisks(v)|
  {
    OrphansAre(v.spec, PresentSpec(v.raid, Names(v), v.slots));
    DistinctCardinality(Lost(v));
    forall d
      ensures d in Lost(v) <==> d in LostDisks(v)
    {
      LostAreLostDisks(v, d);
    }
    assert (set d | d in Lost(v)) == LostDisks(v);
  }

  /** A slot that is neither is reported as the host names it. */
  lemma OthersKeepTheirName(v: View, i: nat)
    requires Faithful(v) && i < |v.slots| && !BadSlot(v, i) && forall e :: e in v.spec ==>
      v.resolved[e] != v.slots[i].name
    ensures ReportRow(v, i) == Row(v.slots[i].name, v.slots[i].state)
  {
    PairsAreBadSlots(v, i);
    SpecPathsAre(v.spec, v.resolved, v.slots[i].name);
  }

  /** The UI shows nothing for a device that no row is about. */
  lemma {:induction false} ObservedComesFromRows(rows: seq<Row>, path: string)
    ensures path in Observed(rows) ==> Row(path, Observed(rows)[path]) in rows
  {
    if rows != [] {
      ObservedComesFromRows(rows[..|rows| - 1], path);
    }
  }

  lemma {:induction false} ObservedKeeps(rows: seq<Row>, i: nat)
    requires i < |rows| && forall j :: i < j < |rows| ==> rows[j].path != rows[i].path
    ensures rows[i].path in Observed(rows) && Observed(rows)[rows[i].path] == rows[i].state
  {
    if i < |rows| - 1 {
      ObservedKeeps(rows[..|rows| - 1], i);
    }
  }

  /** The join by path loses nothing: every row about a spec device is exactly what the UI shows for it. */
  lemma {:induction false} JoinLosesNothing(v: View, rows: seq<Row>, i: nat)
    requires Faithful(v) && |rows| == |v.slots| && forall k :: 0 <= k < |rows| ==> rows[k] == ReportRow(v, k)
    requires i < |rows| && rows[i].path in v.spec
    ensures rows[i].path in Observed(rows) && Observed(rows)[rows[i].path] == rows[i].state
  {
    forall j | i < j < |rows|
      ensures rows[j].path != rows[i].path
    {
      NamedAtMostOnce(v, i, j);
    }
    ObservedKeeps(rows, i);
  }
}
