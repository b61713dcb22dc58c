/**
 One disk of an md array swapped, live or dead: passes and syncs, in any order,
 end with the spec's devices in sync.
 */
module RaidSwap {
  import opened SlotStates
  import opened RaidReplace

  function SpecOf(kernel: seq<string>): set<string> { set p | p in kernel }

  /** Member x is on its way out and spec device d on its way in; all other spec devices are in sync. */
  ghost predicate SlotFits(m: Member, spec: set<string>, x: string, d: string) {
    if m.path == "" then m.state == Missing
    else if m.path == x then m.state == InSync || m.state == Failed
    else if m.path == d then m.state == Rebuilding || m.state == InSync
    else m.path in spec && m.state == InSync
  }

  ghost predicate Swapping(a: Array, spec: set<string>, x: string, d: string) {
    && Valid(a) && d in spec && x !in spec && x != "" && spec <= a.attached
    && (forall m :: m in a.members ==> SlotFits(m, spec, x, d))
    && (forall p :: p in spec && p != d ==> Member(p, InSync) in a.members)
    && !(Member(x, InSync) in a.members && Member(d, InSync) in a.members)
    && a.replacing ==
       if Member(x, InSync) in a.members && Member(d, Rebuilding) in a.members then map[x := d] else map[]
  }

  /** Steps left for the newcomer, and for the outgoing member. */
  ghost function SwapWork(a: Array, x: string, d: string): nat {
    (if Member(d, InSync) in a.members then 0 else if Member(d, Rebuilding) in a.members then 1 else 2) +
    (if Member(x, InSync) in a.members then 2 else if Member(x, Failed) in a.members then 1 else 0)
  }

  /** The members are the spec's devices, all in sync. */
  ghost predicate Swapped(a: Array, spec: set<string>) {
    && (forall m :: m in a.members && m.path != "" ==> m.path in spec && m.state == InSync)
    && (forall p :: p in spec ==> Member(p, InSync) in a.members)
  }

  lemma NoWorkMeansSwapped(a: Array, spec: set<string>, x: string, d: string)
    requires Swapping(a, spec, x, d) && SwapWork(a, x, d) == 0
    ensures Swapped(a, spec)
  {
    forall m | m in a.members && m.path != ""
      ensures m.path in spec && m.state == InSync
    {
      assert SlotFits(m, spec, x, d);
      if m.path == d {
        SamePathSame(a.members, m, Member(d, InSync));
      }
    }
  }

  lemma SamePathSame(ms: seq<Member>, m: Member, n: Member)
    requires UniquePaths(ms) && m in ms && n in ms && m.path == n.path && m.path != ""
    ensures m == n
  {
    var i :| 0 <= i < |ms| && ms[i] == m;
    var j :| 0 <= j < |ms| && ms[j] == n;
  }

  lemma MapMembers(ms: seq<Member>, f: Member -> Member)
    ensures forall m :: m in ms ==> f(m) in Map(ms, f)
    ensures forall r :: r in Map(ms, f) ==> exists m :: m in ms && f(m) == r
  {
    forall m | m in ms
      ensures f(m) in Map(ms, f)
    {
      var i :| 0 <= i < |ms| && ms[i] == m;
      assert Map(ms, f)[i] == f(m);
    }
    forall r | r in Map(ms, f)
      ensures exists m :: m in ms && f(m) == r
    {
      var i :| 0 <= i < |ms| && Map(ms, f)[i] == r;
      assert ms[i] in ms;
    }
  }

  lemma DetachKeepsSwap(a: Array, spec: set<string>, x: string, d: string)
    requires Swapping(a, spec, x, d)
    ensures var b := Exec(a, FailDetached); Swapping(b, spec, x, d) && SwapWork(b, x, d) <= SwapWork(a, x, d)
  {
    var b := Exec(a, FailDetached);
    var f := (m: Member) => FailIfDetached(a.attached, m);
    CommandKeepsRedundancy(a, FailDetached);
    MapMembers(a.members, f);
    assert b.members == Map(a.members, f);
    forall m | m in a.members
      ensures f(m) == m || (m.path == x && f(m) == Member(x, Failed))
    {
      assert SlotFits(m, spec, x, d);
    }
    SameButOutgoing(a, b, spec, x, d);
  }

  /** Nothing but the outgoing member's failing. */
  lemma SameButOutgoing(a: Array, b: Array, spec: set<string>, x: string, d: string)
    requires Swapping(a, spec, x, d) && Valid(b) && b.attached == a.attached
    requires b == Settled(b.(replacing := a.replacing))
    requires forall m :: m in a.members ==> m in b.members || (m.path == x && Member(x, Failed) in b.members)
    requires forall m :: m in b.members ==> m in a.members || m == Member(x, Failed)
    requires Member(x, Failed) in b.members ==> Member(x, InSync) in a.members || Member(x, Failed) in a.members
    ensures Swapping(b, spec, x, d) && SwapWork(b, x, d) <= SwapWork(a, x, d)
  {
  }

  lemma RemoveKeepsSwap(a: Array, spec: set<string>, x: string, d: string)
    requires Swapping(a, spec, x, d)
    ensures var b := Exec(a, RemoveFailed); Swapping(b, spec, x, d) && SwapWork(b, x, d) <= SwapWork(a, x, d)
  {
    var b := Exec(a, RemoveFailed);
    CommandKeepsRedundancy(a, RemoveFailed);
    RemovedMembers(a.members);
    SameButRemoved(a, b, spec, x, d);
  }

  lemma RemovedMembers(ms: seq<Member>)
    ensures var rs := Map(ms, m => RemoveIfFailed(m));
      && (forall m :: m in ms && m.state != Failed ==> m in rs)
      && (forall m :: m in rs ==> m == Member("", Missing) || (m in ms && m.state != Failed))
  {
    var f := (m: Member) => RemoveIfFailed(m);
    MapMembers(ms, f);
    assert Map(ms, f) == Map(ms, m => RemoveIfFailed(m));
    forall m | m in ms && m.state != Failed
      ensures m in Map(ms, f)
    {
      assert f(m) in Map(ms, f);
    }
  }

  /** Nothing but failed members leaving their slots. */
  lemma SameButRemoved(a: Array, b: Array, spec: set<string>, x: string, d: string)
    requires Swapping(a, spec, x, d) && Valid(b) && b.attached == a.attached
    requires b == Settled(b.(replacing := a.replacing))
    requires forall m :: m in a.members && m.state != Failed ==> m in b.members
    requires forall m :: m in b.members ==> m == Member("", Missing) || (m in a.members && m.state != Failed)
    ensures Swapping(b, spec, x, d) && SwapWork(b, x, d) <= SwapWork(a, x, d)
  {
  }

  lemma AdmitKeepsSwap(a: Array, c: Command, spec: set<string>, x: string, d: string)
    requires Swapping(a, spec, x, d) && WellChosen(a, c, spec) && (c.Add? || c.Replace?)
    ensures var b := Exec(a, c); Swapping(b, spec, x, d) && SwapWork(b, x, d) <= SwapWork(a, x, d)
  {
    if CanAdd(a, c.path) {
      CommandKeepsRedundancy(a, c);
      EnlistKeeps(a.members, c.path, a.attached);
      NewcomerIsD(a, c.path, spec, x, d);
      if c.Replace? {
        assert SlotFits(Member(c.victim, InSync), spec, x, d);
      } else {
        assert Member(x, InSync) in a.members ==> Outsider(Member(x, InSync), spec);
      }
    }
  }

  lemma NewcomerIsD(a: Array, p: string, spec: set<string>, x: string, d: string)
    requires Swapping(a, spec, x, d) && p in spec && !IsMember(a.members, p)
    ensures p == d && Member(d, InSync) !in a.members && Member(d, Rebuilding) !in a.members
  {
    assert forall m :: m in a.members ==> IsMember(a.members, m.path);
  }

  lemma CommandKeepsSwap(a: Array, c: Command, spec: set<string>, x: string, d: string)
    requires Swapping(a, spec, x, d) && WellChosen(a, c, spec)
    ensures var b := Exec(a, c); Swapping(b, spec, x, d) && SwapWork(b, x, d) <= SwapWork(a, x, d)
  {
    match c
    case FailDetached => DetachKeepsSwap(a, spec, x, d);
    case RemoveFailed => RemoveKeepsSwap(a, spec, x, d);
    case Add(_) => AdmitKeepsSwap(a, c, spec, x, d);
    case Replace(_, _) => AdmitKeepsSwap(a, c, spec, x, d);
  }

  lemma {:induction false} LogKeepsSwap(a: Array, log: seq<Command>, spec: set<string>, x: string, d: string)
    requires Swapping(a, spec, x, d) && PassLog(a, log, spec)
    ensures var b := ExecAll(a, log); Swapping(b, spec, x, d) && SwapWork(b, x, d) <= SwapWork(a, x, d)
  {
    if log != [] {
      var n := |log| - 1;
      assert PassLog(a, log[..n], spec) by {
        assert forall i :: 0 <= i < n ==> log[..n][..i] == log[..i];
      }
      LogKeepsSwap(a, log[..n], spec, x, d);
      assert WellChosen(ExecAll(a, log[..n]), log[n], spec);
      CommandKeepsSwap(ExecAll(a, log[..n]), log[n], spec, x, d);
    }
  }

  /** A pass that was refused nothing, over spec devices that are all there, as the method Pass promises it. */
  ghost predicate PassRan(a: Array, b: Array, kernel: seq<string>) {
    var spec := SpecOf(kernel);
    exists log :: PassLog(a, log, spec) && b == ExecAll(a, log) && Converged(b, kernel, spec)
  }

  /** After such a pass the swap is done or the newcomer is rebuilding. */
  lemma PassAdvances(a: Array, b: Array, kernel: seq<string>, x: string, d: string)
    requires var spec := SpecOf(kernel); Swapping(a, spec, x, d) && PassRan(a, b, kernel)
    ensures var spec := SpecOf(kernel);
      && Swapping(b, spec, x, d) && SwapWork(b, x, d) <= SwapWork(a, x, d)
      && (Member(d, Rebuilding) in b.members || Swapped(b, spec))
  {
    var spec := SpecOf(kernel);
    var log :| PassLog(a, log, spec) && b == ExecAll(a, log) && Converged(b, kernel, spec);
    LogKeepsSwap(a, log, spec, x, d);
    var i :| 0 <= i < |kernel| && kernel[i] == d;
    assert IsMember(b.members, kernel[i]);
    var j :| 0 <= j < |b.members| && b.members[j].path == d;
    assert SlotFits(b.members[j], spec, x, d) && b.members[j] in b.members;
    if Member(d, Rebuilding) !in b.members {
      NoWorkMeansSwapped(b, spec, x, d);
    }
  }

  /** The newcomer's sync ends its rebuild and, in a takeover, fails the outgoing member. */
  lemma SyncAdvances(a: Array, p: string, spec: set<string>, x: string, d: string)
    requires Swapping(a, spec, x, d) && Possible(a, SyncDone(p))
    ensures p == d
    ensures var b := After(a, SyncDone(p));
      Swapping(b, spec, x, d) && SwapWork(b, x, d) < SwapWork(a, x, d) && Member(d, Rebuilding) !in b.members
  {
    assert SlotFits(Member(p, Rebuilding), spec, x, d);
    SyncKeepsRedundancy(a, d);
    OneStatePerPath(a, spec, x, d);
    if Member(x, InSync) in a.members {
      assert a.replacing == map[x := d] && x in a.replacing;
      assert Relieved(a, d) == x;
      assert a.replacing - {x} == map[];
      TakenOver(a.members, x, d);
      TakeoverFacts(a, After(a, SyncDone(d)), spec, x, d);
    } else {
      assert a.replacing == map[];
      Synced(a.members, d);
      RebuiltFacts(a, After(a, SyncDone(d)), spec, x, d);
    }
  }

  /** The members after a sync of d: only its own state changes. */
  lemma Synced(ms: seq<Member>, d: string)
    requires forall m :: m in ms && m.path == d ==> m.state == Rebuilding
    ensures var rs := Map(ms, m => SyncIf(d, m));
      && (forall m :: m in ms ==> (if m.path == d then Member(d, InSync) else m) in rs)
      && (forall m :: m in rs ==> (m == Member(d, InSync) && Member(d, Rebuilding) in ms) || (m in ms && m.path != d))
  {
    var f := (m: Member) => SyncIf(d, m);
    MapMembers(ms, f);
    assert Map(ms, f) == Map(ms, m => SyncIf(d, m));
    forall m | m in ms
      ensures f(m) == if m.path == d then Member(d, InSync) else m
    {
    }
  }

  /** And in a takeover the outgoing member's. */
  lemma TakenOver(ms: seq<Member>, x: string, d: string)
    requires x != d && forall m :: m in ms && m.path == d ==> m.state == Rebuilding
    ensures var rs := Map(Map(ms, m => SyncIf(d, m)), m => FailIf(x, m));
      && (forall m :: m in ms ==>
        (if m.path == d then Member(d, InSync) else if m.path == x then Member(x, Failed) else m) in rs)
      && (forall m :: m in rs ==>
        m == Member(d, InSync) || m == Member(x, Failed) || (m in ms && m.path != d && m.path != x))
  {
    var mid := Map(ms, m => SyncIf(d, m));
    var g := (m: Member) => FailIf(x, m);
    Synced(ms, d);
    MapMembers(mid, g);
    assert Map(mid, g) == Map(mid, m => FailIf(x, m));
    forall m | m in ms
      ensures (if m.path == d then Member(d, InSync) else if m.path == x then Member(x, Failed) else m) in Map(mid, g)
    {
      var n := if m.path == d then Member(d, InSync) else m;
      assert n in mid && g(n) in Map(mid, g);
    }
  }

  lemma OneStatePerPath(a: Array, spec: set<string>, x: string, d: string)
    requires Swapping(a, spec, x, d) && Member(d, Rebuilding) in a.members
    ensures forall m :: m in a.members && m.path == d ==> m.state == Rebuilding
  {
    forall m | m in a.members && m.path == d
      ensures m.state == Rebuilding
    {
      SamePathSame(a.members, m, Member(d, Rebuilding));
    }
  }

  lemma RebuiltFacts(a: Array, b: Array, spec: set<string>, x: string, d: string)
    requires Swapping(a, spec, x, d) && Member(d, Rebuilding) in a.members && Member(x, InSync) !in a.members
    requires Member(d, InSync) !in a.members
    requires Valid(b) && b.attached == a.attached && b.replacing == map[]
    requires forall m :: m in a.members ==> (if m.path == d then Member(d, InSync) else m) in b.members
    requires forall m :: m in b.members ==> m == Member(d, InSync) || (m in a.members && m.path != d)
    ensures Swapping(b, spec, x, d) && SwapWork(b, x, d) < SwapWork(a, x, d) && Member(d, Rebuilding) !in b.members
  {
  }

  lemma TakeoverFacts(a: Array, b: Array, spec: set<string>, x: string, d: string)
    requires Swapping(a, spec, x, d) && Member(d, Rebuilding) in a.members && Member(x, InSync) in a.members
    requires Valid(b) && b.attached == a.attached && b.replacing == map[]
    requires forall m :: m in a.members ==>
      (if m.path == d then Member(d, InSync) else if m.path == x then Member(x, Failed) else m) in b.members
    requires Member(d, InSync) !in a.members
    requires forall m :: m in b.members ==>
      m == Member(d, InSync) || m == Member(x, Failed) || (m in a.members && m.path != d && m.path != x)
    ensures Swapping(b, spec, x, d) && SwapWork(b, x, d) < SwapWork(a, x, d) && Member(d, Rebuilding) !in b.members
  {
  }

  ghost predicate SwapFollows(states: seq<Array>, kernel: seq<string>, i: nat)
    requires i + 1 < |states|
  {
    PassRan(states[i], states[i + 1], kernel) || SyncRan(states[i], states[i + 1])
  }

  ghost predicate SyncRan(a: Array, b: Array) {
    exists p :: Possible(a, SyncDone(p)) && b == After(a, SyncDone(p))
  }

  ghost predicate SwapHistory(states: seq<Array>, kernel: seq<string>, x: string, d: string) {
    && |states| > 0 && Swapping(states[0], SpecOf(kernel), x, d)
    && forall i :: 0 <= i < |states| - 1 ==> SwapFollows(states, kernel, i)
  }

  ghost predicate OnCourse(states: seq<Array>, kernel: seq<string>, x: string, d: string, i: nat)
    requires i < |states|
  {
    Swapping(states[i], SpecOf(kernel), x, d) && SwapWork(states[i], x, d) <= SwapWork(states[0], x, d)
  }

  lemma SwapStep(states: seq<Array>, kernel: seq<string>, x: string, d: string, i: nat)
    requires SwapHistory(states, kernel, x, d) && i + 1 < |states| && OnCourse(states, kernel, x, d, i)
    ensures OnCourse(states, kernel, x, d, i + 1)
  {
    var a, b := states[i], states[i + 1];
    assert SwapFollows(states, kernel, i);
    if PassRan(a, b, kernel) {
      PassAdvances(a, b, kernel, x, d);
    } else {
      var p :| Possible(a, SyncDone(p)) && b == After(a, SyncDone(p));
      SyncAdvances(a, p, SpecOf(kernel), x, d);
    }
  }

  lemma {:induction false} SwapHistoryKeeps(states: seq<Array>, kernel: seq<string>, x: string, d: string, i: nat)
    requires SwapHistory(states, kernel, x, d) && i < |states|
    ensures OnCourse(states, kernel, x, d, i)
  {
    if i > 0 {
      SwapHistoryKeeps(states, kernel, x, d, i - 1);
      SwapStep(states, kernel, x, d, i - 1);
    }
  }

  /**
   Over every history of passes and syncs of a swap: there is never more to do, and where a pass ran last and
   nothing is rebuilding the members are exactly the spec's devices, all in sync.
   */
  lemma SwapEnds(states: seq<Array>, kernel: seq<string>, x: string, d: string, i: nat)
    requires SwapHistory(states, kernel, x, d) && i + 1 < |states| && PassRan(states[i], states[i + 1], kernel)
    ensures SwapWork(states[i + 1], x, d) <= SwapWork(states[0], x, d)
    ensures Member(d, Rebuilding) in states[i + 1].members || Swapped(states[i + 1], SpecOf(kernel))
  {
    SwapHistoryKeeps(states, kernel, x, d, i);
    SwapHistoryKeeps(states, kernel, x, d, i + 1);
    PassAdvances(states[i], states[i + 1], kernel, x, d);
  }

  /** A live swap begins like this: the newcomer takes over from the outgoing member, which stays in sync. */
  lemma SwapByExample(a: Array)
    requires a == Array([Member("a", InSync), Member("x", InSync)], map[], {"a", "x", "d"})
    ensures Swapping(a, {"a", "d"}, "x", "d") && WellChosen(a, Replace("x", "d"), {"a", "d"})
    ensures Exec(a, Replace("x", "d")) ==
      Array([Member("a", InSync), Member("x", InSync), Member("d", Rebuilding)], map["x" := "d"], a.attached)
  {
    var ms := a.members;
    assert ms[1..] == [Member("x", InSync)] && ms[1..][1..] == [];
    assert Enlist(ms[1..], "d") == [Member("x", InSync), Member("d", Rebuilding)];
    assert Enlist(ms, "d") == [Member("a", InSync), Member("x", InSync), Member("d", Rebuilding)];
    assert Member("a", InSync) in ms && Member("x", InSync) in ms;
  }
}
