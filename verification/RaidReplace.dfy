/** The state words the pool status uses for a member. */
module SlotStates {
  datatype SlotState = InSync | Rebuilding | Failed | Missing
}

/**
 Disk replacement in a raid pool: the membership half of ensureRaidPool in
 internal/agent/pool.go over an abstract md array with the mdadm commands of
 internal/mdraid/mdraid.go. `--replace` keeps the old member in sync until the
 newcomer is, then fails it.
 */
module RaidReplace {

  import opened SlotStates

  /** path == "" is a slot whose disk was removed. */
  datatype Member = Member(path: string, state: SlotState)

  /** `replacing` maps a member to the newcomer taking over from it; `attached` are the device nodes present. */
  datatype Array = Array(members: seq<Member>, replacing: map<string, string>, attached: set<string>)

  /** FailMember is there because mdadm offers it; a pass must not use it on a healthy disk. */
  datatype Command =
    | FailDetached
    | RemoveFailed
    | Add(path: string)
    | Replace(victim: string, path: string)
    | FailMember(path: string)

  predicate IsMember(ms: seq<Member>, p: string) {
    exists i :: 0 <= i < |ms| && ms[i].path == p
  }

  function Map(ms: seq<Member>, f: Member -> Member): (r: seq<Member>)
    ensures |r| == |ms| && forall i :: 0 <= i < |ms| ==> r[i] == f(ms[i])
  {
    seq(|ms|, i requires 0 <= i < |ms| => f(ms[i]))
  }

  function FailIfDetached(attached: set<string>, m: Member): Member {
    if m.path != "" && m.path !in attached then m.(state := Failed) else m
  }

  function RemoveIfFailed(m: Member): Member {
    if m.state == Failed then Member("", Missing) else m
  }

  function FailIf(p: string, m: Member): Member {
    if m.path == p then m.(state := Failed) else m
  }

  function SyncIf(p: string, m: Member): Member {
    if m.path == p && m.state == Rebuilding then m.(state := InSync) else m
  }

  /** A newcomer takes the first vacant slot, or waits as a spare; mdadm lists both as not yet in sync. */
  function Enlist(ms: seq<Member>, p: string): seq<Member> {
    if ms == [] then [Member(p, Rebuilding)]
    else if ms[0].state == Missing then [Member(p, Rebuilding)] + ms[1..]
    else [ms[0]] + Enlist(ms[1..], p)
  }

  predicate CanAdd(a: Array, p: string) {
    p != "" && p in a.attached && !IsMember(a.members, p)
  }

  predicate CanReplace(a: Array, victim: string) {
    victim !in a.replacing && Member(victim, InSync) in a.members
  }

  /** A takeover is over when its member or its newcomer is lost. */
  function Settled(a: Array): Array {
    a.(replacing := map v | v in a.replacing && Member(v, InSync) in a.members &&
                            Member(a.replacing[v], Rebuilding) in a.members :: a.replacing[v])
  }

  /** What a command leaves; a refused one leaves what was done before the refusal. */
  function Exec(a: Array, c: Command): Array {
    match c
    case FailDetached => Settled(a.(members := Map(a.members, m => FailIfDetached(a.attached, m))))
    case RemoveFailed => Settled(a.(members := Map(a.members, m => RemoveIfFailed(m))))
    case Add(p) => if CanAdd(a, p) then a.(members := Enlist(a.members, p)) else a
    case Replace(victim, p) =>
      if !CanAdd(a, p) then a
      else
        var b := a.(members := Enlist(a.members, p));
        if CanReplace(b, victim) then b.(replacing := b.replacing[victim := p]) else b
    case FailMember(p) => Settled(a.(members := Map(a.members, m => FailIf(p, m))))
  }

  predicate Accepted(a: Array, c: Command) {
    match c
    case Add(p) => CanAdd(a, p)
    case Replace(victim, p) => CanAdd(a, p) && CanReplace(a.(members := Enlist(a.members, p)), victim)
    case _ => true
  }

  function ExecAll(a: Array, cs: seq<Command>): Array {
    if cs == [] then a else Exec(ExecAll(a, cs[..|cs| - 1]), cs[|cs| - 1])
  }

  // ---- what a pass issues ------------------------------------------------------------

  ghost predicate Outsider(m: Member, inSpec: set<string>) {
    m.path != "" && m.state == InSync && m.path !in inSpec
  }

  /** Newcomers are spec devices; a healthy outsider is replaced rather than ignored, and only outsiders are. */
  ghost predicate WellChosen(a: Array, c: Command, spec: set<string>) {
    match c
    case FailDetached => true
    case RemoveFailed => true
    case Add(p) => p in spec && forall m :: m in a.members ==> !Outsider(m, spec)
    case Replace(victim, p) => p in spec && victim !in spec && Member(victim, InSync) in a.members
    case FailMember(_) => false
  }

  ghost predicate PassLog(a: Array, log: seq<Command>, spec: set<string>) {
    forall i :: 0 <= i < |log| ==> WellChosen(ExecAll(a, log[..i]), log[i], spec)
  }

  lemma PushLog(a: Array, log: seq<Command>, c: Command, spec: set<string>)
    requires PassLog(a, log, spec) && WellChosen(ExecAll(a, log), c, spec)
    ensures PassLog(a, log + [c], spec) && ExecAll(a, log + [c]) == Exec(ExecAll(a, log), c)
  {
    var longer := log + [c];
    assert longer[..|log|] == log;
    forall i | 0 <= i < |longer|
      ensures WellChosen(ExecAll(a, longer[..i]), longer[i], spec)
    {
      if i < |log| {
        assert longer[..i] == log[..i];
      }
    }
  }

  /** A slot without a disk has no path. */
  ghost predicate Tidy(a: Array) {
    forall m :: m in a.members && m.state == Missing ==> m.path == ""
  }

  ghost predicate NoneFailed(a: Array) {
    forall m :: m in a.members ==> m.state != Failed
  }

  /** An accepted newcomer is in, and nobody with a disk is out. */
  lemma NewcomerJoins(a: Array, c: Command)
    requires Tidy(a) && NoneFailed(a) && Accepted(a, c) && (c.Add? || c.Replace?)
    ensures var b := Exec(a, c);
      Tidy(b) && NoneFailed(b) && IsMember(b.members, c.path) && forall p :: p != "" && IsMember(a.members, p) ==>
        IsMember(b.members, p)
  {
    var b := Exec(a, c);
    EnlistKeeps(a.members, c.path, a.attached);
    assert Member(c.path, Rebuilding) in b.members;
    forall p | p != "" && IsMember(a.members, p)
      ensures IsMember(b.members, p)
    {
      var i :| 0 <= i < |a.members| && a.members[i].path == p;
      assert a.members[i] in b.members;
    }
  }

  lemma FailedAreRemoved(a: Array)
    requires Tidy(a)
    ensures Tidy(Exec(a, RemoveFailed)) && NoneFailed(Exec(a, RemoveFailed))
  {
    var b := Exec(a, RemoveFailed);
    forall m | m in b.members
      ensures m.state != Failed && (m.state == Missing ==> m.path == "")
    {
      var i :| 0 <= i < |b.members| && b.members[i] == m;
      assert a.members[i] in a.members;
    }
  }

  lemma DetachedAreFailed(a: Array)
    requires Tidy(a)
    ensures Tidy(Exec(a, FailDetached))
  {
    var b := Exec(a, FailDetached);
    forall m | m in b.members && m.state == Missing
      ensures m.path == ""
    {
      var i :| 0 <= i < |b.members| && b.members[i] == m;
      assert a.members[i] in a.members;
    }
  }

  /** What a pass that was refused nothing has achieved: failed members are out, every present spec device is in. */
  ghost predicate Converged(a: Array, kernel: seq<string>, block: set<string>) {
    NoneFailed(a) && forall i :: 0 <= i < |kernel| && kernel[i] in block ==>
      kernel[i] != "" && IsMember(a.members, kernel[i])
  }

  ghost predicate Includes(a: Array, paths: set<string>) {
    forall p :: p in paths ==> p != "" && IsMember(a.members, p)
  }

  function Paths(ms: seq<Member>): set<string> {
    set m | m in ms && m.path != "" :: m.path
  }

  /** Part-way through the spec: the devices seen so far are in, and so are the members listed at the start. */
  ghost predicate Standing(start: Array, a: Array, members: set<string>, earlier: seq<string>, block: set<string>) {
    Tidy(start) ==> Tidy(a) && Converged(a, earlier, block) && Includes(a, members)
  }

  lemma ListedAreMembers(start: Array, a: Array, members: set<string>, block: set<string>)
    requires members == Paths(a.members) && (Tidy(start) ==> Tidy(a) && NoneFailed(a))
    ensures Standing(start, a, members, [], block)
  {
  }

  lemma StandingGrows(start: Array, a: Array, members: set<string>, earlier: seq<string>, block: set<string>, d: string)
    requires Standing(start, a, members, earlier, block)
    requires d in members || d !in block || (d != "" && IsMember(a.members, d))
    ensures Standing(start, a, members, earlier + [d], block)
  {
  }

  lemma NewcomerKeeps(
      start: Array, a: Array, c: Command, members: set<string>, earlier: seq<string>, block: set<string>)
    requires Standing(start, a, members, earlier, block) && Accepted(a, c) && (c.Add? || c.Replace?)
    ensures Standing(start, Exec(a, c), members, earlier + [c.path], block)
  {
    if Tidy(start) {
      NewcomerJoins(a, c);
      assert Standing(start, Exec(a, c), members, earlier, block);
      StandingGrows(start, Exec(a, c), members, earlier, block, c.path);
    }
  }

  class MdArray {
    var state: Array

    constructor (a: Array)
      ensures state == a
    {
      state := a;
    }

    method FindOutsider(inSpec: set<string>) returns (found: string)
      ensures found == "" ==> forall m :: m in state.members ==> !Outsider(m, inSpec)
      ensures found != "" ==> found !in inSpec && Member(found, InSync) in state.members
      ensures found == "" ==> forall m :: m in state.members && m.state == InSync ==> m.path == "" || m.path in inSpec
    {
      for i := 0 to |state.members|
        invariant forall k :: 0 <= k < i ==> !Outsider(state.members[k], inSpec)
      {
        var m := state.members[i];
        if m.path != "" && m.state == InSync && m.path !in inSpec {
          return m.path;
        }
      }
      return "";
    }

    /**
     One pass over an existing array. `kernel` are the spec devices resolved to
     kernel paths, in spec order, `block` those present on the host; the log is
     what mdadm was sent and did not fail outright. A refused command stops the pass,
     except that failing the detached members is best effort: `detached` says whether it worked.
     */
    method Pass(kernel: seq<string>, block: set<string>, detached: bool) returns (log: seq<Command>, ok: bool)
      modifies this
      ensures state == ExecAll(old(state), log)
      ensures PassLog(old(state), log, set d | d in kernel)
      ensures ok && Tidy(old(state)) ==> Converged(state, kernel, block)
    {
      var inSpec := set d | d in kernel;
      ghost var start := state;
      log := Clear(start, inSpec, detached);
      var members := Paths(state.members);
      ListedAreMembers(start, state, members, block);
      log, ok := AdmitAll(start, log, kernel, block, inSpec, members);
    }

    method AdmitAll(
        ghost start: Array, log: seq<Command>, kernel: seq<string>, block: set<string>, inSpec: set<string>,
        members: set<string>)
      returns (log': seq<Command>, ok: bool)
      requires state == ExecAll(start, log) && PassLog(start, log, inSpec) && Standing(start, state, members, [], block)
      requires forall i :: 0 <= i < |kernel| ==> kernel[i] in inSpec
      modifies this
      ensures state == ExecAll(start, log') && PassLog(start, log', inSpec)
      ensures ok ==> Standing(start, state, members, kernel, block)
    {
      log', ok := log, true;
      for i := 0 to |kernel|
        invariant ok && state == ExecAll(start, log') && PassLog(start, log', inSpec)
        invariant Standing(start, state, members, kernel[..i], block)
      {
        assert kernel[..i + 1] == kernel[..i] + [kernel[i]];
        if kernel[i] in members || kernel[i] !in block {
          StandingGrows(start, state, members, kernel[..i], block, kernel[i]);
          continue;
        }
        log', ok := Admit(start, log', kernel[i], inSpec, members, kernel[..i], block);
        if !ok {
          return;
        }
      }
      assert kernel[..|kernel|] == kernel;
    }

    /** One newcomer: it replaces a healthy member outside the spec if there is one, and fills a free slot otherwise. */
    method Admit(ghost start: Array, log: seq<Command>, d: string, inSpec: set<string>,
                 ghost members: set<string>, ghost earlier: seq<string>, ghost block: set<string>)
      returns (log': seq<Command>, ok: bool)
      requires state == ExecAll(start, log) && PassLog(start, log, inSpec) && d in inSpec
      requires Standing(start, state, members, earlier, block)
      modifies this
      ensures state == ExecAll(start, log') && PassLog(start, log', inSpec)
      ensures ok ==> Standing(start, state, members, earlier + [d], block)
    {
      var victim := FindOutsider(inSpec);
      var c := if victim != "" then Replace(victim, d) else Add(d);
      ok := Accepted(state, c);
      if ok {
        NewcomerKeeps(start, state, c, members, earlier, block);
      }
      log' := Push(start, log, c, inSpec);
    }

    /** Faulty and vanished members leave first, so that their slots are free. */
    method Clear(ghost start: Array, ghost spec: set<string>, detached: bool) returns (log: seq<Command>)
      requires state == start
      modifies this
      ensures state == ExecAll(start, log) && PassLog(start, log, spec)
      ensures Tidy(start) ==> Tidy(state) && NoneFailed(state)
    {
      log := [];
      if detached {
        log := Push(start, [], FailDetached, spec);
        if Tidy(start) {
          DetachedAreFailed(start);
        }
      }
      var failed := exists m :: m in state.members && m.state == Failed;
      if failed {
        if Tidy(start) {
          FailedAreRemoved(state);
        }
        log := Push(start, log, RemoveFailed, spec);
      }
    }

    method Push(ghost start: Array, log: seq<Command>, c: Command, ghost spec: set<string>) returns (log': seq<Command>)
      requires state == ExecAll(start, log) && PassLog(start, log, spec) && WellChosen(state, c, spec)
      modifies this
      ensures log' == log + [c] && state == Exec(old(state), c)
      ensures state == ExecAll(start, log') && PassLog(start, log', spec)
    {
      PushLog(start, log, c, spec);
      state := Exec(state, c);
      log' := log + [c];
    }
  }

  // ---- redundancy ---------------------------------------------------------------------

  predicate LiveInSync(m: Member, attached: set<string>) {
    m.state == InSync && m.path in attached
  }

  function Count(ms: seq<Member>, attached: set<string>): nat {
    if ms == [] then 0 else (if LiveInSync(ms[0], attached) then 1 else 0) + Count(ms[1..], attached)
  }

  ghost function LiveSlots(ms: seq<Member>, attached: set<string>): set<nat> {
    set i | 0 <= i < |ms| && ms[i].state == InSync && ms[i].path in attached
  }

  lemma {:induction false} CountAppend(ms: seq<Member>, m: Member, attached: set<string>)
    ensures Count(ms + [m], attached) == Count(ms, attached) + if LiveInSync(m, attached) then 1 else 0
  {
    if ms == [] {
      assert ms + [m] == [m] && [m][1..] == [];
    } else {
      CountAppend(ms[1..], m, attached);
      assert (ms + [m])[1..] == ms[1..] + [m];
    }
  }

  lemma LiveSlotsGrow(ms: seq<Member>, m: Member, attached: set<string>)
    ensures |LiveSlots(ms + [m], attached)| == |LiveSlots(ms, attached)| + if LiveInSync(m, attached) then 1 else 0
  {
    assert LiveSlots(ms + [m], attached) == LiveSlots(ms, attached) + if LiveInSync(m, attached) then {|ms|} else {};
  }

  /** Redundancy is the number of slots whose disk is there and in sync. */
  lemma {:induction false} CountIsCardinality(ms: seq<Member>, attached: set<string>)
    ensures Count(ms, attached) == |LiveSlots(ms, attached)|
  {
    if ms == [] {
      assert LiveSlots(ms, attached) == {};
    } else {
      var n := |ms| - 1;
      CountIsCardinality(ms[..n], attached);
      CountAppend(ms[..n], ms[n], attached);
      LiveSlotsGrow(ms[..n], ms[n], attached);
      assert ms == ms[..n] + [ms[n]];
    }
  }

  function Redundancy(a: Array): nat {
    Count(a.members, a.attached)
  }

  ghost predicate UniquePaths(ms: seq<Member>) {
    forall i, j :: 0 <= i < j < |ms| && ms[i].path != "" ==> ms[i].path != ms[j].path
  }

  lemma {:induction false} CountPointwise(a: seq<Member>, b: seq<Member>, x: set<string>, y: set<string>)
    requires |a| == |b|
    requires forall i :: 0 <= i < |a| && LiveInSync(a[i], x) ==> LiveInSync(b[i], y)
    ensures Count(a, x) <= Count(b, y)
  {
    if a != [] {
      CountPointwise(a[1..], b[1..], x, y);
    }
  }

  /** Losing one path costs at most one member. */
  lemma {:induction false} CountExceptOne(a: seq<Member>, b: seq<Member>, x: set<string>, y: set<string>, p: string)
    requires |a| == |b| && UniquePaths(a) && "" !in x
    requires forall i :: 0 <= i < |a| && LiveInSync(a[i], x) && a[i].path != p ==> LiveInSync(b[i], y)
    ensures Count(a, x) <= Count(b, y) + 1
  {
    if a != [] {
      if a[0].path == p && LiveInSync(a[0], x) {
        CountPointwise(a[1..], b[1..], x, y);
      } else {
        CountExceptOne(a[1..], b[1..], x, y, p);
      }
    }
  }

  lemma {:induction false} EnlistKeeps(ms: seq<Member>, p: string, attached: set<string>)
    ensures Count(ms, attached) <= Count(Enlist(ms, p), attached)
    ensures forall m :: m in ms && m.state != Missing ==> m in Enlist(ms, p)
    ensures forall m :: m in Enlist(ms, p) ==> m in ms || m == Member(p, Rebuilding)
    ensures Member(p, Rebuilding) in Enlist(ms, p)
  {
    if ms != [] && ms[0].state != Missing {
      EnlistKeeps(ms[1..], p, attached);
      var e := [ms[0]] + Enlist(ms[1..], p);
      assert e[1..] == Enlist(ms[1..], p);
    } else if ms != [] {
      assert ([Member(p, Rebuilding)] + ms[1..])[1..] == ms[1..];
    }
  }

  lemma {:induction false} EnlistUnique(ms: seq<Member>, p: string)
    requires UniquePaths(ms) && !IsMember(ms, p)
    ensures UniquePaths(Enlist(ms, p))
  {
    if ms != [] && ms[0].state != Missing {
      EnlistUnique(ms[1..], p);
      EnlistKeeps(ms[1..], p, {});
      var rest := Enlist(ms[1..], p);
      forall i | 0 <= i < |rest| && ms[0].path != ""
        ensures rest[i].path != ms[0].path
      {
        assert rest[i] in rest;
      }
    }
  }

  ghost predicate Valid(a: Array) {
    UniquePaths(a.members) && "" !in a.attached
  }

  /** No command a pass may issue lowers the number of live in-sync members. */
  lemma CommandKeepsRedundancy(a: Array, c: Command)
    requires Valid(a) && !c.FailMember?
    ensures Valid(Exec(a, c)) && Redundancy(a) <= Redundancy(Exec(a, c)) && Exec(a, c).attached == a.attached
  {
    var b := Exec(a, c);
    match c {
      case Add(p) =>
        EnlistKeeps(a.members, p, a.attached);
        if CanAdd(a, p) {
          EnlistUnique(a.members, p);
        }
      case Replace(_, p) =>
        EnlistKeeps(a.members, p, a.attached);
        if CanAdd(a, p) {
          EnlistUnique(a.members, p);
        }
      case _ => CountPointwise(a.members, b.members, a.attached, a.attached);
    }
  }

  lemma {:induction false} PassKeepsRedundancy(a: Array, log: seq<Command>, spec: set<string>)
    requires Valid(a) && PassLog(a, log, spec)
    ensures Valid(ExecAll(a, log)) && Redundancy(a) <= Redundancy(ExecAll(a, log))
  {
    if log != [] {
      var n := |log| - 1;
      assert PassLog(a, log[..n], spec) by {
        assert forall i :: 0 <= i < n ==> log[..n][..i] == log[..i];
      }
      PassKeepsRedundancy(a, log[..n], spec);
      assert WellChosen(ExecAll(a, log[..n]), log[n], spec);
      CommandKeepsRedundancy(ExecAll(a, log[..n]), log[n]);
    }
  }

  /** What happens to an array: single commands of passes, with anything else in between. */
  datatype Event =
    | Sent(command: Command)
    | SyncDone(path: string)
    | DiskFailed(path: string)
    | DiskPulled(path: string)
    | DiskPlugged(path: string)

  ghost predicate Possible(a: Array, e: Event) {
    match e
    case Sent(c) => !c.FailMember?
    case SyncDone(p) => Member(p, Rebuilding) in a.members && p in a.attached
    case DiskPlugged(p) => p != ""
    case _ => true
  }

  /** The member a finished newcomer takes over from, "" for none. */
  ghost function Relieved(a: Array, p: string): string {
    if v :| v in a.replacing && a.replacing[v] == p then v else ""
  }

  ghost function After(a: Array, e: Event): Array {
    match e
    case Sent(c) => Exec(a, c)
    case SyncDone(p) =>
      var synced := a.(members := Map(a.members, m => SyncIf(p, m)));
      var v := Relieved(a, p);
      if v == "" || v == p then synced
      else synced.(members := Map(synced.members, m => FailIf(v, m)), replacing := a.replacing - {v})
    case DiskFailed(p) => Settled(a.(members := Map(a.members, m => FailIf(p, m))))
    case DiskPulled(p) => a.(attached := a.attached - {p})
    case DiskPlugged(p) => a.(attached := a.attached + {p})
  }

  /** A finished takeover: one member joins the in-sync set before at most one leaves it. */
  lemma SyncKeepsRedundancy(a: Array, p: string)
    requires Valid(a) && Possible(a, SyncDone(p))
    ensures Valid(After(a, SyncDone(p))) && Redundancy(a) <= Redundancy(After(a, SyncDone(p)))
  {
    var i :| 0 <= i < |a.members| && a.members[i] == Member(p, Rebuilding);
    SyncedCount(a.members, p, a.attached, i);
    var synced := a.(members := Map(a.members, m => SyncIf(p, m)));
    assert Valid(synced);
    var v := Relieved(a, p);
    if v != "" && v != p {
      FailingOneCosts(synced, v);
    }
  }

  lemma FailingOneCosts(a: Array, p: string)
    requires Valid(a)
    ensures var b := a.(members := Map(a.members, m => FailIf(p, m)));
      Valid(b) && Redundancy(a) <= Redundancy(b) + 1
  {
    var b := Map(a.members, m => FailIf(p, m));
    CountExceptOne(a.members, b, a.attached, a.attached, p);
  }

  lemma {:induction false} SyncedCount(ms: seq<Member>, p: string, attached: set<string>, i: nat)
    requires i < |ms| && ms[i] == Member(p, Rebuilding) && p in attached
    ensures Count(Map(ms, m => SyncIf(p, m)), attached) >= Count(ms, attached) + 1
  {
    var synced := Map(ms, m => SyncIf(p, m));
    assert synced[1..] == Map(ms[1..], m => SyncIf(p, m));
    if i == 0 {
      CountPointwise(ms[1..], synced[1..], attached, attached);
    } else {
      SyncedCount(ms[1..], p, attached, i - 1);
    }
  }

  function Losses(es: seq<Event>): nat {
    if es == [] then 0
    else Losses(es[..|es| - 1]) + if es[|es| - 1].DiskFailed? || es[|es| - 1].DiskPulled? then 1 else 0
  }

  ghost function LossesAt(es: seq<Event>): set<nat> {
    set i | 0 <= i < |es| && (es[i].DiskFailed? || es[i].DiskPulled?)
  }

  lemma LossesGrow(es: seq<Event>, e: Event)
    ensures |LossesAt(es + [e])| == |LossesAt(es)| + if e.DiskFailed? || e.DiskPulled? then 1 else 0
  {
    assert LossesAt(es + [e]) == LossesAt(es) + if e.DiskFailed? || e.DiskPulled? then {|es|} else {};
  }

  lemma {:induction false} LossesAreCounted(es: seq<Event>)
    ensures Losses(es) == |LossesAt(es)|
  {
    if es == [] {
      assert LossesAt(es) == {};
    } else {
      var n := |es| - 1;
      LossesAreCounted(es[..n]);
      LossesGrow(es[..n], es[n]);
      assert es == es[..n] + [es[n]];
    }
  }

  lemma EventKeepsRedundancy(a: Array, e: Event)
    requires Valid(a) && Possible(a, e)
    ensures Valid(After(a, e)) && Redundancy(a) <= Redundancy(After(a, e)) + Losses([e])
  {
    var b := After(a, e);
    assert [e][..0] == [];
    match e {
      case Sent(c) => CommandKeepsRedundancy(a, c);
      case SyncDone(p) => SyncKeepsRedundancy(a, p);
      case DiskFailed(p) => FailingOneCosts(a, p);
      case DiskPulled(p) => CountExceptOne(a.members, b.members, a.attached, b.attached, p);
      case DiskPlugged(_) => CountPointwise(a.members, b.members, a.attached, b.attached);
    }
  }

  ghost predicate History(states: seq<Array>, es: seq<Event>) {
    |states| == |es| + 1 && Valid(states[0]) && forall i :: 0 <= i < |es| ==> Happened(states, es, i)
  }

  ghost predicate Happened(states: seq<Array>, es: seq<Event>, i: nat)
    requires i < |es| && |states| == |es| + 1
  {
    Possible(states[i], es[i]) && states[i + 1] == After(states[i], es[i])
  }

  /**
   Over any history, only disks failing or being pulled cost redundancy: one each; commands cost none, wherever they
   fall.
   */
  lemma {:induction false} OnlyDiskLossesCost(states: seq<Array>, es: seq<Event>)
    requires History(states, es)
    ensures Valid(states[|es|])
    ensures Redundancy(states[0]) <= Redundancy(states[|es|]) + Losses(es)
  {
    if es != [] {
      var n := |es| - 1;
      var past, earlier := states[..n + 1], es[..n];
      forall i | 0 <= i < n
        ensures Happened(past, earlier, i)
      {
        assert Happened(states, es, i);
      }
      OnlyDiskLossesCost(past, earlier);
      assert Happened(states, es, n);
      EventKeepsRedundancy(states[n], es[n]);
      assert [es[n]][..0] == [];
    }
  }
}
