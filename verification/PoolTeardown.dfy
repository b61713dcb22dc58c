/**
 TeardownPool of internal/agent/pool.go over an abstract host: volume groups,
 md arrays, and what is written on each disk, keyed by kernel path.
 */
module PoolTeardown {

  /** vg == "" is an orphan label: a PV whose volume group is gone. */
  datatype Label = NoLabel | Label(vg: string)

  /** `member` is the array name in the md superblock, "" for none; `block` is false for a pulled disk. */
  datatype Disk = Disk(block: bool, member: string, pv: Label)

  datatype Host = Host(vgs: set<string>, arrays: set<string>, disks: map<string, Disk>)

  /** `links` resolves spec paths (by-id symlinks) to kernel paths. */
  datatype Pool = Pool(name: string, raid: bool, devices: seq<string>, links: map<string, string>)
  {
    function VG(): string { "stornas-" + name }
    function ArrayName(): string { "stornas-" + name }
    function ArrayPath(): string { "/dev/md/stornas-" + name }
    function Kernel(dev: string): string { if dev in links then links[dev] else dev }
    function Targets(n: nat): set<string>
      requires n <= |devices|
    {
      set i | 0 <= i < n :: Kernel(devices[i])
    }
  }

  /** An md member carries no PV label of its own: the label is inside the array. */
  ghost predicate WellFormed(h: Host) {
    forall p :: p in h.disks ==> h.disks[p].member == "" || h.disks[p].pv.NoLabel?
  }

  datatype Command = RemoveVG | StopArray | Wipe(dev: string)

  function Wipes(devices: seq<string>): seq<Command> {
    seq(|devices|, i requires 0 <= i < |devices| => Wipe(devices[i]))
  }

  function Preamble(pool: Pool): seq<Command> {
    if pool.raid then [RemoveVG, StopArray] else [RemoveVG]
  }

  function Commands(pool: Pool): seq<Command> {
    Preamble(pool) + Wipes(pool.devices)
  }

  function Orphaned(d: Disk, vg: string): Disk {
    if d.pv == Label(vg) then d.(pv := Label("")) else d
  }

  /** Only what is observed to belong to this pool is erased. */
  function Erased(pool: Pool, d: Disk): Disk {
    if !d.block then d
    else if pool.raid then
      if d.member == pool.ArrayName() then d.(member := "") else d
    else
      if d.pv == Label("") || d.pv == Label(pool.VG()) then d.(pv := NoLabel) else d
  }

  function Exec(pool: Pool, h: Host, c: Command): Host {
    match c
    case RemoveVG =>
      Host(h.vgs - {pool.VG()}, h.arrays, map p | p in h.disks :: Orphaned(h.disks[p], pool.VG()))
    case StopArray =>
      Host(h.vgs, h.arrays - {pool.ArrayName()}, h.disks - {pool.ArrayPath()})
    case Wipe(dev) =>
      var p := pool.Kernel(dev);
      if p in h.disks then h.(disks := h.disks[p := Erased(pool, h.disks[p])]) else h
  }

  function Run(pool: Pool, h: Host, cs: seq<Command>): Host
    decreases |cs|
  {
    if cs == [] then h else Exec(pool, Run(pool, h, cs[..|cs| - 1]), cs[|cs| - 1])
  }

  lemma RunPush(pool: Pool, h: Host, cs: seq<Command>, c: Command)
    ensures Run(pool, h, cs + [c]) == Exec(pool, Run(pool, h, cs), c)
  {
    assert (cs + [c])[..|cs|] == cs;
  }

  lemma NextWipe(pool: Pool, h: Host, i: nat)
    requires i < |pool.devices|
    ensures var cs, k := Commands(pool), |Preamble(pool)| + i;
      Run(pool, h, cs[..k + 1]) == Exec(pool, Run(pool, h, cs[..k]), Wipe(pool.devices[i]))
  {
    var cs, k := Commands(pool), |Preamble(pool)| + i;
    RunPush(pool, h, cs[..k], cs[k]);
    assert cs[..k + 1] == cs[..k] + [cs[k]];
  }

  lemma RunPreamble(pool: Pool, h: Host)
    ensures Run(pool, h, [RemoveVG]) == Exec(pool, h, RemoveVG)
    ensures pool.raid ==> Run(pool, h, [RemoveVG, StopArray]) == Exec(pool, Exec(pool, h, RemoveVG), StopArray)
    ensures Run(pool, h, Preamble(pool)) == After(pool, h, {})
  {
    RunPush(pool, h, [], RemoveVG);
    assert [] + [RemoveVG] == [RemoveVG];
    RunPush(pool, h, [RemoveVG], StopArray);
    assert [RemoveVG] + [StopArray] == [RemoveVG, StopArray];
    assert Run(pool, h, Preamble(pool)).disks == After(pool, h, {}).disks;
  }

  // ---- the state a (partial) run leaves, disk by disk -----------------------

  function DiskAfter(pool: Pool, targets: set<string>, p: string, d: Disk): Disk {
    var o := Orphaned(d, pool.VG());
    if p in targets then Erased(pool, o) else o
  }

  /** Past the preamble, with the disks in `targets` already visited. */
  function After(pool: Pool, h: Host, targets: set<string>): Host {
    Host(h.vgs - {pool.VG()},
         if pool.raid then h.arrays - {pool.ArrayName()} else h.arrays,
         map p | p in h.disks && !(pool.raid && p == pool.ArrayPath()) :: DiskAfter(pool, targets, p, h.disks[p]))
  }

  lemma {:induction false} RunPrefix(pool: Pool, h: Host, n: nat)
    requires n <= |pool.devices|
    ensures Run(pool, h, Preamble(pool) + Wipes(pool.devices)[..n]) == After(pool, h, pool.Targets(n))
  {
    if n == 0 {
      assert Preamble(pool) + Wipes(pool.devices)[..0] == Preamble(pool);
      RunPreamble(pool, h);
    } else {
      RunPrefix(pool, h, n - 1);
      var earlier := Preamble(pool) + Wipes(pool.devices)[..n - 1];
      assert Preamble(pool) + Wipes(pool.devices)[..n] == earlier + [Wipe(pool.devices[n - 1])];
      RunPush(pool, h, earlier, Wipe(pool.devices[n - 1]));
      assert pool.Targets(n) == pool.Targets(n - 1) + {pool.Kernel(pool.devices[n - 1])};
      WipeExtends(pool, h, pool.Targets(n - 1), pool.devices[n - 1]);
    }
  }

  lemma WipeExtends(pool: Pool, h: Host, targets: set<string>, dev: string)
    ensures Exec(pool, After(pool, h, targets), Wipe(dev)) == After(pool, h, targets + {pool.Kernel(dev)})
  {
    var p := pool.Kernel(dev);
    var a := After(pool, h, targets);
    var b := Exec(pool, a, Wipe(dev));
    assert b.disks == After(pool, h, targets + {p}).disks;
  }

  lemma FullRun(pool: Pool, h: Host)
    ensures Run(pool, h, Commands(pool)) == After(pool, h, pool.Targets(|pool.devices|))
  {
    assert Wipes(pool.devices)[..|pool.devices|] == Wipes(pool.devices);
    RunPrefix(pool, h, |pool.devices|);
  }

  /** Visiting fewer disks first changes nothing about visiting them all. */
  lemma AfterAbsorbs(pool: Pool, h: Host, fewer: set<string>, all: set<string>)
    requires fewer <= all
    ensures After(pool, After(pool, h, fewer), all) == After(pool, h, all)
  {
    assert After(pool, After(pool, h, fewer), all).disks == After(pool, h, all).disks;
  }

  lemma PreambleAbsorbs(pool: Pool, h: Host, all: set<string>)
    ensures After(pool, Exec(pool, h, RemoveVG), all) == After(pool, h, all)
  {
    assert After(pool, Exec(pool, h, RemoveVG), all).disks == After(pool, h, all).disks;
  }

  /** Stopped after any number of commands, a rerun ends where an uninterrupted run would have. */
  lemma RerunConverges(pool: Pool, h: Host, k: nat)
    requires k <= |Commands(pool)|
    ensures Run(pool, Run(pool, h, Commands(pool)[..k]), Commands(pool)) == Run(pool, h, Commands(pool))
  {
    var cs, pre, all := Commands(pool), |Preamble(pool)|, pool.Targets(|pool.devices|);
    var left := Run(pool, h, cs[..k]);
    FullRun(pool, left);
    FullRun(pool, h);
    if k < pre {
      if k == 1 {
        assert cs[..1] == [RemoveVG];
        RunPreamble(pool, h);
        PreambleAbsorbs(pool, h, all);
      }
    } else {
      assert cs[..k] == Preamble(pool) + Wipes(pool.devices)[..k - pre];
      RunPrefix(pool, h, k - pre);
      AfterAbsorbs(pool, h, pool.Targets(k - pre), all);
    }
  }

  function Interrupted(pool: Pool, h: Host, stops: seq<nat>): Host
    requires forall i :: 0 <= i < |stops| ==> stops[i] <= |Commands(pool)|
    decreases |stops|
  {
    if stops == [] then h else Interrupted(pool, Run(pool, h, Commands(pool)[..stops[0]]), stops[1..])
  }

  /** The same after any number of interrupted attempts. */
  lemma {:induction false} AttemptsConverge(pool: Pool, h: Host, stops: seq<nat>)
    requires forall i :: 0 <= i < |stops| ==> stops[i] <= |Commands(pool)|
    ensures Run(pool, Interrupted(pool, h, stops), Commands(pool)) == Run(pool, h, Commands(pool))
    decreases |stops|
  {
    if stops != [] {
      AttemptsConverge(pool, Run(pool, h, Commands(pool)[..stops[0]]), stops[1..]);
      RerunConverges(pool, h, stops[0]);
    }
  }

  // ---- what is never touched, and what is gone -------------------------------

  ghost predicate Foreign(pool: Pool, d: Disk) {
    (d.member != "" && d.member != pool.ArrayName()) || (d.pv.Label? && d.pv.vg != "" && d.pv.vg != pool.VG())
  }

  /** However far a run got, a disk of another array or another volume group is exactly as it was. */
  lemma ForeignDisksUntouched(pool: Pool, h: Host, k: nat, p: string)
    requires WellFormed(h) && k <= |Commands(pool)|
    requires p in h.disks && Foreign(pool, h.disks[p]) && p != pool.ArrayPath()
    ensures var left := Run(pool, h, Commands(pool)[..k]); p in left.disks && left.disks[p] == h.disks[p]
  {
    var cs, pre := Commands(pool), |Preamble(pool)|;
    if k < pre {
      if k == 1 {
        assert cs[..1] == [RemoveVG];
        RunPreamble(pool, h);
      }
    } else {
      assert cs[..k] == Preamble(pool) + Wipes(pool.devices)[..k - pre];
      RunPrefix(pool, h, k - pre);
    }
  }

  /** Nothing of the pool is left on the host; a pulled disk is not on the host. */
  ghost predicate Clean(pool: Pool, h: Host) {
    && pool.VG() !in h.vgs
    && (pool.raid ==> pool.ArrayName() !in h.arrays)
    && forall i :: 0 <= i < |pool.devices| ==> Unclaimed(pool, h, pool.Kernel(pool.devices[i]))
  }

  /** The disk carries a member signature of this pool; a label without an owner may be one. */
  predicate Marked(pool: Pool, d: Disk) {
    if pool.raid then d.member == pool.ArrayName() else d.pv == Label("") || d.pv == Label(pool.VG())
  }

  ghost predicate Unclaimed(pool: Pool, h: Host, p: string) {
    p in h.disks && h.disks[p].block ==> !Marked(pool, h.disks[p])
  }

  lemma TeardownCleans(pool: Pool, h: Host)
    ensures Clean(pool, Run(pool, h, Commands(pool)))
  {
    FullRun(pool, h);
    var t := Run(pool, h, Commands(pool));
    forall i | 0 <= i < |pool.devices|
      ensures Unclaimed(pool, t, pool.Kernel(pool.devices[i]))
    {
      assert pool.Kernel(pool.devices[i]) in pool.Targets(|pool.devices|);
    }
  }

  /**
   What a full run leaves, for every disk of the host: a signature of the pool
   survives exactly on a disk the spec does not name, or one that was not there to wipe.
   */
  lemma MarksLeft(pool: Pool, h: Host, p: string)
    requires p in h.disks && !(pool.raid && p == pool.ArrayPath())
    ensures var t := Run(pool, h, Commands(pool));
      p in t.disks &&
      (Marked(pool, t.disks[p]) <==>
        Marked(pool, h.disks[p]) && (p !in pool.Targets(|pool.devices|) || !h.disks[p].block))
  {
    FullRun(pool, h);
  }

  /**
   A member swapped out of the spec but not yet out of the pool: the teardown counts as clean and leaves its signature.
   */
  lemma MidSwapMemberKeepsMark(pool: Pool, h: Host, p: string)
    requires p in h.disks && Marked(pool, h.disks[p]) && p !in pool.Targets(|pool.devices|) && p != pool.ArrayPath()
    ensures var t := Run(pool, h, Commands(pool)); Clean(pool, t) && p in t.disks && Marked(pool, t.disks[p])
  {
    TeardownCleans(pool, h);
    MarksLeft(pool, h, p);
  }

  /** The spec path is a link to p, or is p itself. */
  ghost predicate LinksTo(pool: Pool, dev: string, p: string) {
    p == if dev in pool.links then pool.links[dev] else dev
  }

  /** What a full run leaves on every disk, field by field. */
  lemma DisksAfter(pool: Pool, h: Host, p: string)
    requires p in h.disks && !(pool.raid && p == pool.ArrayPath())
    ensures var t, d := Run(pool, h, Commands(pool)), h.disks[p];
      var named := exists i :: 0 <= i < |pool.devices| && LinksTo(pool, pool.devices[i], p);
      var orphan := if d.pv == Label("stornas-" + pool.name) then Label("") else d.pv;
      p in t.disks && t.disks[p] ==
        if pool.raid then
          Disk(d.block, if named && d.block && d.member == "stornas-" + pool.name then "" else d.member, orphan)
        else
          Disk(d.block, d.member, if named && d.block && orphan == Label("") then NoLabel else orphan)
  {
    FullRun(pool, h);
    assert forall i :: 0 <= i < |pool.devices| && LinksTo(pool, pool.devices[i], p) ==>
      p == pool.Kernel(pool.devices[i]);
    assert p in pool.Targets(|pool.devices|) <==>
      exists i :: 0 <= i < |pool.devices| && p == pool.Kernel(pool.devices[i]);
  }

  /** And on the rest of the host: exactly the pool's volume group and array go. */
  lemma HostAfter(pool: Pool, h: Host)
    ensures var t := Run(pool, h, Commands(pool));
      && t.vgs == h.vgs - {"stornas-" + pool.name}
      && t.arrays == (if pool.raid then h.arrays - {"stornas-" + pool.name} else h.arrays)
      && t.disks.Keys == (if pool.raid then h.disks.Keys - {"/dev/md/stornas-" + pool.name} else h.disks.Keys)
  {
    FullRun(pool, h);
  }

  /** The volume group goes first, then the array under it, then the members' signatures in spec order. */
  lemma TeardownOrder(pool: Pool)
    ensures var cs, n := Commands(pool), if pool.raid then 2 else 1;
      && |cs| == n + |pool.devices| && cs[0] == RemoveVG && (pool.raid ==> cs[1] == StopArray)
      && forall i :: 0 <= i < |pool.devices| ==> cs[n + i] == Wipe(pool.devices[i])
  {
  }

  // ---- the code --------------------------------------------------------------

  class NodeHost {
    var state: Host

    constructor (h: Host)
      ensures state == h
    {
      state := h;
    }

    method RemoveVolumeGroup(pool: Pool)
      modifies this
      ensures state == Exec(pool, old(state), RemoveVG)
    {
      state := Host(state.vgs - {pool.VG()}, state.arrays,
                    map p | p in state.disks :: Orphaned(state.disks[p], pool.VG()));
    }

    method StopMd(pool: Pool)
      modifies this
      ensures state == Exec(pool, old(state), StopArray)
    {
      state := Host(state.vgs, state.arrays - {pool.ArrayName()}, state.disks - {pool.ArrayPath()});
    }

    /** Skips a device that is absent, or not observed to be this pool's. */
    method WipeDevice(pool: Pool, dev: string)
      modifies this
      ensures state == Exec(pool, old(state), Wipe(dev))
    {
      var p := pool.Kernel(dev);
      if p !in state.disks {
        return;
      }
      var d := state.disks[p];
      assert state.disks[p := d] == state.disks;
      if !d.block {
        return;
      }
      if pool.raid {
        if d.member == pool.ArrayName() {
          state := state.(disks := state.disks[p := d.(member := "")]);
        }
      } else if d.pv.Label? && (d.pv.vg == "" || d.pv.vg == pool.VG()) {
        state := state.(disks := state.disks[p := d.(pv := NoLabel)]);
      }
    }

    /** The host commands of one pass; command number `failing` fails and stops it, if there is one. */
    method TeardownPool(pool: Pool, failing: nat) returns (ok: bool)
      modifies this
      ensures ok == (failing >= |Commands(pool)|)
      ensures state == Run(pool, old(state), Commands(pool)[..if ok then |Commands(pool)| else failing])
    {
      ghost var cs := Commands(pool);
      RunPreamble(pool, state);
      if failing == 0 {
        return false;
      }
      RemoveVolumeGroup(pool);
      assert cs[..1] == [RemoveVG];
      if pool.raid {
        if failing == 1 {
          return false;
        }
        StopMd(pool);
        assert cs[..2] == [RemoveVG, StopArray];
      }
      ok := WipeDevices(pool, old(state), failing);
      assert cs[..|cs|] == cs;
    }

    method WipeDevices(pool: Pool, ghost start: Host, failing: nat) returns (ok: bool)
      requires failing >= |Preamble(pool)| && state == Run(pool, start, Commands(pool)[..|Preamble(pool)|])
      modifies this
      ensures ok == (failing >= |Commands(pool)|)
      ensures state == Run(pool, start, Commands(pool)[..if ok then |Commands(pool)| else failing])
    {
      ghost var cs := Commands(pool);
      var done := if pool.raid then 2 else 1;
      for i := 0 to |pool.devices|
        invariant done == |Preamble(pool)| + i <= failing
        invariant state == Run(pool, start, cs[..done])
      {
        if failing == done {
          return false;
        }
        WipeDevice(pool, pool.devices[i]);
        NextWipe(pool, start, i);
        done := done + 1;
      }
      return true;
    }
  }
}
