/**
 Deleting a StoragePool: the operator (operator/internal/controller/
 storagepool_controller.go, operator/internal/rdrbd/registrar.go), the r-drbd
 finalizer on the Pool of the same name, and the node agent that wipes the host
 (internal/agent/pool.go), as a state machine. A pass reads the stored object,
 then acts in separate steps; its status writes land only on the version read.
 */
module PoolDeletion {
  import opened PoolTeardown

  /** What the steps read or write of a StoragePool; name, raid level and node are immutable and in Config. */
  datatype Stored = Stored(
    devices: seq<string>, deleting: bool, finalizer: bool, hostReady: bool, deregistered: bool, tornDown: bool)

  /** The r-drbd Pool: its location is immutable, and it is held while it lists volumes. */
  datatype Backend = Absent | Backend(node: string, vg: string, deleting: bool, volumes: set<string>)

  /** The `devices` of `pool` play no part: they are the stored ones. */
  datatype Config = Config(node: string, pool: Pool)

  function Spec(cfg: Config, devices: seq<string>): Pool { cfg.pool.(devices := devices) }

  datatype OperatorPass =
    | Idle
    | Read(rv: nat, copy: Stored)
    | SawMatch(rv: nat, copy: Stored)
    | Deleted(rv: nat, copy: Stored)
    | SawGone(rv: nat, copy: Stored)
    | Checked(rv: nat, copy: Stored, down: bool)
    | SawAbsent(rv: nat, copy: Stored)

  datatype AgentPass =
    | Waiting
    | Building(rv: nat, copy: Stored)
    | Wiping(rv: nat, copy: Stored, done: nat)

  datatype Fate = Alive | Vanished | ReleasedTornDown | ReleasedNodeDown

  /**
   History only: `wipes` counts host commands of teardown passes, `confirmed` is the device list of the confirmed one.
   */
  datatype Sys = Sys(
    stored: Stored, rv: nat, fate: Fate, backend: Backend, down: set<string>, host: Host,
    operator: OperatorPass, agent: AgentPass, wipes: nat, confirmed: seq<string>)

  datatype Step =
    | AdminDelete
    | AdminEdit(devices: seq<string>)
    | AdminCreateBackend(node: string, vg: string)
    | AdminDeleteBackend
    | Flip(node: string)
    | VolumeAdded(volume: string)
    | VolumeRemoved(volume: string)
    | BackendReleased
    | OtherHostChange(host: Host)
    | OpRead
    | OpFinalize
    | OpLookup
    | OpDeleteBackend
    | OpNotGone
    | OpDeregister
    | OpCheckNode
    | OpRelease
    | OpCreateBackend
    | OpStatus
    | OpAbort
    | AgRead
    | AgBuild(host: Host)
    | AgReport(ok: bool)
    | AgWipe
    | AgConfirm
    | AgAbort

  /** The Pool this StoragePool registered, judged as DeletePool judges it. */
  ghost predicate Matches(cfg: Config, b: Backend) {
    b.Backend? && b.node == cfg.node && b.vg == cfg.pool.VG()
  }

  ghost predicate Lands(s: Sys, rv: nat) {
    s.fate.Alive? && rv == s.rv
  }

  ghost function Write(s: Sys, rv: nat, o: Stored): Sys {
    if Lands(s, rv) then s.(stored := o, rv := s.rv + 1) else s
  }

  ghost predicate Named(cfg: Config, devices: seq<string>, p: string) {
    exists i :: 0 <= i < |devices| && cfg.pool.Kernel(devices[i]) == p
  }

  /** A disk whose wipe is under way or was confirmed. */
  ghost predicate Watched(cfg: Config, s: Sys, p: string) {
    || (s.stored.tornDown && Named(cfg, s.confirmed, p))
    || (s.agent.Wiping? && Named(cfg, s.agent.copy.devices, p))
  }

  /** Nobody else makes this pool's volume group or array, or puts its signature back on a disk being wiped for it. */
  ghost predicate SparesPool(cfg: Config, s: Sys, h: Host) {
    && (cfg.pool.VG() in h.vgs ==> cfg.pool.VG() in s.host.vgs)
    && (cfg.pool.ArrayName() in h.arrays ==> cfg.pool.ArrayName() in s.host.arrays)
    && forall p :: Watched(cfg, s, p) && Unclaimed(cfg.pool, s.host, p) ==> Unclaimed(cfg.pool, h, p)
  }

  ghost predicate Enabled(cfg: Config, s: Sys, step: Step) {
    match step
    case AdminDelete => s.fate.Alive? && !s.stored.deleting
    case AdminEdit(devices) => s.fate.Alive? && |devices| == |s.stored.devices|
    case AdminCreateBackend(_, _) => s.backend.Absent?
    case AdminDeleteBackend => s.backend.Backend?
    case Flip(_) => true
    case VolumeAdded(_) => s.backend.Backend?
    case VolumeRemoved(_) => s.backend.Backend?
    case BackendReleased => s.backend.Backend? && s.backend.deleting && s.backend.volumes == {}
    case OtherHostChange(h) => SparesPool(cfg, s, h)
    case OpRead => s.operator.Idle? && s.fate.Alive?
    case OpFinalize => s.operator.Read? && !s.operator.copy.deleting && !s.operator.copy.finalizer
    case OpLookup =>
      s.operator.Read? && s.operator.copy.finalizer && (s.operator.copy.deleting || s.operator.copy.hostReady)
    case OpDeleteBackend => s.operator.SawMatch? && s.operator.copy.deleting
    case OpNotGone => s.operator.Deleted?
    case OpDeregister => s.operator.SawGone? && !s.operator.copy.deregistered
    case OpCheckNode => s.operator.SawGone? && s.operator.copy.deregistered && !s.operator.copy.tornDown
    case OpRelease =>
      || (s.operator.SawGone? && s.operator.copy.deregistered && s.operator.copy.tornDown)
      || (s.operator.Checked? && s.operator.down)
    case OpCreateBackend => s.operator.SawAbsent?
    case OpStatus => s.operator.Read? && !s.operator.copy.deleting && s.operator.copy.finalizer
    case OpAbort => !s.operator.Idle?
    case AgRead => s.agent.Waiting? && s.fate.Alive?
    case AgBuild(_) => s.agent.Building?
    case AgReport(_) => s.agent.Building?
    case AgWipe => s.agent.Wiping? && s.agent.done < |Commands(Spec(cfg, s.agent.copy.devices))|
    case AgConfirm => s.agent.Wiping? && s.agent.done == |Commands(Spec(cfg, s.agent.copy.devices))|
    case AgAbort => !s.agent.Waiting?
  }

  ghost function AgentReads(s: Sys): AgentPass {
    if !s.stored.deleting then Building(s.rv, s.stored)
    else if s.stored.tornDown || !s.stored.deregistered then Waiting
    else Wiping(s.rv, s.stored, 0)
  }

  /** Deleting passes ask whether the Pool is gone; live passes whether it must be created. */
  ghost function Lookup(cfg: Config, s: Sys): OperatorPass
    requires s.operator.Read?
  {
    var rv, copy := s.operator.rv, s.operator.copy;
    if copy.deleting then
      if Matches(cfg, s.backend) then SawMatch(rv, copy) else SawGone(rv, copy)
    else
      if s.backend.Absent? then SawAbsent(rv, copy) else Read(rv, copy)
  }

  /** The next command of the agent's teardown pass, which follows the device list it read. */
  ghost function ExecNext(cfg: Config, s: Sys): Host
    requires Enabled(cfg, s, AgWipe)
  {
    var pool := Spec(cfg, s.agent.copy.devices);
    Exec(pool, s.host, Commands(pool)[s.agent.done])
  }

  ghost function Next(cfg: Config, s: Sys, step: Step): Sys
    requires Enabled(cfg, s, step)
  {
    match step
    case AdminDelete =>
      if s.stored.finalizer then Write(s, s.rv, s.stored.(deleting := true)) else s.(fate := Vanished)
    case AdminEdit(devices) => Write(s, s.rv, s.stored.(devices := devices))
    case AdminCreateBackend(node, vg) => s.(backend := Backend(node, vg, false, {}))
    case AdminDeleteBackend => s.(backend := s.backend.(deleting := true))
    case Flip(n) => s.(down := if n in s.down then s.down - {n} else s.down + {n})
    case VolumeAdded(v) => s.(backend := s.backend.(volumes := s.backend.volumes + {v}))
    case VolumeRemoved(v) => s.(backend := s.backend.(volumes := s.backend.volumes - {v}))
    case BackendReleased => s.(backend := Absent)
    case OtherHostChange(h) => s.(host := h)
    case OpRead => s.(operator := if s.stored.deleting && !s.stored.finalizer then Idle else Read(s.rv, s.stored))
    case OpFinalize =>
      var o := s.operator.copy.(finalizer := true);
      Write(s, s.operator.rv, o).(operator := if Lands(s, s.operator.rv) then Read(s.rv + 1, o) else Idle)
    case OpLookup => s.(operator := Lookup(cfg, s))
    case OpDeleteBackend =>
      s.(backend := if s.backend.Backend? then s.backend.(deleting := true) else s.backend,
         operator := Deleted(s.operator.rv, s.operator.copy))
    case OpNotGone => Write(s, s.operator.rv, s.operator.copy.(deregistered := false)).(operator := Idle)
    case OpDeregister => Write(s, s.operator.rv, s.operator.copy.(deregistered := true)).(operator := Idle)
    case OpCheckNode => s.(operator := Checked(s.operator.rv, s.operator.copy, cfg.node in s.down))
    case OpRelease =>
      if Lands(s, s.operator.rv) then
        s.(fate := if s.operator.Checked? then ReleasedNodeDown else ReleasedTornDown, operator := Idle)
      else s.(operator := Idle)
    case OpCreateBackend =>
      s.(backend := if s.backend.Absent? then Backend(cfg.node, cfg.pool.VG(), false, {}) else s.backend,
         operator := Read(s.operator.rv, s.operator.copy))
    case OpStatus => Write(s, s.operator.rv, s.operator.copy).(operator := Idle)
    case OpAbort => s.(operator := Idle)
    case AgRead => s.(agent := AgentReads(s))
    case AgBuild(h) => s.(host := h)
    case AgReport(ok) => Write(s, s.agent.rv, s.agent.copy.(hostReady := ok)).(agent := Waiting)
    case AgWipe =>
      s.(host := ExecNext(cfg, s),
         agent := s.agent.(done := s.agent.done + 1), wipes := s.wipes + 1)
    case AgConfirm =>
      Write(s, s.agent.rv, s.agent.copy.(tornDown := true))
        .(agent := Waiting, confirmed := if Lands(s, s.agent.rv) then s.agent.copy.devices else s.confirmed)
    case AgAbort => s.(agent := Waiting)
  }

  ghost predicate Init(cfg: Config, s: Sys) {
    && s.stored == Stored(s.stored.devices, false, false, false, false, false) && s.fate.Alive?
    && s.operator.Idle? && s.agent.Waiting? && s.wipes == 0
  }

  ghost predicate ValidRun(cfg: Config, states: seq<Sys>, steps: seq<Step>) {
    && |states| == |steps| + 1 && Init(cfg, states[0])
    && forall i :: 0 <= i < |steps| ==> Moves(cfg, states, steps, i)
  }

  ghost predicate Moves(cfg: Config, states: seq<Sys>, steps: seq<Step>, i: nat)
    requires i < |steps| && |states| == |steps| + 1
  {
    Enabled(cfg, states[i], steps[i]) && states[i + 1] == Next(cfg, states[i], steps[i])
  }

  // ---- the invariant ---------------------------------------------------------

  /** A copy is at most as far along as the stored object, and is the stored object if the version still stands. */
  ghost predicate Copied(s: Sys, rv: nat, copy: Stored) {
    && rv <= s.rv && (rv == s.rv ==> copy == s.stored)
    && (copy.deleting ==> s.stored.deleting) && (copy.finalizer ==> s.stored.finalizer)
    && (copy.tornDown ==> s.stored.tornDown)
  }

  ghost predicate StoredInv(s: Sys) {
    && (s.stored.deleting ==> s.stored.finalizer)
    && (s.stored.deregistered || s.stored.tornDown ==> s.stored.deleting)
    && (s.fate.Vanished? ==> !s.stored.finalizer)
    && (s.fate.ReleasedTornDown? || s.fate.ReleasedNodeDown? ==> s.operator.Idle?)
    && (s.fate.ReleasedTornDown? ==> s.stored.tornDown)
    && (!s.stored.deleting ==> s.wipes == 0)
  }

  ghost predicate OperatorInv(s: Sys) {
    !s.operator.Idle? ==>
      && Copied(s, s.operator.rv, s.operator.copy)
      && (!s.operator.copy.deleting ==> !s.stored.deregistered && !s.agent.Wiping?)
      && (match s.operator
          case Read(_, copy) => copy.deleting ==> copy.finalizer
          case SawAbsent(_, copy) => !copy.deleting && copy.finalizer
          case Checked(_, copy, _) => copy.deleting && copy.finalizer && copy.deregistered
          case _ => s.operator.copy.deleting && s.operator.copy.finalizer)
  }

  ghost predicate AgentInv(cfg: Config, s: Sys) {
    !s.agent.Waiting? ==>
      && Copied(s, s.agent.rv, s.agent.copy)
      && (s.agent.Building? ==> !s.agent.copy.deleting)
      && (s.agent.Wiping? ==>
            && s.agent.copy.deleting && s.agent.copy.deregistered
            && s.agent.done <= |Commands(Spec(cfg, s.agent.copy.devices))|)
  }

  /** What the first n teardown commands have achieved. */
  ghost predicate PartClean(pool: Pool, h: Host, n: nat) {
    && (n >= 1 ==> pool.VG() !in h.vgs)
    && (pool.raid && n >= 2 ==> pool.ArrayName() !in h.arrays)
    && forall i :: 0 <= i < |pool.devices| && i + |Preamble(pool)| < n ==>
      Unclaimed(pool, h, pool.Kernel(pool.devices[i]))
  }

  /** A confirmed teardown is complete for the device list it followed, and the agent will not build again. */
  ghost predicate HostInv(cfg: Config, s: Sys) {
    && (s.stored.tornDown ==> Clean(Spec(cfg, s.confirmed), s.host) && s.agent.Waiting?)
    && (s.agent.Wiping? ==> PartClean(Spec(cfg, s.agent.copy.devices), s.host, s.agent.done))
  }

  ghost predicate Inv(cfg: Config, s: Sys) {
    StoredInv(s) && OperatorInv(s) && AgentInv(cfg, s) && HostInv(cfg, s)
  }

  lemma SparedStaysClean(cfg: Config, s: Sys, h: Host, devices: seq<string>, n: nat)
    requires SparesPool(cfg, s, h) && forall p :: Named(cfg, devices, p) ==> Watched(cfg, s, p)
    ensures Clean(Spec(cfg, devices), s.host) ==> Clean(Spec(cfg, devices), h)
    ensures PartClean(Spec(cfg, devices), s.host, n) ==> PartClean(Spec(cfg, devices), h, n)
  {
    var pool := Spec(cfg, devices);
    forall i | 0 <= i < |devices|
      ensures Unclaimed(pool, s.host, pool.Kernel(devices[i])) ==> Unclaimed(pool, h, pool.Kernel(devices[i]))
    {
      var p := pool.Kernel(devices[i]);
      assert Named(cfg, devices, p);
      assert Unclaimed(pool, s.host, p) == Unclaimed(cfg.pool, s.host, p);
    }
  }

  lemma CommandCleans(pool: Pool, h: Host, n: nat)
    requires PartClean(pool, h, n) && n < |Commands(pool)|
    ensures PartClean(pool, Exec(pool, h, Commands(pool)[n]), n + 1)
  {
    var c := Commands(pool)[n];
    var t := Exec(pool, h, c);
    var pre := |Preamble(pool)|;
    assert n >= pre ==> c == Wipe(pool.devices[n - pre]);
    forall i | 0 <= i < |pool.devices| && i + pre < n + 1
      ensures Unclaimed(pool, t, pool.Kernel(pool.devices[i]))
    {
      assert i + pre < n ==> Unclaimed(pool, h, pool.Kernel(pool.devices[i]));
    }
  }

  lemma AllCommandsClean(pool: Pool, h: Host)
    ensures PartClean(pool, h, |Commands(pool)|) <==> Clean(pool, h)
  {
  }

  ghost predicate OutsideStep(step: Step) {
    step.AdminDelete? || step.AdminEdit? || step.AdminCreateBackend? || step.AdminDeleteBackend? || step.Flip? ||
    step.VolumeAdded? || step.VolumeRemoved? || step.BackendReleased? || step.OtherHostChange?
  }

  ghost predicate AgentStep(step: Step) {
    step.AgRead? || step.AgBuild? || step.AgReport? || step.AgWipe? || step.AgConfirm? || step.AgAbort?
  }

  lemma OutsideKeepsInv(cfg: Config, s: Sys, step: Step)
    requires Inv(cfg, s) && Enabled(cfg, s, step) && OutsideStep(step)
    ensures Inv(cfg, Next(cfg, s, step))
  {
    if step.OtherHostChange? {
      if s.stored.tornDown {
        SparedStaysClean(cfg, s, step.host, s.confirmed, 0);
      }
      if s.agent.Wiping? {
        SparedStaysClean(cfg, s, step.host, s.agent.copy.devices, s.agent.done);
      }
    }
  }

  ghost predicate OperatorWrite(step: Step) {
    step.OpFinalize? || step.OpNotGone? || step.OpDeregister? || step.OpStatus?
  }

  lemma OperatorWriteKeepsInv(cfg: Config, s: Sys, step: Step)
    requires Inv(cfg, s) && Enabled(cfg, s, step) && OperatorWrite(step)
    ensures Inv(cfg, Next(cfg, s, step))
  {
  }

  lemma OperatorKeepsInv(cfg: Config, s: Sys, step: Step)
    requires Inv(cfg, s) && Enabled(cfg, s, step) && !OutsideStep(step) && !AgentStep(step) && !OperatorWrite(step)
    ensures Inv(cfg, Next(cfg, s, step))
  {
  }

  lemma AgentKeepsInv(cfg: Config, s: Sys, step: Step)
    requires Inv(cfg, s) && Enabled(cfg, s, step) && AgentStep(step)
    ensures Inv(cfg, Next(cfg, s, step))
  {
    if step.AgWipe? {
      CommandCleans(Spec(cfg, s.agent.copy.devices), s.host, s.agent.done);
    } else if step.AgConfirm? {
      AllCommandsClean(Spec(cfg, s.agent.copy.devices), s.host);
    }
  }

  lemma StepKeepsInv(cfg: Config, s: Sys, step: Step)
    requires Inv(cfg, s) && Enabled(cfg, s, step)
    ensures Inv(cfg, Next(cfg, s, step))
  {
    if OutsideStep(step) {
      OutsideKeepsInv(cfg, s, step);
    } else if AgentStep(step) {
      AgentKeepsInv(cfg, s, step);
    } else if OperatorWrite(step) {
      OperatorWriteKeepsInv(cfg, s, step);
    } else {
      OperatorKeepsInv(cfg, s, step);
    }
  }

  lemma {:induction false} RunKeepsInv(cfg: Config, states: seq<Sys>, steps: seq<Step>, i: nat)
    requires ValidRun(cfg, states, steps) && i < |states|
    ensures Inv(cfg, states[i])
  {
    if i > 0 {
      RunKeepsInv(cfg, states, steps, i - 1);
      assert Moves(cfg, states, steps, i - 1);
      StepKeepsInv(cfg, states[i - 1], steps[i - 1]);
    }
  }

  // ---- no wipe under a live Pool ---------------------------------------------

  ghost predicate MidWipe(cfg: Config, s: Sys) {
    s.agent.Wiping? && s.agent.done < |Commands(Spec(cfg, s.agent.copy.devices))|
  }

  /** The operator found no Pool, and what it stores next will land. */
  ghost predicate AboutToClear(s: Sys) {
    s.operator.SawGone? && Lands(s, s.operator.rv)
  }

  /** A wipe command may still come without anybody looking for a Pool again. */
  ghost predicate Hazard(cfg: Config, s: Sys) {
    MidWipe(cfg, s) || (s.fate.Alive? && !s.stored.tornDown && (s.stored.deregistered || AboutToClear(s)))
  }

  ghost predicate MakesPool(cfg: Config, step: Step) {
    step == AdminCreateBackend(cfg.node, cfg.pool.VG())
  }

  /** From step n on nobody makes a Pool by hand at this place while a wipe may come unchecked. */
  ghost predicate Careful(cfg: Config, states: seq<Sys>, steps: seq<Step>, n: nat)
    requires |states| == |steps| + 1
  {
    forall i :: n <= i < |steps| && MakesPool(cfg, steps[i]) ==> !Hazard(cfg, states[i])
  }

  ghost predicate WipeInv(cfg: Config, s: Sys) {
    Hazard(cfg, s) ==> !Matches(cfg, s.backend)
  }

  lemma OutsideKeepsWipeInv(cfg: Config, s: Sys, step: Step)
    requires Inv(cfg, s) && WipeInv(cfg, s) && Enabled(cfg, s, step) && OutsideStep(step)
    requires MakesPool(cfg, step) ==> !Hazard(cfg, s)
    ensures WipeInv(cfg, Next(cfg, s, step))
  {
  }

  lemma AgentKeepsWipeInv(cfg: Config, s: Sys, step: Step)
    requires Inv(cfg, s) && WipeInv(cfg, s) && Enabled(cfg, s, step) && AgentStep(step)
    ensures WipeInv(cfg, Next(cfg, s, step))
  {
  }

  lemma OperatorKeepsWipeInv(cfg: Config, s: Sys, step: Step)
    requires Inv(cfg, s) && WipeInv(cfg, s) && Enabled(cfg, s, step) && !OutsideStep(step) && !AgentStep(step)
    ensures WipeInv(cfg, Next(cfg, s, step))
  {
  }

  /** Once no unchecked wipe can meet a Pool, care keeps it so. */
  lemma {:induction false} CareKeepsWipeInv(cfg: Config, states: seq<Sys>, steps: seq<Step>, n: nat, i: nat)
    requires ValidRun(cfg, states, steps) && n <= i < |states| && WipeInv(cfg, states[n])
    requires Careful(cfg, states, steps, n)
    ensures WipeInv(cfg, states[i])
    decreases i
  {
    if i > n {
      CareKeepsWipeInv(cfg, states, steps, n, i - 1);
      RunKeepsInv(cfg, states, steps, i - 1);
      assert Moves(cfg, states, steps, i - 1);
      if OutsideStep(steps[i - 1]) {
        OutsideKeepsWipeInv(cfg, states[i - 1], steps[i - 1]);
      } else if AgentStep(steps[i - 1]) {
        AgentKeepsWipeInv(cfg, states[i - 1], steps[i - 1]);
      } else {
        OperatorKeepsWipeInv(cfg, states[i - 1], steps[i - 1]);
      }
    }
  }

  /** Whenever the agent runs a wipe command, r-drbd has no Pool on this VG, so it lists no volume there. */
  lemma WipeOnlyWithoutPool(cfg: Config, states: seq<Sys>, steps: seq<Step>, i: nat)
    requires ValidRun(cfg, states, steps) && Careful(cfg, states, steps, 0)
    requires i < |steps| && steps[i].AgWipe?
    ensures !Matches(cfg, states[i].backend)
  {
    CareKeepsWipeInv(cfg, states, steps, 0, i);
    assert Moves(cfg, states, steps, i);
  }

  /** What an admin can see: without the mark, or once the teardown is confirmed, no point of any run is hazardous. */
  lemma UnmarkedOrTornDownIsSafe(cfg: Config, states: seq<Sys>, steps: seq<Step>, i: nat)
    requires ValidRun(cfg, states, steps) && i < |states|
    requires !states[i].stored.deleting || states[i].stored.tornDown
    ensures !Hazard(cfg, states[i])
  {
    RunKeepsInv(cfg, states, steps, i);
  }

  lemma Extended(cfg: Config, states: seq<Sys>, steps: seq<Step>, step: Step)
    requires ValidRun(cfg, states, steps) && Enabled(cfg, states[|steps|], step)
    ensures ValidRun(cfg, Then(cfg, states, steps, step), steps + [step])
  {
    var longer, all := Then(cfg, states, steps, step), steps + [step];
    forall i | 0 <= i < |all|
      ensures Moves(cfg, longer, all, i)
    {
      assert i < |steps| ==> Moves(cfg, states, steps, i);
    }
  }

  ghost function Then(cfg: Config, states: seq<Sys>, steps: seq<Step>, step: Step): seq<Sys>
    requires |states| == |steps| + 1 && Enabled(cfg, states[|steps|], step)
  {
    states + [Next(cfg, states[|steps|], step)]
  }

  /**
   The run goes on with a Pool made by hand, no other one after it, and ends in a wipe command while that Pool is there.
   */
  ghost predicate WipedUnderPool(cfg: Config, before: seq<Sys>, taken: seq<Step>, states: seq<Sys>, steps: seq<Step>) {
    && ValidRun(cfg, states, steps) && before <= states && taken <= steps
    && |taken| + 1 < |steps| && MakesPool(cfg, steps[|taken|])
    && (forall i :: |taken| < i < |steps| ==> !MakesPool(cfg, steps[i]))
    && steps[|steps| - 1].AgWipe? && Matches(cfg, states[|steps| - 1].backend)
  }

  lemma WipeNow(cfg: Config, before: seq<Sys>, taken: seq<Step>, states: seq<Sys>, steps: seq<Step>)
      returns (longer: seq<Sys>, all: seq<Step>)
    requires ValidRun(cfg, states, steps) && before <= states && taken <= steps && |before| == |taken| + 1
    requires |taken| < |steps| && MakesPool(cfg, steps[|taken|])
    requires forall i :: |taken| < i < |steps| ==> !MakesPool(cfg, steps[i])
    requires MidWipe(cfg, states[|steps|]) && Matches(cfg, states[|steps|].backend)
    ensures WipedUnderPool(cfg, before, taken, longer, all)
  {
    Extended(cfg, states, steps, AgWipe);
    longer, all := Then(cfg, states, steps, AgWipe), steps + [AgWipe];
  }

  /** A stored clearance: the agent's next pass begins to wipe. */
  lemma WipeNextPass(cfg: Config, before: seq<Sys>, taken: seq<Step>, states: seq<Sys>, steps: seq<Step>)
      returns (longer: seq<Sys>, all: seq<Step>)
    requires ValidRun(cfg, states, steps) && before <= states && taken <= steps && |before| == |taken| + 1
    requires |taken| < |steps| && MakesPool(cfg, steps[|taken|])
    requires forall i :: |taken| < i < |steps| ==> !MakesPool(cfg, steps[i])
    requires var s := states[|steps|];
      s.fate.Alive? && s.stored.deleting && s.stored.deregistered && !s.stored.tornDown && Matches(cfg, s.backend)
    ensures WipedUnderPool(cfg, before, taken, longer, all)
  {
    longer, all := states, steps;
    if !states[|steps|].agent.Waiting? {
      Extended(cfg, longer, all, AgAbort);
      longer, all := Then(cfg, longer, all, AgAbort), all + [AgAbort];
    }
    Extended(cfg, longer, all, AgRead);
    longer, all := Then(cfg, longer, all, AgRead), all + [AgRead];
    longer, all := WipeNow(cfg, before, taken, longer, all);
  }

  lemma HazardIsReal(cfg: Config, before: seq<Sys>, taken: seq<Step>) returns (states: seq<Sys>, steps: seq<Step>)
    requires ValidRun(cfg, before, taken) && before[|taken|].backend.Absent? && Hazard(cfg, before[|taken|])
    ensures WipedUnderPool(cfg, before, taken, states, steps)
  {
    var s, make := before[|taken|], AdminCreateBackend(cfg.node, cfg.pool.VG());
    RunKeepsInv(cfg, before, taken, |taken|);
    Extended(cfg, before, taken, make);
    states, steps := Then(cfg, before, taken, make), taken + [make];
    if MidWipe(cfg, s) {
      states, steps := WipeNow(cfg, before, taken, states, steps);
    } else if s.stored.deregistered {
      states, steps := WipeNextPass(cfg, before, taken, states, steps);
    } else {
      Extended(cfg, states, steps, OpDeregister);
      states, steps := Then(cfg, states, steps, OpDeregister), steps + [OpDeregister];
      states, steps := WipeNextPass(cfg, before, taken, states, steps);
    }
  }

  /**
   At every point of every careful run: a Pool made by hand now can be wiped under its owner exactly if the guard holds.
   */
  lemma HazardExactly(cfg: Config, before: seq<Sys>, taken: seq<Step>)
    requires ValidRun(cfg, before, taken) && Careful(cfg, before, taken, 0) && before[|taken|].backend.Absent?
    ensures Hazard(cfg, before[|taken|]) <==>
      exists states, steps :: WipedUnderPool(cfg, before, taken, states, steps)
  {
    var n := |taken|;
    if Hazard(cfg, before[n]) {
      var states, steps := HazardIsReal(cfg, before, taken);
    }
    if states, steps :| WipedUnderPool(cfg, before, taken, states, steps) {
      assert states[n] == before[n];
      assert Moves(cfg, states, steps, |steps| - 1);
      if !Hazard(cfg, before[n]) {
        CareKeepsWipeInv(cfg, states, steps, n, |steps| - 1);
      }
    }
  }

  ghost predicate NoPoolMade(cfg: Config, steps: seq<Step>) {
    forall i :: 0 <= i < |steps| ==> !MakesPool(cfg, steps[i])
  }

  lemma Onward(
      cfg: Config, states: seq<Sys>, steps: seq<Step>, step: Step, s: Sys)
    returns (longer: seq<Sys>, all: seq<Step>)
    requires ValidRun(cfg, states, steps) && NoPoolMade(cfg, steps) && !MakesPool(cfg, step)
    requires Enabled(cfg, states[|steps|], step) && Next(cfg, states[|steps|], step) == s
    ensures ValidRun(cfg, longer, all) && NoPoolMade(cfg, all) && longer[|all|] == s
  {
    Extended(cfg, states, steps, step);
    longer, all := Then(cfg, states, steps, step), steps + [step];
  }

  /** The guarded states are reached: by the undisturbed way to the clearance, for one. */
  lemma ClearanceIsReached(cfg: Config, s0: Sys) returns (states: seq<Sys>, steps: seq<Step>)
    requires Init(cfg, s0) && s0.backend.Absent?
    ensures ValidRun(cfg, states, steps) && Careful(cfg, states, steps, 0)
    ensures Hazard(cfg, states[|steps|]) && states[|steps|].backend.Absent?
  {
    var kept := s0.stored.(finalizer := true);
    var marked := kept.(deleting := true);
    states, steps := [s0], [];
    states, steps := Onward(cfg, states, steps, OpRead, s0.(operator := Read(s0.rv, s0.stored)));
    var s2 := s0.(stored := kept, rv := s0.rv + 1, operator := Read(s0.rv + 1, kept));
    states, steps := Onward(cfg, states, steps, OpFinalize, s2);
    states, steps := Onward(cfg, states, steps, OpAbort, s2.(operator := Idle));
    var s4 := s2.(operator := Idle, stored := marked, rv := s0.rv + 2);
    states, steps := Onward(cfg, states, steps, AdminDelete, s4);
    states, steps := Onward(cfg, states, steps, OpRead, s4.(operator := Read(s4.rv, marked)));
    states, steps := Onward(cfg, states, steps, OpLookup, s4.(operator := SawGone(s4.rv, marked)));
  }

  // ---- what a vanished StoragePool leaves behind -------------------------------

  ghost predicate NodeStaysUp(cfg: Config, states: seq<Sys>) {
    forall k :: 0 <= k < |states| ==> cfg.node !in states[k].down
  }

  lemma {:induction false} ReleasedByTeardown(cfg: Config, states: seq<Sys>, steps: seq<Step>, i: nat)
    requires ValidRun(cfg, states, steps) && NodeStaysUp(cfg, states) && i < |states|
    requires forall k :: 0 <= k < |steps| && steps[k].AdminDelete? ==> states[k].stored.finalizer
    ensures states[i].fate.Alive? || states[i].fate.ReleasedTornDown?
    ensures !(states[i].operator.Checked? && states[i].operator.down)
  {
    if i > 0 {
      ReleasedByTeardown(cfg, states, steps, i - 1);
      assert Moves(cfg, states, steps, i - 1);
    }
  }

  /** Nobody makes a Pool at this place after the releasing pass found none. */
  ghost predicate NoLatePool(cfg: Config, states: seq<Sys>, steps: seq<Step>)
    requires |states| == |steps| + 1
  {
    forall i :: 0 <= i < |steps| && MakesPool(cfg, steps[i]) ==> states[i].fate.Alive? && !AboutToClear(states[i])
  }

  ghost predicate GoneInv(cfg: Config, s: Sys) {
    s.fate.ReleasedTornDown? || AboutToClear(s) ==> !Matches(cfg, s.backend)
  }

  lemma StepKeepsGone(cfg: Config, s: Sys, step: Step)
    requires Inv(cfg, s) && GoneInv(cfg, s) && Enabled(cfg, s, step)
    requires MakesPool(cfg, step) ==> s.fate.Alive? && !AboutToClear(s)
    ensures GoneInv(cfg, Next(cfg, s, step))
  {
  }

  lemma {:induction false} PoolStaysGone(cfg: Config, states: seq<Sys>, steps: seq<Step>, i: nat)
    requires ValidRun(cfg, states, steps) && NoLatePool(cfg, states, steps) && i < |states|
    ensures GoneInv(cfg, states[i])
  {
    if i > 0 {
      PoolStaysGone(cfg, states, steps, i - 1);
      RunKeepsInv(cfg, states, steps, i - 1);
      assert Moves(cfg, states, steps, i - 1);
      StepKeepsGone(cfg, states[i - 1], steps[i - 1]);
    }
  }

  /**
   The device list a confirmed teardown followed was the stored one when the confirmation was stored, after the mark.
   */
  ghost predicate ConfirmedAt(states: seq<Sys>, steps: seq<Step>, k: nat, devices: seq<string>)
    requires |states| == |steps| + 1
  {
    k < |steps| && steps[k].AgConfirm? && states[k].stored.deleting && states[k].stored.devices == devices
  }

  lemma {:induction false} TornDownWasConfirmed(
      cfg: Config, states: seq<Sys>, steps: seq<Step>, i: nat)
    returns (k: nat)
    requires ValidRun(cfg, states, steps) && i < |states| && states[i].stored.tornDown
    ensures k < i && ConfirmedAt(states, steps, k, states[i].confirmed)
  {
    if i > 0 {
      RunKeepsInv(cfg, states, steps, i - 1);
      assert Moves(cfg, states, steps, i - 1);
      if states[i - 1].stored.tornDown {
        k := TornDownWasConfirmed(cfg, states, steps, i - 1);
      } else {
        k := i - 1;
      }
    }
  }

  /**
   If the object disappears, its node never went down, and every delete found
   the finalizer in place, then its volume group and array are gone and every
   device of the spec that was torn down is wiped, then and in every later
   state; its Pool is gone too, unless somebody makes one again.
   */
  lemma DisappearedMeansWiped(cfg: Config, states: seq<Sys>, steps: seq<Step>, i: nat, j: nat)
    requires ValidRun(cfg, states, steps) && NodeStaysUp(cfg, states)
    requires forall k :: 0 <= k < |steps| && steps[k].AdminDelete? ==> states[k].stored.finalizer
    requires i <= j < |states| && !states[i].fate.Alive?
    ensures exists k :: 0 <= k < i && ConfirmedAt(states, steps, k, states[i].confirmed)
    ensures Clean(Spec(cfg, states[i].confirmed), states[j].host)
    ensures NoLatePool(cfg, states, steps) ==> !Matches(cfg, states[j].backend)
  {
    ReleasedByTeardown(cfg, states, steps, i);
    StaysReleased(cfg, states, steps, i, j);
    RunKeepsInv(cfg, states, steps, i);
    RunKeepsInv(cfg, states, steps, j);
    var k := TornDownWasConfirmed(cfg, states, steps, i);
    if NoLatePool(cfg, states, steps) {
      PoolStaysGone(cfg, states, steps, j);
    }
  }

  lemma {:induction false} StaysReleased(cfg: Config, states: seq<Sys>, steps: seq<Step>, i: nat, j: nat)
    requires ValidRun(cfg, states, steps) && i <= j < |states| && !states[i].fate.Alive?
    ensures states[j].fate == states[i].fate && states[j].stored == states[i].stored
    ensures states[j].confirmed == states[i].confirmed
    decreases j
  {
    if i < j {
      StaysReleased(cfg, states, steps, i, j - 1);
      assert Moves(cfg, states, steps, j - 1);
      DeadStays(cfg, states[j - 1], steps[j - 1]);
    }
  }

  lemma DeadStays(cfg: Config, s: Sys, step: Step)
    requires Enabled(cfg, s, step) && !s.fate.Alive?
    ensures Next(cfg, s, step).stored == s.stored && Next(cfg, s, step).confirmed == s.confirmed
    ensures Next(cfg, s, step).fate == s.fate
  {
  }

  // ---- disks the spec no longer names --------------------------------------------

  ghost predicate StillMarked(cfg: Config, s: Sys, p: string) {
    p in s.host.disks && Marked(cfg.pool, s.host.disks[p])
  }

  /** Neither the stored spec nor a teardown under way names the disk. */
  ghost predicate SwappedOut(cfg: Config, s: Sys, p: string) {
    !Named(cfg, s.stored.devices, p) && (s.agent.Wiping? ==> !Named(cfg, s.agent.copy.devices, p))
  }

  /** Builds and other tenants do not clear the signature; an edit does not put the disk back into the spec. */
  ghost predicate LeavesAlone(cfg: Config, step: Step, p: string) {
    match step
    case AgBuild(h) => p in h.disks && Marked(cfg.pool, h.disks[p])
    case OtherHostChange(h) => p in h.disks && Marked(cfg.pool, h.disks[p])
    case AdminEdit(devices) => !Named(cfg, devices, p)
    case _ => true
  }

  lemma WipeSkips(cfg: Config, s: Sys, p: string)
    requires Enabled(cfg, s, AgWipe) && SwappedOut(cfg, s, p) && StillMarked(cfg, s, p) && p != cfg.pool.ArrayPath()
    ensures StillMarked(cfg, Next(cfg, s, AgWipe), p)
  {
    var pool, n := Spec(cfg, s.agent.copy.devices), s.agent.done;
    var pre := |Preamble(pool)|;
    if n >= pre {
      assert Commands(pool)[n] == Wipe(pool.devices[n - pre]);
      assert cfg.pool.Kernel(pool.devices[n - pre]) != p;
    }
  }

  lemma StepKeepsMark(cfg: Config, s: Sys, step: Step, p: string)
    requires Inv(cfg, s) && Enabled(cfg, s, step) && LeavesAlone(cfg, step, p)
    requires SwappedOut(cfg, s, p) && StillMarked(cfg, s, p) && p != cfg.pool.ArrayPath()
    ensures SwappedOut(cfg, Next(cfg, s, step), p) && StillMarked(cfg, Next(cfg, s, step), p)
  {
    if step.AgWipe? {
      WipeSkips(cfg, s, p);
    }
  }

  /**
   The other side of the coin: a member swapped out of the spec before the pool
   was wiped keeps this pool's signature through the teardown, the release and
   everything after.
   */
  lemma {:induction false} SwappedOutStaysMarked(
      cfg: Config, states: seq<Sys>, steps: seq<Step>, i: nat, j: nat, p: string)
    requires ValidRun(cfg, states, steps) && i <= j < |states|
    requires SwappedOut(cfg, states[i], p) && StillMarked(cfg, states[i], p) && p != cfg.pool.ArrayPath()
    requires forall k :: i <= k < j ==> LeavesAlone(cfg, steps[k], p)
    ensures SwappedOut(cfg, states[j], p) && StillMarked(cfg, states[j], p)
    decreases j
  {
    if i < j {
      SwappedOutStaysMarked(cfg, states, steps, i, j - 1, p);
      assert Moves(cfg, states, steps, j - 1);
      RunKeepsInv(cfg, states, steps, j - 1);
      assert LeavesAlone(cfg, steps[j - 1], p);
      StepKeepsMark(cfg, states[j - 1], steps[j - 1], p);
    }
  }

  /**
   The finalizer is what this hangs on: deleted before it was added, the object is gone at once and no wipe command ever
   runs.
   */
  lemma DeletedTooEarlyIsNeverWiped(cfg: Config, states: seq<Sys>, steps: seq<Step>, k: nat, j: nat)
    requires ValidRun(cfg, states, steps)
    requires k < |steps| && steps[k].AdminDelete? && !states[k].stored.finalizer
    requires k < j < |states|
    ensures states[j].fate.Vanished? && states[j].wipes == 0
  {
    assert Moves(cfg, states, steps, k);
    StaysReleased(cfg, states, steps, k + 1, j);
    RunKeepsInv(cfg, states, steps, j);
  }

  /** Such a run exists with a volume group left behind, because the agent builds without waiting for the finalizer. */
  lemma EarlyDeleteLeavesTheVG(cfg: Config, s0: Sys) returns (states: seq<Sys>, steps: seq<Step>)
    requires Init(cfg, s0)
    ensures ValidRun(cfg, states, steps)
    ensures !states[|steps|].fate.Alive? && cfg.pool.VG() in states[|steps|].host.vgs
  {
    var built := AgBuild(s0.host.(vgs := s0.host.vgs + {cfg.pool.VG()}));
    var s1 := Next(cfg, s0, AgRead);
    var s2 := Next(cfg, s1, built);
    var s3 := Next(cfg, s2, AgReport(true));
    var s4 := Next(cfg, s3, AdminDelete);
    states, steps := [s0, s1, s2, s3, s4], [AgRead, built, AgReport(true), AdminDelete];
    assert forall i :: 0 <= i < |steps| ==> Moves(cfg, states, steps, i);
  }
}
