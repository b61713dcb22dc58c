/**
 The undisturbed life of a StoragePool, step by step: built, registered with
 r-drbd, deleted, deregistered, wiped, confirmed and let go. Every state on the
 way is given in full.
 */
module PoolLifecycle {
  import opened PoolTeardown
  import opened PoolDeletion

  ghost predicate Reaches(cfg: Config, states: seq<Sys>, steps: seq<Step>, s: Sys) {
    ValidRun(cfg, states, steps) && NoPoolMade(cfg, steps) && states[|steps|] == s
  }

  lemma Step(cfg: Config, states: seq<Sys>, steps: seq<Step>, s: Sys, step: Step, t: Sys)
      returns (longer: seq<Sys>, all: seq<Step>)
    requires Reaches(cfg, states, steps, s) && !MakesPool(cfg, step) && Enabled(cfg, s, step) && Next(cfg, s, step) == t
    ensures Reaches(cfg, longer, all, t)
  {
    longer, all := Onward(cfg, states, steps, step, t);
  }

  /** The object at each stage of its life. */
  ghost function Ready(o: Stored): Stored { o.(hostReady := true) }
  ghost function Held(o: Stored): Stored { Ready(o).(finalizer := true) }
  ghost function Marked(o: Stored): Stored { Held(o).(deleting := true) }
  ghost function Freed(o: Stored): Stored { Marked(o).(deregistered := true) }
  ghost function Wiped(o: Stored): Stored { Freed(o).(tornDown := true) }

  ghost function Ours(cfg: Config): Backend { Backend(cfg.node, "stornas-" + cfg.pool.name, false, {}) }

  ghost predicate Given(cfg: Config, s0: Sys) { Init(cfg, s0) && s0.backend.Absent? }

  /** The agent builds and reports; the operator has not looked yet. */
  ghost function Built(s0: Sys, host: Host): Sys {
    s0.(stored := Ready(s0.stored), rv := s0.rv + 1, host := host)
  }

  lemma BuiltRun(cfg: Config, s0: Sys, host: Host) returns (states: seq<Sys>, steps: seq<Step>)
    requires Given(cfg, s0)
    ensures Reaches(cfg, states, steps, Built(s0, host))
  {
    var s1 := s0.(agent := Building(s0.rv, s0.stored));
    states, steps := [s0], [];
    states, steps := Step(cfg, states, steps, s0, AgRead, s1);
    states, steps := Step(cfg, states, steps, s1, AgBuild(host), s1.(host := host));
    states, steps := Step(cfg, states, steps, s1.(host := host), AgReport(true), Built(s0, host));
  }

  /** The operator adds its finalizer and registers the Pool of this node and volume group. */
  ghost function Registered(cfg: Config, s0: Sys, host: Host): Sys {
    s0.(stored := Held(s0.stored), rv := s0.rv + 3, host := host, backend := Ours(cfg))
  }

  lemma RegisteredRun(cfg: Config, s0: Sys, host: Host) returns (states: seq<Sys>, steps: seq<Step>)
    requires Given(cfg, s0)
    ensures Reaches(cfg, states, steps, Registered(cfg, s0, host)) && Matches(cfg, Ours(cfg))
  {
    states, steps := BuiltRun(cfg, s0, host);
    var s, v := Built(s0, host), s0.rv;
    var read := s.(operator := Read(v + 1, Ready(s0.stored)));
    var kept := s.(stored := Held(s0.stored), rv := v + 2, operator := Read(v + 2, Held(s0.stored)));
    var saw := kept.(operator := SawAbsent(v + 2, Held(s0.stored)));
    states, steps := Step(cfg, states, steps, s, OpRead, read);
    states, steps := Step(cfg, states, steps, read, OpFinalize, kept);
    states, steps := Step(cfg, states, steps, kept, OpLookup, saw);
    states, steps := Step(cfg, states, steps, saw, OpCreateBackend, kept.(backend := Ours(cfg)));
    states, steps := Step(cfg, states, steps, kept.(backend := Ours(cfg)), OpStatus, Registered(cfg, s0, host));
  }

  /** Deleted while r-drbd still has the Pool: the operator deletes that and waits. */
  ghost function Waits(cfg: Config, s0: Sys, host: Host): Sys {
    s0.(stored := Marked(s0.stored), rv := s0.rv + 5, host := host, backend := Ours(cfg).(deleting := true))
  }

  lemma WaitingRun(cfg: Config, s0: Sys, host: Host) returns (states: seq<Sys>, steps: seq<Step>)
    requires Given(cfg, s0)
    ensures Reaches(cfg, states, steps, Waits(cfg, s0, host))
  {
    states, steps := RegisteredRun(cfg, s0, host);
    var s, v, o := Registered(cfg, s0, host), s0.rv, Marked(s0.stored);
    var marked := s.(stored := o, rv := v + 4);
    var gone := marked.(backend := Ours(cfg).(deleting := true), operator := Deleted(v + 4, o));
    states, steps := Step(cfg, states, steps, s, AdminDelete, marked);
    states, steps := Step(cfg, states, steps, marked, OpRead, marked.(operator := Read(v + 4, o)));
    var saw := marked.(operator := SawMatch(v + 4, o));
    states, steps := Step(cfg, states, steps, marked.(operator := Read(v + 4, o)), OpLookup, saw);
    states, steps := Step(cfg, states, steps, saw, OpDeleteBackend, gone);
    states, steps := Step(cfg, states, steps, gone, OpNotGone, Waits(cfg, s0, host));
  }

  /** r-drbd lets go of the Pool; the operator clears the wipe. */
  ghost function Cleared(s0: Sys, host: Host): Sys {
    s0.(stored := Freed(s0.stored), rv := s0.rv + 6, host := host, backend := Absent)
  }

  lemma ClearedRun(cfg: Config, s0: Sys, host: Host) returns (states: seq<Sys>, steps: seq<Step>)
    requires Given(cfg, s0)
    ensures Reaches(cfg, states, steps, Cleared(s0, host))
  {
    states, steps := WaitingRun(cfg, s0, host);
    var s, v, o := Waits(cfg, s0, host), s0.rv, Marked(s0.stored);
    var free := s.(backend := Absent);
    states, steps := Step(cfg, states, steps, s, BackendReleased, free);
    states, steps := Step(cfg, states, steps, free, OpRead, free.(operator := Read(v + 5, o)));
    var saw := free.(operator := SawGone(v + 5, o));
    states, steps := Step(cfg, states, steps, free.(operator := Read(v + 5, o)), OpLookup, saw);
    states, steps := Step(cfg, states, steps, saw, OpDeregister, Cleared(s0, host));
  }

  /** After k wipe commands: the host is what the first k teardown commands make of it. */
  ghost function Wiping(cfg: Config, s0: Sys, host: Host, k: nat): Sys
    requires k <= |Commands(Spec(cfg, s0.stored.devices))|
  {
    var pool := Spec(cfg, s0.stored.devices);
    Cleared(s0, host).(agent := AgentPass.Wiping(s0.rv + 6, Freed(s0.stored), k), wipes := k,
                       host := Run(pool, host, Commands(pool)[..k]))
  }

  lemma WipeStep(cfg: Config, s0: Sys, host: Host, k: nat)
    requires k < |Commands(Spec(cfg, s0.stored.devices))|
    ensures Enabled(cfg, Wiping(cfg, s0, host, k), AgWipe)
    ensures Next(cfg, Wiping(cfg, s0, host, k), AgWipe) == Wiping(cfg, s0, host, k + 1)
  {
    var pool := Spec(cfg, s0.stored.devices);
    RunPush(pool, host, Commands(pool)[..k], Commands(pool)[k]);
    assert Commands(pool)[..k + 1] == Commands(pool)[..k] + [Commands(pool)[k]];
  }

  lemma {:induction false} WipingRun(
      cfg: Config, s0: Sys, host: Host, k: nat)
    returns (states: seq<Sys>, steps: seq<Step>)
    requires Given(cfg, s0) && k <= |Commands(Spec(cfg, s0.stored.devices))|
    ensures Reaches(cfg, states, steps, Wiping(cfg, s0, host, k))
  {
    if k == 0 {
      states, steps := ClearedRun(cfg, s0, host);
      assert Run(Spec(cfg, s0.stored.devices), host, []) == host;
      states, steps := Step(cfg, states, steps, Cleared(s0, host), AgRead, Wiping(cfg, s0, host, 0));
    } else {
      states, steps := WipingRun(cfg, s0, host, k - 1);
      WipeStep(cfg, s0, host, k - 1);
      states, steps := Step(cfg, states, steps, Wiping(cfg, s0, host, k - 1), AgWipe, Wiping(cfg, s0, host, k));
    }
  }

  /** Confirmed, with the host as a whole teardown leaves it. */
  ghost function Confirmed(cfg: Config, s0: Sys, host: Host): Sys {
    var pool := Spec(cfg, s0.stored.devices);
    s0.(stored := Wiped(s0.stored), rv := s0.rv + 7, backend := Absent, host := Run(pool, host, Commands(pool)),
        wipes := |Commands(pool)|, confirmed := s0.stored.devices)
  }

  lemma ConfirmedRun(cfg: Config, s0: Sys, host: Host) returns (states: seq<Sys>, steps: seq<Step>)
    requires Given(cfg, s0)
    ensures Reaches(cfg, states, steps, Confirmed(cfg, s0, host))
  {
    var pool := Spec(cfg, s0.stored.devices);
    var n := |Commands(pool)|;
    states, steps := WipingRun(cfg, s0, host, n);
    assert Commands(pool)[..n] == Commands(pool);
    states, steps := Step(cfg, states, steps, Wiping(cfg, s0, host, n), AgConfirm, Confirmed(cfg, s0, host));
  }

  /** And let go. */
  lemma LifecycleRun(cfg: Config, s0: Sys, host: Host) returns (states: seq<Sys>, steps: seq<Step>)
    requires Given(cfg, s0)
    ensures Reaches(cfg, states, steps, Confirmed(cfg, s0, host).(fate := ReleasedTornDown))
  {
    var s, o, v := Confirmed(cfg, s0, host), Wiped(s0.stored), s0.rv + 7;
    states, steps := ConfirmedRun(cfg, s0, host);
    states, steps := Step(cfg, states, steps, s, OpRead, s.(operator := Read(v, o)));
    states, steps := Step(cfg, states, steps, s.(operator := Read(v, o)), OpLookup, s.(operator := SawGone(v, o)));
    states, steps := Step(cfg, states, steps, s.(operator := SawGone(v, o)), OpRelease, s.(fate := ReleasedTornDown));
  }
}
