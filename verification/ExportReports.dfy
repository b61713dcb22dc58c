/**
 What an agent's stored report rests on: the host step of the same pass. Stated
 over runs, on the stored versions and the outcomes of host steps.
 */
module ExportReports {
  import opened ExportProtocol

  /** A step of node n's own agent. */
  ghost predicate Touches(step: Step, n: Node) {
    (step.AgRead? || step.AgHost? || step.AgWrite? || step.AgCrash?) && step.node == n
  }

  /** The three things an agent may store on top of a version o, after the host step it made for o. */
  ghost predicate IsReport(n: Node, o: Object, outcome: HostOutcome, o': Object) {
    || (o.deleting && o.node == n && o' == o.(state := Removed))
    || (Asked(n, o) && outcome.Done? && o' == o.(hostReady := true, state := Exported))
    || (Asked(n, o) && outcome.Broke? && o' == o.(hostReady := false, state := Failed))
  }

  ghost predicate Asked(n: Node, o: Object) {
    !o.deleting && o.node == n && o.devices != []
  }

  /**
   Version w was stored at step k by the agent of n, which had made its host step at h, both in one pass over w - 1.
   */
  ghost predicate WroteAfter(states: seq<Sys>, steps: seq<Step>, h: nat, k: nat, w: nat, n: Node)
    requires |states| == |steps| + 1
  {
    && h < k < |steps| && 0 < w
    && steps[h].AgHost? && steps[h].node == n && steps[k] == AgWrite(n)
    && n in states[h].agents && states[h].agents[n].pass == Got(w - 1)
    && (forall x :: h < x < k ==> !Touches(steps[x], n))
    && |states[k].versions| == w < |states[k + 1].versions|
  }

  // ---- single steps --------------------------------------------------------------------

  /** What a host step leaves, by the version it is for and what the host did. */
  lemma HostStepMeans(s: Sys, n: Node, outcome: HostOutcome)
    requires Shape(s) && Enabled(s, AgHost(n, outcome))
    ensures var a, i := Next(s, AgHost(n, outcome)).agents[n], s.agents[n].pass.at;
      && a.acted == i && a.pass.Acted? && a.pass.at == i
      && (i == |s.versions| || s.versions[i].deleting || s.versions[i].node != n ==> !a.exports && !a.pass.walked)
      && (i < |s.versions| && !s.versions[i].deleting && s.versions[i].node == n && s.versions[i].devices == [] ==>
            !a.pass.walked && (a.exports <==> s.kind.Target? && s.agents[n].exports))
      && (i < |s.versions| && Asked(n, s.versions[i]) ==>
            match outcome
            case Skipped => !a.pass.walked && a.exports == s.agents[n].exports
            case Done => a.pass.walked && a.pass.ok && a.exports
            case Broke(partial) => a.pass.walked && !a.pass.ok && a.exports == (s.agents[n].exports || partial))
  {
  }

  /**
   A write that lands stores what the pass found; one that does not land, and a pass with nothing to say, store nothing.
   */
  lemma WriteMeans(s: Sys, n: Node)
    requires Shape(s) && Enabled(s, AgWrite(n))
    ensures var t, pass := Next(s, AgWrite(n)), s.agents[n].pass;
      && t.agents[n].pass == Waiting
      && (t.versions == s.versions || (pass.at + 1 == |s.versions| && !s.gone && |t.versions| == |s.versions| + 1))
      && (t.versions != s.versions ==>
            var o, o' := s.versions[pass.at], t.versions[|s.versions|];
            if pass.walked then o' == o.(hostReady := pass.ok, state := if pass.ok then Exported else Failed)
            else o.deleting && o.node == n && o' == o.(state := Removed))
  {
  }

  lemma OthersLeaveAgent(s: Sys, step: Step, n: Node)
    requires Shape(s) && Enabled(s, step) && n in s.agents && !Touches(step, n)
    ensures n in Next(s, step).agents && Next(s, step).agents[n] == s.agents[n]
  {
  }

  // ---- runs ------------------------------------------------------------------------------

  lemma OnlyHostStepsAct(s: Sys, step: Step, n: Node)
    requires Shape(s) && Enabled(s, step) && n in s.agents && Touches(step, n)
    ensures n in Next(s, step).agents
    ensures Next(s, step).agents[n].pass.Acted? ==>
      step.AgHost? && s.agents[n].pass.Got? && s.agents[n].pass.at == Next(s, step).agents[n].pass.at
  {
  }

  lemma AgentsStay(s: Sys, step: Step)
    requires Shape(s) && Enabled(s, step)
    ensures Next(s, step).agents.Keys == s.agents.Keys
  {
  }

  /** Step h is the host step of the pass that n's agent is in at state k. */
  ghost predicate ActedAt(states: seq<Sys>, steps: seq<Step>, h: nat, k: nat, n: Node)
    requires |states| == |steps| + 1
  {
    && h < k < |states| && steps[h].AgHost? && steps[h].node == n
    && n in states[h].agents && n in states[h + 1].agents && n in states[k].agents
    && states[h].agents[n].pass.Got? && states[k].agents[n].pass.Acted?
    && states[h].agents[n].pass.at == states[k].agents[n].pass.at && states[h + 1].agents[n] == states[k].agents[n]
    && forall x :: h < x < k ==> !Touches(steps[x], n)
  }

  /** A pass that has acted did so in a host step of this very pass. */
  lemma {:induction false} ActedInHostStep(states: seq<Sys>, steps: seq<Step>, k: nat, n: Node) returns (h: nat)
    requires ValidRun(states, steps) && k < |states| && n in states[k].agents && states[k].agents[n].pass.Acted?
    ensures ActedAt(states, steps, h, k, n)
  {
    if k > 0 {
      assert Moves(states, steps, k - 1);
      AgentsStay(states[k - 1], steps[k - 1]);
      if Touches(steps[k - 1], n) {
        OnlyHostStepsAct(states[k - 1], steps[k - 1], n);
        h := k - 1;
      } else {
        OthersLeaveAgent(states[k - 1], steps[k - 1], n);
        h := ActedInHostStep(states, steps, k - 1, n);
      }
    }
  }

  /** Every version but the first was appended by one step of the run. */
  lemma {:induction false} AppendedAt(states: seq<Sys>, steps: seq<Step>, i: nat, w: nat) returns (k: nat)
    requires ValidRun(states, steps) && i < |states| && 0 < w < |states[i].versions|
    ensures k < i && |states[k].versions| == w && |states[k + 1].versions| == w + 1
    ensures states[k + 1].versions <= states[i].versions && states[k + 1].writers <= states[i].writers
  {
    if i > 0 {
      assert Moves(states, steps, i - 1);
      GrowsByOne(states[i - 1], steps[i - 1]);
      if w < |states[i - 1].versions| {
        k := AppendedAt(states, steps, i - 1, w);
      } else {
        k := i - 1;
      }
    }
  }

  lemma GrowsByOne(s: Sys, step: Step)
    requires Shape(s) && Enabled(s, step)
    ensures var t := Next(s, step);
      s.versions <= t.versions && s.writers <= t.writers && |t.versions| <= |s.versions| + 1
  {
  }

  lemma WriterIsItsStep(s: Sys, step: Step, n: Node)
    requires Shape(s) && Enabled(s, step) && |Next(s, step).versions| == |s.versions| + 1
    requires |Next(s, step).writers| == |s.writers| + 1 && Next(s, step).writers[|s.writers|] == Agent(n)
    ensures step == AgWrite(n)
  {
  }

  /**
   Every version an agent stored is the report of a host step it made in the same pass for the version before:
   Exported and ready after a walk that went through, with the export in place; Failed and not ready after one
   that broke; Removed after a teardown. Nothing else.
   */
  lemma AgentStoresItsReport(states: seq<Sys>, steps: seq<Step>, i: nat, w: nat, n: Node) returns (h: nat, k: nat)
    requires ValidRun(states, steps) && i < |states| && 0 < w < |states[i].versions| == |states[i].writers|
    requires states[i].writers[w] == Agent(n)
    ensures k < i && WroteAfter(states, steps, h, k, w, n)
    ensures IsReport(n, states[i].versions[w - 1], steps[h].outcome, states[i].versions[w])
    ensures Asked(n, states[i].versions[w - 1]) && steps[h].outcome.Done? ==>
      n in states[k].agents && states[k].agents[n].exports
  {
    k := AppendedAt(states, steps, i, w);
    var s, t := states[k], states[k + 1];
    RunKeepsInv(states, steps, k);
    RunKeepsInv(states, steps, k + 1);
    assert Moves(states, steps, k);
    assert t.writers[w] == states[i].writers[w];
    WriterIsItsStep(s, steps[k], n);
    WriteMeans(s, n);
    h := ActedInHostStep(states, steps, k, n);
    RunKeepsInv(states, steps, h);
    assert Moves(states, steps, h);
    RunExtends(states, steps, h, k);
    HostStepMeans(states[h], n, steps[h].outcome);
    assert AgentInv(s, n);
  }

  // ---- HostReady and Available ---------------------------------------------

  /**
   A stored HostReady=True was stored by the agent of the node that version
   names, on top of a version that already named it, with no change of placement
   from there on; and it was stored after a walk of that pass had gone through,
   while the node was exporting.
   */
  lemma HostReadyIsTheNodesOwnReport(
      states: seq<Sys>, steps: seq<Step>, i: nat, m: nat)
    returns (w: nat, h: nat, k: nat)
    requires ValidRun(states, steps) && i < |states|
    requires m < |states[i].versions| && states[i].versions[m].hostReady
    ensures ReportedAt(states[i].versions, states[i].writers, m, w)
    ensures k < i && WroteAfter(states, steps, h, k, w, states[i].versions[m].node) && steps[h].outcome.Done?
    ensures var n := states[i].versions[m].node; n in states[k].agents && states[k].agents[n].exports
  {
    RunKeepsInv(states, steps, i);
    var s := states[i];
    w :| ReportedAt(s.versions, s.writers, m, w);
    h, k := AgentStoresItsReport(states, steps, i, w, s.versions[m].node);
  }

  /** So every Available=True the operator stores rests on such a walk. */
  lemma AvailableRestsOnReport(states: seq<Sys>, steps: seq<Step>, i: nat, m: nat) returns (w: nat, h: nat, k: nat)
    requires ValidRun(states, steps) && i < |states|
    requires m < |states[i].versions| == |states[i].writers|
    requires states[i].writers[m] == Operator && states[i].versions[m].available
    ensures ReportedAt(states[i].versions, states[i].writers, m, w)
    ensures k < i && WroteAfter(states, steps, h, k, w, states[i].versions[m].node) && steps[h].outcome.Done?
    ensures var n := states[i].versions[m].node; n in states[k].agents && states[k].agents[n].exports
  {
    RunKeepsInv(states, steps, i);
    w, h, k := HostReadyIsTheNodesOwnReport(states, steps, i, m);
  }

  // ---- the whole life of an export -------------------------------------------

  ghost predicate Reaches(states: seq<Sys>, steps: seq<Step>, s: Sys) {
    ValidRun(states, steps) && states[|steps|] == s
  }

  lemma Onward(
      states: seq<Sys>, steps: seq<Step>, s: Sys, step: Step, t: Sys)
    returns (longer: seq<Sys>, all: seq<Step>)
    requires Reaches(states, steps, s) && Shape(s) && Enabled(s, step) && Next(s, step) == t
    ensures Reaches(longer, all, t) && |all| == |steps| + 1
  {
    longer, all := states + [t], steps + [step];
    forall i | 0 <= i < |all|
      ensures Moves(longer, all, i)
    {
      assert i < |steps| ==> Moves(states, steps, i);
    }
  }

  /** The versions of an undisturbed life, and who stored them. */
  ghost function Life(n: Node, devices: seq<string>): seq<Object> {
    [Object(1, false, false, "", [], false, false, Unset),
     Object(1, false, true, "", [], false, false, Unset),
     Object(1, false, true, n, devices, false, false, Unset),
     Object(1, false, true, n, devices, true, false, Exported),
     Object(1, false, true, n, devices, true, true, Exported),
     Object(1, true, true, n, devices, true, true, Exported),
     Object(1, true, true, n, devices, true, true, Removed)]
  }

  ghost function Authors(n: Node): seq<Writer> {
    [User, Operator, Operator, Agent(n), Operator, User, Agent(n)]
  }

  /** The state after the first k versions of that life, with n's agent as given. */
  ghost function Stage(s0: Sys, n: Node, devices: seq<string>, k: nat, a: AgentState): Sys
    requires k <= 7
  {
    s0.(versions := Life(n, devices)[..k], writers := Authors(n)[..k], agents := s0.agents[n := a])
  }

  lemma StageFacts(n: Node, devices: seq<string>, k: nat)
    requires k < 7
    ensures Life(n, devices)[..k + 1] == Life(n, devices)[..k] + [Life(n, devices)[k]]
    ensures Authors(n)[..k + 1] == Authors(n)[..k] + [Authors(n)[k]]
  {
  }

  ghost predicate Given(s0: Sys, n: Node, devices: seq<string>) {
    Init(s0) && n in s0.agents && n != "" && devices != []
  }

  const Fresh := AgentState(0, -1, false, Waiting)
  const Serving := AgentState(2, 2, true, Waiting)

  /** The operator adds its finalizer and places the object. */
  lemma PlacedRun(s0: Sys, n: Node, devices: seq<string>) returns (states: seq<Sys>, steps: seq<Step>)
    requires Given(s0, n, devices)
    ensures Reaches(states, steps, Stage(s0, n, devices, 3, Fresh))
  {
    var s1, s2, s3 := Stage(s0, n, devices, 1, Fresh), Stage(s0, n, devices, 2, Fresh), Stage(s0, n, devices, 3, Fresh);
    StageFacts(n, devices, 1);
    StageFacts(n, devices, 2);
    assert s0.agents[n := Fresh] == s0.agents;
    assert s1 == s0;
    states, steps := [s0], [];
    states, steps := Onward(states, steps, s1, OpRead(0), s1.(operator := Read(0)));
    states, steps := Onward(states, steps, s1.(operator := Read(0)), OpFinalize, s2.(operator := Read(1)));
    states, steps := Onward(states, steps, s2.(operator := Read(1)), OpStatus(Place(n, devices, false)), s3);
  }

  /** The agent reads, walks and reports. */
  lemma ReportedRun(s0: Sys, n: Node, devices: seq<string>) returns (states: seq<Sys>, steps: seq<Step>)
    requires Given(s0, n, devices)
    ensures Reaches(states, steps, Stage(s0, n, devices, 4, Serving))
  {
    states, steps := PlacedRun(s0, n, devices);
    StageFacts(n, devices, 3);
    var got := Stage(s0, n, devices, 3, AgentState(2, -1, false, Got(2)));
    var acted := Stage(s0, n, devices, 3, AgentState(2, 2, true, Acted(2, true, true)));
    states, steps := Onward(states, steps, Stage(s0, n, devices, 3, Fresh), AgRead(n, 2), got);
    states, steps := Onward(states, steps, got, AgHost(n, Done), acted);
    states, steps := Onward(states, steps, acted, AgWrite(n), Stage(s0, n, devices, 4, Serving));
  }

  /** The operator makes it Available: the object is served. */
  lemma ServingRun(s0: Sys, n: Node, devices: seq<string>) returns (states: seq<Sys>, steps: seq<Step>)
    requires Given(s0, n, devices)
    ensures Reaches(states, steps, Stage(s0, n, devices, 5, Serving))
  {
    states, steps := ReportedRun(s0, n, devices);
    StageFacts(n, devices, 4);
    var s := Stage(s0, n, devices, 4, Serving);
    states, steps := Onward(states, steps, s, OpRead(3), s.(operator := Read(3)));
    var verdict := OpStatus(Place(n, devices, false));
    states, steps := Onward(states, steps, s.(operator := Read(3)), verdict, Stage(s0, n, devices, 5, Serving));
  }

  /** Marked for deletion, it is torn down. */
  lemma TornRun(s0: Sys, n: Node, devices: seq<string>) returns (states: seq<Sys>, steps: seq<Step>)
    requires Given(s0, n, devices)
    ensures Reaches(states, steps, Stage(s0, n, devices, 6, AgentState(5, 5, false, Acted(5, true, false))))
  {
    states, steps := ServingRun(s0, n, devices);
    StageFacts(n, devices, 5);
    var marked := Stage(s0, n, devices, 6, Serving);
    var got := Stage(s0, n, devices, 6, AgentState(5, 2, true, Got(5)));
    var acted := Stage(s0, n, devices, 6, AgentState(5, 5, false, Acted(5, true, false)));
    states, steps := Onward(states, steps, Stage(s0, n, devices, 5, Serving), Delete, marked);
    states, steps := Onward(states, steps, marked, AgRead(n, 5), got);
    states, steps := Onward(states, steps, got, AgHost(n, Done), acted);
  }

  /** The agent confirms. */
  lemma ConfirmedRun(s0: Sys, n: Node, devices: seq<string>) returns (states: seq<Sys>, steps: seq<Step>)
    requires Given(s0, n, devices)
    ensures Reaches(states, steps, Stage(s0, n, devices, 7, AgentState(5, 5, false, Waiting)))
  {
    states, steps := TornRun(s0, n, devices);
    StageFacts(n, devices, 6);
    var acted := Stage(s0, n, devices, 6, AgentState(5, 5, false, Acted(5, true, false)));
    var confirmed := Stage(s0, n, devices, 7, AgentState(5, 5, false, Waiting));
    states, steps := Onward(states, steps, acted, AgWrite(n), confirmed);
  }

  /** And let go. Every stored version on the way is the one an undisturbed life has. */
  lemma LifecycleRun(s0: Sys, n: Node, devices: seq<string>) returns (states: seq<Sys>, steps: seq<Step>)
    requires Given(s0, n, devices)
    ensures ValidRun(states, steps)
    ensures var s := states[|steps|];
      && s.gone && s.release.Confirmed? && n in s.agents && !s.agents[n].exports
      && s.versions == Life(n, devices) && s.writers == Authors(n)
  {
    states, steps := ConfirmedRun(s0, n, devices);
    var s := Stage(s0, n, devices, 7, AgentState(5, 5, false, Waiting));
    assert Life(n, devices)[..7] == Life(n, devices) && Authors(n)[..7] == Authors(n);
    states, steps := Onward(states, steps, s, OpRead(6), s.(operator := Read(6)));
    states, steps := Onward(states, steps, s.(operator := Read(6)), OpRelease, s.(gone := true, release := Confirmed));
  }
}
