/**
 The Target and Share handshake between the operator and the per-node agents
 (operator/internal/controller/target_controller.go and share_controller.go,
 internal/agent/target_reconciler.go and share_reconciler.go) as a state machine
 over one object: every stored version is kept, reads may return old versions,
 and a write lands only on the version it was computed from.
 */
module ExportProtocol {

  /** "" is no node. */
  type Node = string

  datatype Kind = Target | Share

  datatype ExportState = Unset | Exported | Failed | Removed

  /** `devices` stands for the resolved LUN list of a Target, or the one device of a Share. */
  datatype Object = Object(
    generation: nat, deleting: bool, finalizer: bool,
    node: Node, devices: seq<string>, hostReady: bool, available: bool, state: ExportState)

  /** What one operator pass concluded from claims, volumes, nodes and Secrets. */
  datatype Verdict = Unplaced | Place(node: Node, devices: seq<string>, secretProblem: bool)

  /** The status a pass stores: a move resets HostReady before Available is derived from it. */
  function OperatorStatus(o: Object, v: Verdict): Object {
    match v
    case Unplaced => o.(available := false)
    case Place(node, devices, secretProblem) =>
      var moved := o.node != "" && o.node != node;
      var hostReady := o.hostReady && !moved;
      o.(node := node, devices := devices, hostReady := hostReady, available := hostReady && !secretProblem)
  }

  datatype Action = Clear | Hold | Ensure

  /** What the agent of node n does to its host for a version it read. */
  function AgentAction(kind: Kind, n: Node, o: Object): Action {
    if o.deleting || o.node != n then Clear
    else if o.devices == [] then (if kind.Target? then Hold else Clear)
    else Ensure
  }

  datatype Writer = User | Operator | Agent(node: Node)

  datatype OperatorPass =
    | Idle
    | Read(base: nat)
    | Checked(base: nat, down: bool)

  datatype AgentPass =
    | Waiting
    | Got(at: nat)
    | Acted(at: nat, ok: bool, walked: bool)

  /** `seen` is the newest version read (reads never go back), `acted` the one last applied to the host, -1 for none. */
  datatype AgentState = AgentState(seen: nat, acted: int, exports: bool, pass: AgentPass)

  datatype Release = Held | NeverPlaced | Confirmed | NodeDown

  /** `down` are the nodes gone or unready now; `release` is how the finalizer went, if it did. */
  datatype Sys = Sys(
    kind: Kind, versions: seq<Object>, writers: seq<Writer>, gone: bool,
    down: set<Node>,
    operator: OperatorPass, agents: map<Node, AgentState>, release: Release)

  /** What the host made of EnsureTarget or EnsureShare; a Target agent may also skip on an unchanged input. */
  datatype HostOutcome = Skipped | Done | Broke(partial: bool)

  datatype Step =
    | Edit
    | Delete
    | Flip(node: Node)
    | OpRead(i: nat)
    | OpFinalize
    | OpStatus(verdict: Verdict)
    | OpCheck
    | OpRelease
    | OpAbort
    | AgRead(node: Node, i: nat)
    | AgHost(node: Node, outcome: HostOutcome)
    | AgWrite(node: Node)
    | AgCrash(node: Node)

  ghost predicate Shape(s: Sys) {
    && |s.versions| == |s.writers| > 0
    && "" !in s.agents
    && (!s.operator.Idle? ==> s.operator.base < |s.versions|)
    && forall n :: n in s.agents ==>
         var a := s.agents[n];
         && -1 <= a.acted <= a.seen <= |s.versions|
         && (!a.pass.Waiting? ==> a.pass.at == a.seen)
         && (a.pass.Acted? ==> a.acted == a.seen)
  }

  function Last(s: Sys): Object
    requires |s.versions| > 0
  {
    s.versions[|s.versions| - 1]
  }

  /** Optimistic locking: only the holder of the stored version may replace it. */
  ghost predicate Lands(s: Sys, base: nat) {
    !s.gone && base + 1 == |s.versions|
  }

  ghost function Write(s: Sys, base: nat, o: Object, w: Writer): Sys {
    if Lands(s, base) then s.(versions := s.versions + [o], writers := s.writers + [w]) else s
  }

  /** The operator has the finalizer to release and may do so without, or because of, the node check. */
  ghost predicate MayRelease(s: Sys)
    requires Shape(s)
  {
    !s.operator.Idle? &&
    var o := s.versions[s.operator.base];
    && o.deleting && o.finalizer
    && (o.node == "" || o.state == Removed || (s.operator.Checked? && s.operator.down))
  }

  ghost predicate Enabled(s: Sys, step: Step)
    requires Shape(s)
  {
    match step
    case Edit => !s.gone
    case Delete => !s.gone && !Last(s).deleting
    case Flip(n) => true
    case OpRead(i) => s.operator.Idle? && i < |s.versions|
    case OpFinalize =>
      s.operator.Read? && !s.versions[s.operator.base].deleting && !s.versions[s.operator.base].finalizer
    case OpStatus(v) =>
      && s.operator.Read? && !s.versions[s.operator.base].deleting && s.versions[s.operator.base].finalizer
      && (v.Place? ==> v.node != "")
    case OpCheck =>
      s.operator.Read? && s.versions[s.operator.base].deleting && s.versions[s.operator.base].finalizer
    case OpRelease => MayRelease(s)
    case OpAbort => !s.operator.Idle?
    case AgRead(n, i) =>
      && n in s.agents && s.agents[n].pass.Waiting? && s.agents[n].seen <= i
      && (i < |s.versions| || (s.gone && i == |s.versions|))
    case AgHost(n, outcome) =>
      && n in s.agents && s.agents[n].pass.Got?
      && (outcome.Skipped? ==> s.kind.Target?)
    case AgWrite(n) => n in s.agents && s.agents[n].pass.Acted?
    case AgCrash(n) => n in s.agents
  }

  ghost function ActionAt(s: Sys, n: Node, i: nat): Action
    requires i <= |s.versions|
  {
    if i == |s.versions| then Clear else AgentAction(s.kind, n, s.versions[i])
  }

  ghost function HostStep(s: Sys, n: Node, outcome: HostOutcome): AgentState
    requires Shape(s) && n in s.agents && s.agents[n].pass.Got?
  {
    var a := s.agents[n];
    var i := a.pass.at;
    match ActionAt(s, n, i)
    case Clear => a.(acted := i, exports := false, pass := Acted(i, true, false))
    case Hold => a.(acted := i, pass := Acted(i, true, false))
    case Ensure =>
      match outcome
      case Skipped => a.(acted := i, pass := Acted(i, true, false))
      case Done => a.(acted := i, exports := true, pass := Acted(i, true, true))
      case Broke(partial) => a.(acted := i, exports := a.exports || partial, pass := Acted(i, false, true))
  }

  /** The status an agent stores after its host step, if it stores one. */
  ghost function AgentStatus(n: Node, o: Object, pass: AgentPass): Object
    requires pass.Acted?
  {
    if pass.walked then
      o.(hostReady := pass.ok, state := if pass.ok then Exported else Failed)
    else if o.deleting && o.node == n then
      o.(state := Removed)
    else
      o
  }

  ghost function Next(s: Sys, step: Step): Sys
    requires Shape(s) && Enabled(s, step)
  {
    match step
    case Edit => Write(s, |s.versions| - 1, Last(s).(generation := Last(s).generation + 1), User)
    case Delete =>
      if Last(s).finalizer then
        Write(s, |s.versions| - 1, Last(s).(deleting := true), User)
      else
        s.(gone := true)
    case Flip(n) =>
      s.(down := if n in s.down then s.down - {n} else s.down + {n})
    case OpRead(i) => s.(operator := Read(i))
    case OpFinalize =>
      var base := s.operator.base;
      Write(s, base, s.versions[base].(finalizer := true), Operator)
        .(operator := if Lands(s, base) then Read(base + 1) else Idle)
    case OpStatus(v) =>
      Write(s, s.operator.base, OperatorStatus(s.versions[s.operator.base], v), Operator).(operator := Idle)
    case OpCheck =>
      s.(operator := Checked(s.operator.base, s.versions[s.operator.base].node in s.down))
    case OpRelease =>
      var base := s.operator.base;
      var o := s.versions[base];
      if Lands(s, base) then
        s.(gone := true, operator := Idle,
           release := if o.node == "" then NeverPlaced else if o.state == Removed then Confirmed else NodeDown)
      else
        s.(operator := Idle)
    case OpAbort => s.(operator := Idle)
    case AgRead(n, i) => s.(agents := s.agents[n := s.agents[n].(seen := i, pass := Got(i))])
    case AgHost(n, outcome) => s.(agents := s.agents[n := HostStep(s, n, outcome)])
    case AgWrite(n) =>
      var a := s.agents[n];
      var rest := s.(agents := s.agents[n := a.(pass := Waiting)]);
      if a.pass.at == |s.versions| then rest
      else
        var o := s.versions[a.pass.at];
        var o' := AgentStatus(n, o, a.pass);
        if o' == o then rest else Write(rest, a.pass.at, o', Agent(n))
    case AgCrash(n) => s.(agents := s.agents[n := s.agents[n].(pass := Waiting)])
  }

  ghost predicate Init(s: Sys) {
    && s.versions == [Object(1, false, false, "", [], false, false, Unset)] && s.writers == [User]
    && !s.gone && s.operator.Idle? && s.release.Held?
    && "" !in s.agents
    && forall n :: n in s.agents ==> s.agents[n] == AgentState(0, -1, false, Waiting)
  }

  ghost predicate ValidRun(states: seq<Sys>, steps: seq<Step>) {
    && |states| == |steps| + 1 && Init(states[0])
    && forall i :: 0 <= i < |steps| ==> Moves(states, steps, i)
  }

  ghost predicate Moves(states: seq<Sys>, steps: seq<Step>, i: nat)
    requires i < |steps| && |states| == |steps| + 1
  {
    Shape(states[i]) && Enabled(states[i], steps[i]) && states[i + 1] == Next(states[i], steps[i])
  }

  // ---- what the stored history satisfies -----------------------------------

  /** Deletion is permanent and freezes placement; a placed object stays placed. */
  ghost predicate Follows(o: Object, later: Object) {
    && (o.deleting ==> later.deleting && later.node == o.node)
    && (o.node != "" ==> later.node != "")
  }

  /** HostReady of version m was stored by the agent of the node it names, and the placement has not changed since. */
  ghost predicate ReportedAt(versions: seq<Object>, writers: seq<Writer>, m: nat, w: nat) {
    && 0 < w <= m < |versions| == |writers|
    && writers[w] == Agent(versions[m].node) && versions[w].hostReady
    && versions[w].state == Exported && !versions[w].deleting
    && forall j :: w - 1 <= j <= m ==> versions[j].node == versions[m].node
  }

  /** A version with which its node's agent says that its walk went through. */
  ghost predicate IsFresh(o: Object, w: Writer) {
    w == Agent(o.node) && o.hostReady && o.state == Exported && !o.deleting
  }

  ghost predicate Stored(o: Object) {
    && (!o.finalizer ==> o.node == "" && !o.available)
    && (o.deleting ==> o.finalizer)
    && (o.state == Removed ==> o.deleting)
    && (o.hostReady ==> o.node != "")
  }

  ghost predicate Ordered(versions: seq<Object>) {
    forall i, j {:trigger Follows(versions[i], versions[j])} ::
      0 <= i <= j < |versions| ==> Follows(versions[i], versions[j])
  }

  ghost predicate Reported(versions: seq<Object>, writers: seq<Writer>) {
    forall m :: 0 <= m < |versions| && versions[m].hostReady ==> exists w :: ReportedAt(versions, writers, m, w)
  }

  ghost predicate HistoryInv(versions: seq<Object>, writers: seq<Writer>) {
    && |versions| == |writers|
    && (forall i :: 0 <= i < |versions| ==> Stored(versions[i]))
    && Ordered(versions)
    && Reported(versions, writers)
    && (forall m :: 0 <= m < |versions| && writers[m].Operator? && versions[m].available ==> versions[m].hostReady)
  }

  ghost predicate Serves(o: Object, n: Node) {
    o.node == n && !o.deleting
  }

  /** The agent applied a version that already carried the deletion mark, or the object's absence. */
  ghost predicate ToreDown(s: Sys, n: Node)
    requires Shape(s) && n in s.agents
  {
    var a := s.agents[n];
    a.acted >= 0 && (a.acted == |s.versions| || s.versions[a.acted].deleting)
  }

  ghost predicate AgentInv(s: Sys, n: Node)
    requires Shape(s) && n in s.agents
  {
    var a := s.agents[n];
    && (a.seen == |s.versions| ==> s.gone)
    && (a.exports ==> 0 <= a.acted < |s.versions| && Serves(s.versions[a.acted], n))
    && (a.pass.Acted? && a.pass.walked ==> a.acted < |s.versions| && Serves(s.versions[a.acted], n))
    && (a.pass.Acted? && a.pass.walked && a.pass.ok ==> a.exports)
  }

  ghost predicate Inv(s: Sys) {
    && Shape(s)
    && HistoryInv(s.versions, s.writers)
    && (forall n :: n in s.agents ==> AgentInv(s, n))
    && (forall m :: 0 <= m < |s.versions| && s.versions[m].state == Removed ==>
          s.versions[m].node in s.agents && ToreDown(s, s.versions[m].node))
    && (s.operator.Checked? ==> s.versions[s.operator.base].deleting)
    && ReleaseInv(s)
  }

  ghost predicate ReleaseInv(s: Sys)
    requires Shape(s)
  {
    match s.release
    case Held => true
    case NeverPlaced => s.gone && Last(s).deleting && Last(s).node == ""
    case Confirmed => s.gone && Last(s).deleting && Last(s).state == Removed
    case NodeDown => s.gone && Last(s).deleting
  }

  lemma InitInv(s: Sys)
    requires Init(s)
    ensures Inv(s)
  {
  }

  lemma AppendKeepsOrder(versions: seq<Object>, o: Object)
    requires Ordered(versions) && |versions| > 0 && Follows(versions[|versions| - 1], o)
    ensures Ordered(versions + [o])
  {
    var vs, n := versions + [o], |versions|;
    forall i, j | 0 <= i <= j < |vs|
      ensures Follows(vs[i], vs[j])
    {
      assert i < n ==> Follows(versions[i], versions[n - 1]);
      assert j < n ==> Follows(versions[i], versions[j]);
    }
  }

  /** HostReady may only be carried over within one placement, or stored by the placed node's agent. */
  lemma AppendKeepsReported(versions: seq<Object>, writers: seq<Writer>, o: Object, w: Writer)
    requires Reported(versions, writers) && |versions| == |writers| > 0
    requires o.hostReady ==>
      versions[|versions| - 1].node == o.node && (versions[|versions| - 1].hostReady || IsFresh(o, w))
    ensures Reported(versions + [o], writers + [w])
  {
    var vs, ws, n := versions + [o], writers + [w], |versions|;
    forall m | 0 <= m < |vs| && vs[m].hostReady
      ensures exists x :: ReportedAt(vs, ws, m, x)
    {
      if m == n && IsFresh(o, w) {
        FreshReport(versions, writers, o, w);
      } else if m == n {
        var x :| ReportedAt(versions, writers, n - 1, x);
        CarriedReport(versions, writers, x, o, w);
      } else {
        var x :| ReportedAt(versions, writers, m, x);
        OldReport(versions, writers, m, x, o, w);
      }
    }
  }

  lemma FreshReport(versions: seq<Object>, writers: seq<Writer>, o: Object, w: Writer)
    requires |versions| == |writers| > 0 && IsFresh(o, w) && versions[|versions| - 1].node == o.node
    ensures ReportedAt(versions + [o], writers + [w], |versions|, |versions|)
  {
  }

  lemma OldReport(versions: seq<Object>, writers: seq<Writer>, m: nat, x: nat, o: Object, w: Writer)
    requires ReportedAt(versions, writers, m, x)
    ensures ReportedAt(versions + [o], writers + [w], m, x)
  {
  }

  lemma CarriedReport(versions: seq<Object>, writers: seq<Writer>, x: nat, o: Object, w: Writer)
    requires |versions| > 0 && ReportedAt(versions, writers, |versions| - 1, x)
    requires versions[|versions| - 1].node == o.node
    ensures ReportedAt(versions + [o], writers + [w], |versions|, x)
  {
  }

  /** Appending one version keeps every history fact, given how the writer derived it. */
  lemma AppendKeepsHistory(versions: seq<Object>, writers: seq<Writer>, o: Object, w: Writer)
    requires HistoryInv(versions, writers) && |versions| > 0
    requires Stored(o) && Follows(versions[|versions| - 1], o)
    requires o.hostReady ==>
      versions[|versions| - 1].node == o.node && (versions[|versions| - 1].hostReady || IsFresh(o, w))
    requires w.Operator? && o.available ==> o.hostReady
    ensures HistoryInv(versions + [o], writers + [w])
  {
    AppendKeepsOrder(versions, o);
    AppendKeepsReported(versions, writers, o, w);
  }

  /** Facts about older versions, agents and the operator survive an append. */
  lemma AppendKeepsRest(s: Sys, o: Object, w: Writer)
    requires Inv(s) && !s.gone
    requires HistoryInv(s.versions + [o], s.writers + [w])
    requires o.state == Removed ==> o.node in s.agents && ToreDown(s, o.node)
    ensures Inv(s.(versions := s.versions + [o], writers := s.writers + [w]))
  {
    var t := s.(versions := s.versions + [o], writers := s.writers + [w]);
    assert Shape(t);
    forall n | n in t.agents
      ensures AgentInv(t, n)
    {
      assert AgentInv(s, n);
    }
    forall m | 0 <= m < |t.versions| && t.versions[m].state == Removed
      ensures t.versions[m].node in t.agents && ToreDown(t, t.versions[m].node)
    {
      if m < |s.versions| {
        assert ToreDown(s, s.versions[m].node);
      }
      assert AgentInv(s, t.versions[m].node);
    }
  }

  lemma EditKeepsInv(s: Sys)
    requires Inv(s) && Enabled(s, Edit)
    ensures Inv(Next(s, Edit))
  {
    var o := Last(Next(s, Edit));
    assert Stored(Last(s));
    AppendKeepsHistory(s.versions, s.writers, o, User);
    AppendKeepsRest(s, o, User);
  }

  lemma DeleteKeepsInv(s: Sys)
    requires Inv(s) && Enabled(s, Delete)
    ensures Inv(Next(s, Delete))
  {
    var t := Next(s, Delete);
    if Last(s).finalizer {
      assert Stored(Last(s));
      AppendKeepsHistory(s.versions, s.writers, Last(t), User);
      AppendKeepsRest(s, Last(t), User);
    } else {
      SameAgents(s, t);
    }
  }

  lemma FlipKeepsInv(s: Sys, n: Node)
    requires Inv(s)
    ensures Inv(Next(s, Flip(n)))
  {
    SameAgents(s, Next(s, Flip(n)));
  }

  /** Agent facts depend on the history and on the object being gone, not on anything else. */
  lemma SameAgents(s: Sys, t: Sys)
    requires Inv(s) && Shape(t)
    requires t.versions == s.versions && t.agents == s.agents && t.kind == s.kind && (s.gone ==> t.gone)
    ensures forall n :: n in t.agents ==> AgentInv(t, n)
    ensures forall m :: 0 <= m < |t.versions| && t.versions[m].state == Removed ==>
      t.versions[m].node in t.agents && ToreDown(t, t.versions[m].node)
  {
    assert forall n :: n in s.agents ==> AgentInv(s, n);
  }

  lemma OperatorWriteKeepsInv(s: Sys, o: Object)
    requires Inv(s) && s.operator.Read? && Lands(s, s.operator.base)
    requires Stored(o) && Follows(Last(s), o) && o.state == Last(s).state && !o.deleting
    requires o.hostReady ==> Last(s).node == o.node && Last(s).hostReady
    requires o.available ==> o.hostReady
    ensures Inv(Write(s, s.operator.base, o, Operator))
  {
    assert Stored(Last(s));
    AppendKeepsHistory(s.versions, s.writers, o, Operator);
    AppendKeepsRest(s, o, Operator);
  }

  lemma OperatorPassEnds(s: Sys, pass: OperatorPass)
    requires Inv(s) && (pass.Idle? || (pass.Read? && pass.base < |s.versions|))
    ensures Inv(s.(operator := pass))
  {
    SameAgents(s, s.(operator := pass));
  }

  lemma FinalizeKeepsInv(s: Sys)
    requires Inv(s) && Enabled(s, OpFinalize)
    ensures Inv(Next(s, OpFinalize))
  {
    var base := s.operator.base;
    if Lands(s, base) {
      assert Stored(Last(s));
      var o := Last(s).(finalizer := true);
      OperatorWriteKeepsInv(s, o);
      OperatorPassEnds(Write(s, base, o, Operator), Read(base + 1));
    } else {
      OperatorPassEnds(s, Idle);
    }
  }

  lemma StatusKeepsInv(s: Sys, v: Verdict)
    requires Inv(s) && Enabled(s, OpStatus(v))
    ensures Inv(Next(s, OpStatus(v)))
  {
    var base := s.operator.base;
    if Lands(s, base) {
      assert Stored(Last(s));
      var o := OperatorStatus(Last(s), v);
      OperatorWriteKeepsInv(s, o);
      OperatorPassEnds(Write(s, base, o, Operator), Idle);
    } else {
      OperatorPassEnds(s, Idle);
    }
  }

  lemma OperatorMoveKeepsInv(s: Sys, step: Step)
    requires Inv(s) && Enabled(s, step) && (step.OpRead? || step.OpCheck? || step.OpRelease? || step.OpAbort?)
    ensures Inv(Next(s, step))
  {
    SameAgents(s, Next(s, step));
  }

  /** An agent may change its own state as long as it never goes back to an older version. */
  lemma AgentMoveKeepsInv(s: Sys, n: Node, a: AgentState)
    requires Inv(s) && n in s.agents
    requires Shape(s.(agents := s.agents[n := a])) && AgentInv(s.(agents := s.agents[n := a]), n)
    requires s.agents[n].acted <= a.acted
    ensures Inv(s.(agents := s.agents[n := a]))
  {
    var t := s.(agents := s.agents[n := a]);
    forall x | x in t.agents
      ensures AgentInv(t, x)
    {
      assert AgentInv(s, x);
    }
    forall m | 0 <= m < |t.versions| && t.versions[m].state == Removed
      ensures t.versions[m].node in t.agents && ToreDown(t, t.versions[m].node)
    {
      assert ToreDown(s, s.versions[m].node);
      var before := s.agents[n].acted;
      if 0 <= before && a.acted < |s.versions| {
        assert Follows(s.versions[before], s.versions[a.acted]);
      }
    }
  }

  lemma AgentReadKeepsInv(s: Sys, step: Step)
    requires Inv(s) && Enabled(s, step) && (step.AgRead? || step.AgCrash?)
    ensures Inv(Next(s, step))
  {
    assert AgentInv(s, step.node);
    AgentMoveKeepsInv(s, step.node, Next(s, step).agents[step.node]);
  }

  /** After a host step the node exports only if the version it just applied names it and is not being deleted. */
  lemma HostStepFacts(s: Sys, n: Node, outcome: HostOutcome)
    requires Shape(s) && n in s.agents && AgentInv(s, n) && s.agents[n].pass.Got?
    ensures var a, i := HostStep(s, n, outcome), s.agents[n].pass.at;
      && a.acted == a.seen == s.agents[n].seen == i && a.pass.Acted? && a.pass.at == i
      && (a.exports || a.pass.walked ==> i < |s.versions| && Serves(s.versions[i], n))
      && (a.pass.walked && a.pass.ok ==> a.exports)
      && (i == |s.versions| ==> s.gone)
  {
    var i := s.agents[n].pass.at;
    assert ActionAt(s, n, i) != Clear ==> i < |s.versions| && Serves(s.versions[i], n);
  }

  lemma AgentHostKeepsInv(s: Sys, n: Node, outcome: HostOutcome)
    requires Inv(s) && Enabled(s, AgHost(n, outcome))
    ensures Inv(Next(s, AgHost(n, outcome)))
  {
    assert AgentInv(s, n);
    HostStepFacts(s, n, outcome);
    var a := HostStep(s, n, outcome);
    AppliedKeepsInv(s, n, a);
  }

  lemma AppliedKeepsInv(s: Sys, n: Node, a: AgentState)
    requires Inv(s) && n in s.agents
    requires a.acted == a.seen == s.agents[n].seen && a.pass.Acted? && a.pass.at == a.seen
    requires a.exports || a.pass.walked ==> a.acted < |s.versions| && Serves(s.versions[a.acted], n)
    requires a.acted == |s.versions| ==> s.gone
    requires a.pass.walked && a.pass.ok ==> a.exports
    ensures Inv(s.(agents := s.agents[n := a]))
  {
    AgentMoveKeepsInv(s, n, a);
  }

  lemma AgentWriteKeepsInv(s: Sys, n: Node)
    requires Inv(s) && Enabled(s, AgWrite(n))
    ensures Inv(Next(s, AgWrite(n)))
  {
    var t := Next(s, AgWrite(n));
    var a := s.agents[n];
    var rest := s.(agents := s.agents[n := a.(pass := Waiting)]);
    assert AgentInv(s, n);
    assert Inv(rest) by {
      AgentReadKeepsInv(s, AgCrash(n));
    }
    if t != rest {
      var o := Last(t);
      assert Stored(Last(s));
      AppendKeepsHistory(s.versions, s.writers, o, Agent(n));
      AppendKeepsRest(rest, o, Agent(n));
    }
  }

  lemma StepKeepsInv(s: Sys, step: Step)
    requires Inv(s) && Enabled(s, step)
    ensures Inv(Next(s, step))
  {
    match step
    case Edit => EditKeepsInv(s);
    case Delete => DeleteKeepsInv(s);
    case Flip(n) => FlipKeepsInv(s, n);
    case OpFinalize => FinalizeKeepsInv(s);
    case OpStatus(v) => StatusKeepsInv(s, v);
    case AgWrite(n) => AgentWriteKeepsInv(s, n);
    case AgRead(_, _) => AgentReadKeepsInv(s, step);
    case AgHost(n, outcome) => AgentHostKeepsInv(s, n, outcome);
    case AgCrash(_) => AgentReadKeepsInv(s, step);
    case _ => OperatorMoveKeepsInv(s, step);
  }

  lemma {:induction false} RunKeepsInv(states: seq<Sys>, steps: seq<Step>, i: nat)
    requires ValidRun(states, steps) && i < |states|
    ensures Inv(states[i])
  {
    if i == 0 {
      InitInv(states[0]);
    } else {
      RunKeepsInv(states, steps, i - 1);
      assert Moves(states, steps, i - 1);
      StepKeepsInv(states[i - 1], steps[i - 1]);
    }
  }

  // ---- who exports ---------------------------------------------------------

  /** A node exports only what the newest version it applied asked it to export. */
  lemma ExportFollowsNewestApplied(states: seq<Sys>, steps: seq<Step>, i: nat, n: Node)
    requires ValidRun(states, steps) && i < |states|
    requires n in states[i].agents && states[i].agents[n].exports
    ensures var s := states[i];
      0 <= s.agents[n].acted < |s.versions| && Serves(s.versions[s.agents[n].acted], n)
  {
    RunKeepsInv(states, steps, i);
    assert AgentInv(states[i], n);
  }

  /** The node has applied the newest thing there is to know about the object. */
  ghost predicate CaughtUp(s: Sys, n: Node) {
    n in s.agents && s.agents[n].acted == if s.gone then |s.versions| else |s.versions| - 1
  }

  lemma AtMostOneExporter(states: seq<Sys>, steps: seq<Step>, i: nat, n: Node, m: Node)
    requires ValidRun(states, steps) && i < |states|
    requires CaughtUp(states[i], n) && CaughtUp(states[i], m)
    ensures states[i].gone ==> !states[i].agents[n].exports
    ensures states[i].agents[n].exports && states[i].agents[m].exports ==> n == m
  {
    RunKeepsInv(states, steps, i);
    assert AgentInv(states[i], n) && AgentInv(states[i], m);
  }

  // ---- deletion ------------------------------------------------------------

  ghost predicate Extends(s: Sys, t: Sys) {
    && s.versions <= t.versions && t.agents.Keys == s.agents.Keys
    && (s.gone ==> t.gone && t.versions == s.versions)
    && (forall n :: n in s.agents ==> s.agents[n].acted <= t.agents[n].acted)
  }

  lemma StepExtends(s: Sys, step: Step)
    requires Shape(s) && Enabled(s, step)
    ensures Extends(s, Next(s, step))
  {
  }

  lemma {:induction false} RunExtends(states: seq<Sys>, steps: seq<Step>, i: nat, j: nat)
    requires ValidRun(states, steps) && i <= j < |states|
    ensures Extends(states[i], states[j])
    decreases j
  {
    if i < j {
      RunExtends(states, steps, i, j - 1);
      RunStepExtends(states, steps, j - 1);
      ExtendsTransitive(states[i], states[j - 1], states[j]);
    }
  }

  lemma RunStepExtends(states: seq<Sys>, steps: seq<Step>, i: nat)
    requires ValidRun(states, steps) && i < |steps|
    ensures Extends(states[i], states[i + 1])
  {
    assert Moves(states, steps, i);
    StepExtends(states[i], steps[i]);
  }

  lemma ExtendsTransitive(s: Sys, t: Sys, u: Sys)
    requires Extends(s, t) && Extends(t, u)
    ensures Extends(s, u)
  {
  }

  /** Once marked for deletion, an object keeps its mark and its node through every later version. */
  lemma PlacementIsFrozen(states: seq<Sys>, steps: seq<Step>, i: nat, j: nat, m: nat, k: nat)
    requires ValidRun(states, steps) && i <= j < |states|
    requires m < |states[i].versions| && m <= k < |states[j].versions|
    requires states[i].versions[m].deleting
    ensures states[j].versions[k].deleting && states[j].versions[k].node == states[i].versions[m].node
  {
    RunExtends(states, steps, i, j);
    RunKeepsInv(states, steps, j);
    assert Follows(states[j].versions[m], states[j].versions[k]);
  }

  /** Never placed: not before, not after, on no node. */
  lemma NeverPlacedNeverExported(states: seq<Sys>, steps: seq<Step>, i: nat, j: nat, n: Node)
    requires ValidRun(states, steps) && i < |states| && j < |states|
    requires states[i].release.NeverPlaced? && n in states[j].agents
    ensures !states[j].agents[n].exports
  {
    RunKeepsInv(states, steps, i);
    RunKeepsInv(states, steps, j);
    var s, t := states[i], states[j];
    if i <= j {
      RunExtends(states, steps, i, j);
    } else {
      RunExtends(states, steps, j, i);
    }
    assert t.versions <= s.versions;
    assert AgentInv(t, n);
    var a := t.agents[n].acted;
    if 0 <= a < |t.versions| {
      assert s.versions[a] == t.versions[a];
      assert Follows(s.versions[a], Last(s));
    }
  }

  /** Torn down after the mark: the node does not export now and in no later state. */
  lemma ConfirmedStaysDown(states: seq<Sys>, steps: seq<Step>, i: nat, j: nat)
    requires ValidRun(states, steps) && i <= j < |states|
    requires states[i].release.Confirmed?
    ensures Shape(states[i]) && var n := Last(states[i]).node;
      && n in states[i].agents && ToreDown(states[i], n)
      && n in states[j].agents && !states[j].agents[n].exports
  {
    RunKeepsInv(states, steps, i);
    RunKeepsInv(states, steps, j);
    RunExtends(states, steps, i, j);
    var s, t := states[i], states[j];
    var n := Last(s).node;
    assert ToreDown(s, n);
    assert AgentInv(t, n);
    var a, b := s.agents[n].acted, t.agents[n].acted;
    if a <= b < |t.versions| {
      assert Follows(t.versions[a], t.versions[b]);
    }
  }

  /** The pass that stands at state i checked its node at step k, after the mark, and found it gone or unready. */
  ghost predicate FoundDown(states: seq<Sys>, steps: seq<Step>, k: nat, i: nat, n: Node)
    requires |states| == |steps| + 1
  {
    && k < i < |states| && steps[k].OpCheck? && n in states[k].down
    && |states[k].versions| > 0 && Last(states[k]).deleting && Last(states[k]).node == n
    && forall x :: k <= x < i ==> !steps[x].OpRead?
  }

  /** A verdict that the node is down is fresh from this step, or carried over within the pass. */
  lemma CheckStep(s: Sys, step: Step)
    requires Inv(s) && Enabled(s, step) && Next(s, step).operator.Checked? && Next(s, step).operator.down
    ensures var n := s.versions[Next(s, step).operator.base].node;
      || (step.OpCheck? && n in s.down && Last(s).deleting && Last(s).node == n)
      || (s.operator == Next(s, step).operator && !step.OpRead?)
  {
    if step.OpCheck? {
      assert Follows(s.versions[s.operator.base], Last(s));
    }
  }

  lemma {:induction false} CheckedInThisPass(states: seq<Sys>, steps: seq<Step>, i: nat) returns (k: nat)
    requires ValidRun(states, steps) && i < |states| && states[i].operator.Checked? && states[i].operator.down
    ensures states[i].operator.base < |states[i].versions|
    ensures FoundDown(states, steps, k, i, states[i].versions[states[i].operator.base].node)
  {
    if i > 0 {
      var s, t := states[i - 1], states[i];
      RunKeepsInv(states, steps, i - 1);
      RunStepExtends(states, steps, i - 1);
      assert Moves(states, steps, i - 1);
      CheckStep(s, steps[i - 1]);
      assert t.versions[t.operator.base] == s.versions[t.operator.base];
      if steps[i - 1].OpCheck? {
        k := i - 1;
      } else {
        k := CheckedInThisPass(states, steps, i - 1);
      }
    }
  }

  /** The release came at step r, from a pass that had found the node down. */
  ghost predicate ReleasedDown(states: seq<Sys>, steps: seq<Step>, k: nat, r: nat, n: Node)
    requires |states| == |steps| + 1
  {
    r < |steps| && steps[r].OpRelease? && FoundDown(states, steps, k, r, n)
  }

  lemma {:induction false} DownReleaseWasChecked(states: seq<Sys>, steps: seq<Step>, i: nat) returns (k: nat, r: nat)
    requires ValidRun(states, steps) && i < |states| && states[i].release.NodeDown?
    ensures Shape(states[i]) && r < i && ReleasedDown(states, steps, k, r, Last(states[i]).node)
  {
    RunKeepsInv(states, steps, i);
    if i > 0 {
      RunKeepsInv(states, steps, i - 1);
      RunStepExtends(states, steps, i - 1);
      assert Moves(states, steps, i - 1);
      if states[i - 1].release.NodeDown? {
        k, r := DownReleaseWasChecked(states, steps, i - 1);
      } else {
        r := i - 1;
        k := CheckedInThisPass(states, steps, r);
      }
    }
  }

  /**
   When the operator lets a deleted object go: it was never placed and no node
   ever exported it, or the node holding it at the mark tore it down afterwards
   and stays down, or the releasing pass itself, after the mark, checked that
   node and found it gone or unready.
   */
  lemma ReleaseIsSafe(states: seq<Sys>, steps: seq<Step>, i: nat)
    requires ValidRun(states, steps) && i < |states| && !states[i].release.Held?
    ensures Shape(states[i]) && Last(states[i]).deleting && states[i].gone
    ensures var n := Last(states[i]).node;
      || (n == "" && forall j, x :: 0 <= j < |states| && x in states[j].agents ==> !states[j].agents[x].exports)
      || (n in states[i].agents && ToreDown(states[i], n) &&
          forall j :: i <= j < |states| ==> n in states[j].agents && !states[j].agents[n].exports)
      || (exists k: nat, r: nat :: r < i && ReleasedDown(states, steps, k, r, n))
  {
    RunKeepsInv(states, steps, i);
    var s := states[i];
    match s.release {
      case NeverPlaced =>
        forall j, x | 0 <= j < |states| && x in states[j].agents
          ensures !states[j].agents[x].exports
        {
          NeverPlacedNeverExported(states, steps, i, j, x);
        }
      case Confirmed =>
        ConfirmedStaysDown(states, steps, i, i);
        forall j | i <= j < |states|
          ensures Last(s).node in states[j].agents && !states[j].agents[Last(s).node].exports
        {
          ConfirmedStaysDown(states, steps, i, j);
        }
      case NodeDown =>
        var k, r := DownReleaseWasChecked(states, steps, i);
    }
  }
}
