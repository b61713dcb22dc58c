/**
 The virtual IP of one target and the record file that outlives its spec
 (internal/agent/lio.go). Each host command is one step of a machine that may
 crash between any two of them; a restart begins again from the host alone.
 */
module VipRecord {
  import opened Wrappers

  /** An address put up for this target on one interface. */
  datatype Held = Held(dev: string, vip: string)

  datatype Host = Host(addrs: set<Held>, record: Option<string>)

  function Holders(h: Host, vip: string): set<string> {
    set p | p in h.addrs && p.vip == vip :: p.dev
  }

  /** Every address held for the target is the recorded one. */
  ghost predicate Named(h: Host) { forall p :: p in h.addrs ==> h.record == Some(p.vip) }

  // ---- one uninterrupted call -------------------------------------------------------------------

  function Claimed(h: Host, vip: string, dev: string, recorded: bool): Host {
    Host(h.addrs + {Held(dev, vip)}, if recorded then Some(vip) else h.record)
  }

  function Dropped(h: Host, vip: string, failing: set<string>): Host {
    h.(addrs := set p | p in h.addrs && (p.vip != vip || p.dev in failing))
  }

  function Released(h: Host, failing: set<string>): Host {
    if h.record.None? then h else Dropped(h, h.record.value, failing).(record := None)
  }

  class VipManager {
    var state: Host

    constructor (h: Host)
      ensures state == h
    {
      state := h;
    }

    /** A record that cannot be written is only logged; an address that cannot be placed surfaces. */
    method EnsureVip(vip: string, route: Option<string>, recorded: bool, placed: bool) returns (ok: bool)
      modifies this
      ensures ok <==> route.Some? && placed
      ensures ok ==> state == Claimed(old(state), vip, route.value, recorded)
      ensures !ok ==> state == if route.Some? && recorded then old(state).(record := Some(vip)) else old(state)
    {
      if route.None? {
        return false;
      }
      if recorded {
        state := state.(record := Some(vip));
      }
      if !placed {
        return false;
      }
      state := state.(addrs := state.addrs + {Held(route.value, vip)});
      return true;
    }

    /** Deletes the address interface by interface; a failing delete is only logged. */
    method DropVip(vip: string, failing: set<string>)
      modifies this
      ensures state == Dropped(old(state), vip, failing)
    {
      var todo := Holders(state, vip);
      while todo != {}
        invariant todo <= Holders(old(state), vip)
        invariant state == old(state).(addrs := state.addrs) && state.addrs <= old(state).addrs
        invariant forall p :: p in old(state).addrs ==> (p in state.addrs <==>
          p.vip != vip || p.dev in todo || p.dev in failing)
        decreases |todo|
      {
        var dev :| dev in todo;
        todo := todo - {dev};
        if dev !in failing {
          state := state.(addrs := state.addrs - {Held(dev, vip)});
        }
      }
      assert state.addrs == Dropped(old(state), vip, failing).addrs;
    }

    method ReleaseVip(failing: set<string>)
      modifies this
      ensures state == Released(old(state), failing)
    {
      if state.record.None? {
        return;
      }
      DropVip(state.record.value, failing);
      state := state.(record := None);
    }
  }

  /** A claim keeps every held address named exactly when nothing else was held, or the record already said so. */
  lemma ClaimExactly(h: Host, vip: string, dev: string, recorded: bool)
    requires Named(h)
    ensures Named(Claimed(h, vip, dev, recorded)) <==>
      if recorded then forall p :: p in h.addrs ==> p.vip == vip else h.record == Some(vip)
  {
    var c := Claimed(h, vip, dev, recorded);
    assert Held(dev, vip) in c.addrs;
    assert forall p :: p in h.addrs ==> p in c.addrs;
  }

  /** Switching a held address to another one forgets the first: its release no longer reaches it. */
  lemma SwitchForgets(h: Host, p: Held, vip: string, dev: string)
    requires Named(h) && p in h.addrs && p.vip != vip
    ensures var after := Released(Claimed(h, vip, dev, true), {}); p in after.addrs && after.record.None?
  {
  }

  /** A release leaves nothing behind exactly when no interface holding the address refuses to give it up. */
  lemma ReleaseExactly(h: Host, failing: set<string>)
    requires Named(h)
    ensures Released(h, failing).addrs == {} <==> (h.record.Some? ==> Holders(h, h.record.value) !! failing)
    ensures Released(h, failing).record.None?
    ensures Named(Released(h, failing)) <==> Released(h, failing).addrs == {}
  {
    var r := Released(h, failing);
    if h.record.Some? {
      if p :| p in r.addrs {
        assert p.dev in Holders(h, h.record.value) && p.dev in failing;
      }
      if dev :| dev in Holders(h, h.record.value) && dev in failing {
        var p :| p in h.addrs && p.vip == h.record.value && p.dev == dev;
        assert p in r.addrs;
      }
    }
  }

  // ---- step by step, with crashes ------------------------------------------------------------------

  datatype Cmd =
    | WriteRecord(vip: string)
    | AddAddr(vip: string, dev: string)
    | DropAll(vip: string)                // list the holders
    | Del(vip: string, dev: string)       // one of the listed interfaces
    | Release                             // read the record
    | RemoveRecord

  /** `code` is what is left of the call in progress; `clearing` says the call is one that removes the target. */
  datatype Node = Node(host: Host, code: seq<Cmd>, clearing: bool)

  datatype Call =
    | Ensure(vip: string, dev: string)
    | Teardown(vip: string, exported: bool)
    | Remove

  datatype Step =
    | Start(call: Call)
    | Exec(order: seq<string>)   // the next command; `order` is how the host lists the holders
    | Crash                      // also a command whose failure stops the call
    | Tolerate                   // the next command fails and is only logged
    | Vanish(gone: set<Held>)    // a reboot or an operator takes addresses away

  function CodeOf(call: Call): seq<Cmd> {
    match call
    case Ensure(vip, dev) => if vip == "" then [] else [WriteRecord(vip), AddAddr(vip, dev)]
    case Teardown(vip, exported) =>
      (if exported then [Release] else []) + (if vip == "" then [] else [DropAll(vip)]) + [Release]
    case Remove => [Release]
  }

  function Dels(vip: string, devs: seq<string>, rest: seq<Cmd>): seq<Cmd> {
    if devs == [] then rest else [Del(vip, devs[0])] + Dels(vip, devs[1..], rest)
  }

  ghost predicate Lists(devs: seq<string>, all: set<string>) {
    forall d :: d in devs <==> d in all
  }

  ghost predicate Enabled(n: Node, step: Step) {
    match step
    case Start(_) => n.code == []
    case Exec(order) => n.code != [] && (n.code[0].DropAll? ==> Lists(order, Holders(n.host, n.code[0].vip)))
    case Crash => true
    case Tolerate => n.code != [] && !n.code[0].AddAddr?
    case Vanish(_) => true
  }

  function Next(n: Node, step: Step): Node
    requires step.Exec? || step.Tolerate? ==> n.code != []
  {
    match step
    case Start(call) => n.(code := CodeOf(call), clearing := !call.Ensure?)
    case Crash => n.(code := [], clearing := false)
    case Tolerate => n.(code := n.code[1..])
    case Vanish(gone) => n.(host := n.host.(addrs := n.host.addrs - gone))
    case Exec(order) =>
      var rest, h := n.code[1..], n.host;
      match n.code[0]
      case WriteRecord(vip) => n.(code := rest, host := h.(record := Some(vip)))
      case AddAddr(vip, dev) => n.(code := rest, host := h.(addrs := h.addrs + {Held(dev, vip)}))
      case DropAll(vip) => n.(code := Dels(vip, order, rest))
      case Del(vip, dev) => n.(code := rest, host := h.(addrs := h.addrs - {Held(dev, vip)}))
      case Release => n.(code := if h.record.None? then rest else [DropAll(h.record.value), RemoveRecord] + rest)
      case RemoveRecord => n.(code := rest, host := h.(record := None))
  }

  /** The spec names this address or none, over the target's whole life. */
  predicate UsesOnly(vip: string, step: Step) {
    step.Start? && !step.call.Remove? ==> step.call.vip == vip || step.call.vip == ""
  }

  /**
   What is left to execute is safe from a host whose record is set or not and
   whose holders are among `devs`: no step leaves the address held without its
   record, and a clearing call ends with neither.
   */
  predicate Safe(code: seq<Cmd>, vip: string, recorded: bool, devs: set<string>, clearing: bool) {
    (devs != {} ==> recorded) &&
    if code == [] then clearing ==> !recorded && devs == {}
    else
      var rest := code[1..];
      match code[0]
      case WriteRecord(v) => v == vip && Safe(rest, vip, true, devs, clearing)
      case AddAddr(v, d) => v == vip && recorded && Safe(rest, vip, true, devs + {d}, clearing)
      case DropAll(v) => v == vip && Safe(rest, vip, recorded, {}, clearing)
      case Del(v, d) => v == vip && Safe(rest, vip, recorded, devs - {d}, clearing)
      case Release => Safe(rest, vip, false, {}, clearing)
      case RemoveRecord => devs == {} && Safe(rest, vip, false, {}, clearing)
  }

  /** A failure that is only logged here leaves the rest of the call on course. */
  ghost predicate Harmless(n: Node, vip: string)
    requires n.code != []
  {
    Safe(n.code[1..], vip, n.host.record.Some?, Holders(n.host, vip), n.clearing)
  }

  ghost predicate Inv(n: Node, vip: string) {
    (n.host.record.Some? ==> n.host.record.value == vip) &&
    (forall p :: p in n.host.addrs ==> p.vip == vip) &&
    Safe(n.code, vip, n.host.record.Some?, Holders(n.host, vip), n.clearing)
  }

  lemma {:induction false} SafeShrinks(
      code: seq<Cmd>, vip: string, recorded: bool, devs: set<string>, fewer: set<string>, clearing: bool)
    requires Safe(code, vip, recorded, devs, clearing) && fewer <= devs
    ensures Safe(code, vip, recorded, fewer, clearing)
    decreases code
  {
    if code != [] {
      match code[0]
      case WriteRecord(_) => SafeShrinks(code[1..], vip, true, devs, fewer, clearing);
      case AddAddr(_, d) => SafeShrinks(code[1..], vip, true, devs + {d}, fewer + {d}, clearing);
      case Del(_, d) => SafeShrinks(code[1..], vip, recorded, devs - {d}, fewer - {d}, clearing);
      case DropAll(_) =>
      case Release =>
      case RemoveRecord =>
    }
  }

  /** Deleting interface by interface is as safe as the whole drop. */
  lemma {:induction false} DelsAreSafe(
      vip: string, order: seq<string>, rest: seq<Cmd>, recorded: bool, devs: set<string>, clearing: bool)
    requires (forall d :: d in devs ==> d in order) && (devs != {} ==> recorded)
    requires Safe(rest, vip, recorded, {}, clearing)
    ensures Safe(Dels(vip, order, rest), vip, recorded, devs, clearing)
    decreases |order|
  {
    if order == [] {
      assert devs == {};
    } else {
      DelsAreSafe(vip, order[1..], rest, recorded, devs - {order[0]}, clearing);
      assert Dels(vip, order, rest)[1..] == Dels(vip, order[1..], rest);
    }
  }

  lemma StartIsSafe(call: Call, vip: string, recorded: bool, devs: set<string>)
    requires (devs != {} ==> recorded) && UsesOnly(vip, Start(call))
    ensures Safe(CodeOf(call), vip, recorded, devs, !call.Ensure?)
  {
    match call
    case Ensure(v, d) =>
      if v != "" {
        assert Safe([], vip, true, devs + {d}, false);
        assert CodeOf(call)[1..] == [AddAddr(v, d)] && CodeOf(call)[1..][1..] == [];
      }
    case Remove =>
      ReleaseClears(vip, recorded, devs);
    case Teardown(v, exported) =>
      ReleaseClears(vip, recorded, {});
      ReleaseClears(vip, recorded, devs);
      ReleaseClears(vip, false, {});
      var tail := (if v == "" then [] else [DropAll(v)]) + [Release];
      assert v != "" ==> tail[0] == DropAll(v) && tail[1..] == [Release];
      assert v == "" ==> tail == [Release];
      assert exported ==> CodeOf(call)[0] == Release && CodeOf(call)[1..] == tail;
      assert !exported ==> CodeOf(call) == tail;
  }

  lemma ReleaseClears(vip: string, recorded: bool, devs: set<string>)
    requires devs != {} ==> recorded
    ensures Safe([Release], vip, recorded, devs, true)
  {
    assert [Release][1..] == [];
  }

  lemma ExecKeepsInv(n: Node, vip: string, order: seq<string>)
    requires Inv(n, vip) && Enabled(n, Exec(order))
    ensures Inv(Next(n, Exec(order)), vip)
  {
    var rest, devs, m := n.code[1..], Holders(n.host, vip), Next(n, Exec(order));
    match n.code[0]
    case WriteRecord(_) =>
      assert Holders(m.host, vip) == devs;
    case AddAddr(_, d) =>
      assert Holders(m.host, vip) == devs + {d};
    case DropAll(_) =>
      DelsAreSafe(vip, order, rest, n.host.record.Some?, devs, n.clearing);
    case Del(_, d) =>
      HoldersAfterDel(n.host, vip, d);
    case RemoveRecord =>
      assert Holders(m.host, vip) == devs;
    case Release =>
      if n.host.record.Some? {
        var code := [DropAll(vip), RemoveRecord] + rest;
        assert m.code == code && code[0] == DropAll(vip) && code[1..] == [RemoveRecord] + rest;
        assert code[1..][0] == RemoveRecord && code[1..][1..] == rest;
        SafeReleases(code, rest, vip, n.clearing, devs);
      } else {
        assert devs == {};
      }
  }

  lemma SafeReleases(code: seq<Cmd>, rest: seq<Cmd>, vip: string, clearing: bool, devs: set<string>)
    requires Safe(rest, vip, false, {}, clearing)
    requires |code| >= 2 && code[0] == DropAll(vip) && code[1..][0] == RemoveRecord && code[1..][1..] == rest
    ensures Safe(code, vip, true, devs, clearing)
  {
    assert Safe(code[1..], vip, true, {}, clearing);
  }

  lemma HoldersAfterDel(h: Host, vip: string, d: string)
    ensures Holders(h.(addrs := h.addrs - {Held(d, vip)}), vip) == Holders(h, vip) - {d}
  {
    var after := h.(addrs := h.addrs - {Held(d, vip)});
    forall x
      ensures x in Holders(after, vip) <==> x in Holders(h, vip) && x != d
    {
      if x in Holders(h, vip) && x != d {
        assert Held(x, vip) in after.addrs;
      }
    }
  }

  lemma StepKeepsInv(n: Node, vip: string, step: Step)
    requires Inv(n, vip) && Enabled(n, step) && UsesOnly(vip, step) && (step.Tolerate? ==> Harmless(n, vip))
    ensures Inv(Next(n, step), vip)
  {
    var m := Next(n, step);
    match step
    case Exec(order) => ExecKeepsInv(n, vip, order);
    case Start(call) => StartIsSafe(call, vip, n.host.record.Some?, Holders(n.host, vip));
    case Crash =>
    case Tolerate =>
    case Vanish(gone) =>
      assert Holders(m.host, vip) <= Holders(n.host, vip);
      SafeShrinks(n.code, vip, n.host.record.Some?, Holders(n.host, vip), Holders(m.host, vip), n.clearing);
  }

  ghost predicate Moves(nodes: seq<Node>, steps: seq<Step>, vip: string, i: nat)
    requires |nodes| == |steps| + 1 && i < |steps|
  {
    Enabled(nodes[i], steps[i]) && UsesOnly(vip, steps[i]) && nodes[i + 1] == Next(nodes[i], steps[i])
  }

  /** A run on a node that starts with neither an address nor a record of this target. */
  ghost predicate ValidRun(nodes: seq<Node>, steps: seq<Step>, vip: string) {
    |nodes| == |steps| + 1 && nodes[0] == Node(Host({}, None), [], false) &&
    forall i :: 0 <= i < |steps| ==> Moves(nodes, steps, vip, i)
  }

  /** No tolerated failure throws the call in progress off course. */
  ghost predicate Benign(nodes: seq<Node>, steps: seq<Step>, vip: string)
    requires |nodes| == |steps| + 1
  {
    forall i :: 0 <= i < |steps| && steps[i].Tolerate? && nodes[i].code != [] ==> Harmless(nodes[i], vip)
  }

  lemma {:induction false} RunKeepsInv(nodes: seq<Node>, steps: seq<Step>, vip: string, i: nat)
    requires ValidRun(nodes, steps, vip) && Benign(nodes, steps, vip) && i < |nodes|
    ensures Inv(nodes[i], vip)
  {
    if i > 0 {
      RunKeepsInv(nodes, steps, vip, i - 1);
      assert Moves(nodes, steps, vip, i - 1);
      StepKeepsInv(nodes[i - 1], vip, steps[i - 1]);
    }
  }

  /** Wherever a crash falls, a held address is the recorded one. */
  lemma HeldIsRecorded(nodes: seq<Node>, steps: seq<Step>, vip: string, i: nat)
    requires ValidRun(nodes, steps, vip) && Benign(nodes, steps, vip) && i < |nodes|
    ensures Named(nodes[i].host)
  {
    RunKeepsInv(nodes, steps, vip, i);
    forall p | p in nodes[i].host.addrs
      ensures nodes[i].host.record == Some(p.vip)
    {
      assert p.dev in Holders(nodes[i].host, vip);
    }
  }

  /** A removal or teardown that reached its end leaves the address on no interface and no record, object or not. */
  lemma RemovalClears(nodes: seq<Node>, steps: seq<Step>, vip: string, i: nat)
    requires ValidRun(nodes, steps, vip) && Benign(nodes, steps, vip) && i < |nodes| && nodes[i].clearing
    requires nodes[i].code == []
    ensures nodes[i].host == Host({}, None)
  {
    RunKeepsInv(nodes, steps, vip, i);
    assert forall p :: p in nodes[i].host.addrs ==> p.dev in Holders(nodes[i].host, vip);
  }

  // ---- which tolerated failures do harm --------------------------------------------------------------

  function Weight(code: seq<Cmd>): nat {
    if code == [] then 0
    else Weight(code[1..]) + (match code[0] case Release => 2 case DropAll(_) => 1 case _ => 0)
  }

  lemma {:induction false} WeightOfDels(vip: string, order: seq<string>, rest: seq<Cmd>)
    ensures Weight(Dels(vip, order, rest)) == Weight(rest)
    decreases |order|
  {
    if order != [] {
      assert Dels(vip, order, rest)[1..] == Dels(vip, order[1..], rest);
      WeightOfDels(vip, order[1..], rest);
    }
  }

  /** Each command brings the call closer to its end, so an undisturbed removal finishes. */
  lemma ExecShortens(n: Node, order: seq<string>)
    requires Enabled(n, Exec(order))
    ensures var m := Next(n, Exec(order));
      Weight(m.code) < Weight(n.code) || (Weight(m.code) == Weight(n.code) && |m.code| < |n.code|)
  {
    var rest := n.code[1..];
    if n.code[0].DropAll? {
      WeightOfDels(n.code[0].vip, order, rest);
    } else if n.code[0].Release? && n.host.record.Some? {
      var code := [DropAll(n.host.record.value), RemoveRecord] + rest;
      assert code[1..] == [RemoveRecord] + rest && code[1..][1..] == rest;
    }
  }

  lemma {:induction false} Listing(devs: set<string>) returns (order: seq<string>)
    ensures Lists(order, devs)
  {
    if devs == {} {
      return [];
    }
    var d :| d in devs;
    order := Listing(devs - {d});
    order := [d] + order;
  }

  lemma {:induction false} SafeAfterDels(
      vip: string, order: seq<string>, rest: seq<Cmd>, recorded: bool, devs: set<string>, clearing: bool)
    requires Safe(Dels(vip, order, rest), vip, recorded, devs, clearing)
    ensures Safe(rest, vip, recorded, devs - (set d | d in order), clearing)
    decreases |order|
  {
    if order == [] {
      assert devs - (set d | d in order) == devs;
    } else {
      assert Dels(vip, order, rest)[1..] == Dels(vip, order[1..], rest);
      SafeAfterDels(vip, order[1..], rest, recorded, devs - {order[0]}, clearing);
      assert order == [order[0]] + order[1..];
      assert devs - (set d | d in order) == (devs - {order[0]}) - (set d | d in order[1..]);
    }
  }

  ghost predicate OnlyVip(code: seq<Cmd>, vip: string) {
    forall i :: 0 <= i < |code| && (code[i].WriteRecord? || code[i].AddAddr? || code[i].DropAll? || code[i].Del?) ==>
      code[i].vip == vip
  }

  /** The host holds nothing but this address, under its record, and the call in progress is about nothing else. */
  ghost predicate Sane(n: Node, vip: string) {
    && (n.host.record.Some? ==> n.host.record.value == vip) && (forall p :: p in n.host.addrs ==> p.vip == vip)
    && Named(n.host) && OnlyVip(n.code, vip)
  }

  /** The address is held without its record, or a removal has ended and left something. */
  ghost predicate Broken(n: Node) {
    !Named(n.host) || (n.code == [] && n.clearing && n.host != Host({}, None))
  }

  lemma {:induction false} DelsOnlyVip(vip: string, order: seq<string>, rest: seq<Cmd>)
    requires OnlyVip(rest, vip)
    ensures OnlyVip(Dels(vip, order, rest), vip)
    decreases |order|
  {
    if order != [] {
      DelsOnlyVip(vip, order[1..], rest);
    }
  }

  lemma {:induction false} SafeOnlyVip(code: seq<Cmd>, vip: string, recorded: bool, devs: set<string>, clearing: bool)
    requires Safe(code, vip, recorded, devs, clearing)
    ensures OnlyVip(code, vip)
    decreases code
  {
    if code != [] {
      match code[0]
      case WriteRecord(_) => SafeOnlyVip(code[1..], vip, true, devs, clearing);
      case AddAddr(_, d) => SafeOnlyVip(code[1..], vip, true, devs + {d}, clearing);
      case DropAll(_) => SafeOnlyVip(code[1..], vip, recorded, {}, clearing);
      case Del(_, d) => SafeOnlyVip(code[1..], vip, recorded, devs - {d}, clearing);
      case Release => SafeOnlyVip(code[1..], vip, false, {}, clearing);
      case RemoveRecord => SafeOnlyVip(code[1..], vip, false, {}, clearing);
      assert forall i :: 1 <= i < |code| ==> code[i] == code[1..][i - 1];
    }
  }

  lemma HoldersOfNone(h: Host, vip: string)
    requires forall p :: p in h.addrs ==> p.vip == vip
    ensures Holders(h, vip) == {} <==> h.addrs == {}
  {
    assert forall p :: p in h.addrs ==> p.dev in Holders(h, vip);
  }

  /** What is off course before a command is off course after it, or broken already. */
  lemma UnsafeStays(n: Node, vip: string, order: seq<string>)
    requires Sane(n, vip) && Enabled(n, Exec(order))
    requires !Safe(n.code, vip, n.host.record.Some?, Holders(n.host, vip), n.clearing)
    ensures var m := Next(n, Exec(order));
      Broken(m) || (Sane(m, vip) && !Safe(m.code, vip, m.host.record.Some?, Holders(m.host, vip), m.clearing))
  {
    var m, rest, devs := Next(n, Exec(order)), n.code[1..], Holders(n.host, vip);
    HoldersOfNone(n.host, vip);
    match n.code[0]
    case WriteRecord(_) =>
      assert Holders(m.host, vip) == devs;
    case AddAddr(_, d) =>
      assert Held(d, vip) in m.host.addrs;
      assert Holders(m.host, vip) == devs + {d};
    case DropAll(_) =>
      DelsOnlyVip(vip, order, rest);
      assert devs - (set d | d in order) == {};
      if Safe(m.code, vip, n.host.record.Some?, devs, n.clearing) {
        SafeAfterDels(vip, order, rest, n.host.record.Some?, devs, n.clearing);
      }
    case Del(_, d) =>
      HoldersAfterDel(n.host, vip, d);
    case RemoveRecord =>
      assert Holders(m.host, vip) == devs;
    case Release =>
      if n.host.record.Some? {
        var code := [DropAll(vip), RemoveRecord] + rest;
        assert m.code == code && code[1..] == [RemoveRecord] + rest && code[1..][1..] == rest;
      }
  }

  /** An undisturbed continuation from n to a broken state. */
  ghost predicate Breaks(n: Node, nodes: seq<Node>, orders: seq<seq<string>>) {
    |nodes| == |orders| + 1 && nodes[0] == n && Broken(nodes[|orders|]) && Execs(nodes, orders)
  }

  ghost predicate Execs(nodes: seq<Node>, orders: seq<seq<string>>)
    requires |nodes| == |orders| + 1
  {
    forall i :: 0 <= i < |orders| ==> ExecAt(nodes, orders, i)
  }

  ghost predicate ExecAt(nodes: seq<Node>, orders: seq<seq<string>>, i: nat)
    requires |nodes| == |orders| + 1 && i < |orders|
  {
    Enabled(nodes[i], Exec(orders[i])) && nodes[i + 1] == Next(nodes[i], Exec(orders[i]))
  }

  lemma {:induction false} UnsafeBreaks(n: Node, vip: string) returns (nodes: seq<Node>, orders: seq<seq<string>>)
    requires Sane(n, vip) && !Safe(n.code, vip, n.host.record.Some?, Holders(n.host, vip), n.clearing)
    ensures Breaks(n, nodes, orders)
    decreases Weight(n.code), |n.code|
  {
    HoldersOfNone(n.host, vip);
    if n.code == [] {
      return [n], [];
    }
    var order := Listing(Holders(n.host, vip));
    var m := Next(n, Exec(order));
    UnsafeStays(n, vip, order);
    if Broken(m) {
      return [n, m], [order];
    }
    ExecShortens(n, order);
    nodes, orders := UnsafeBreaks(m, vip);
    Prepend(n, order, nodes, orders);
    nodes, orders := [n] + nodes, [order] + orders;
  }

  lemma Prepend(n: Node, order: seq<string>, nodes: seq<Node>, orders: seq<seq<string>>)
    requires Enabled(n, Exec(order)) && Breaks(Next(n, Exec(order)), nodes, orders)
    ensures Breaks(n, [n] + nodes, [order] + orders)
  {
    var all, listed := [n] + nodes, [order] + orders;
    forall i | 0 <= i < |listed|
      ensures ExecAt(all, listed, i)
    {
      if i > 0 {
        assert ExecAt(nodes, orders, i - 1);
      }
    }
  }

  lemma {:induction false} ExecsKeepInv(nodes: seq<Node>, orders: seq<seq<string>>, vip: string, i: nat)
    requires |nodes| == |orders| + 1 && Execs(nodes, orders) && Inv(nodes[0], vip) && i < |nodes|
    ensures Inv(nodes[i], vip)
  {
    if i > 0 {
      ExecsKeepInv(nodes, orders, vip, i - 1);
      assert ExecAt(nodes, orders, i - 1);
      ExecKeepsInv(nodes[i - 1], vip, orders[i - 1]);
    }
  }

  lemma InvIsUnbroken(n: Node, vip: string)
    requires Inv(n, vip)
    ensures !Broken(n) && Named(n.host)
  {
    HoldersOfNone(n.host, vip);
  }

  /**
   At every point of every run: a failure that is only logged is harmless exactly if the rest of the call, left
   undisturbed, never holds the address without its record and does not end a removal with something left.
   */
  lemma ToleratedExactly(n: Node, vip: string)
    requires Inv(n, vip) && Enabled(n, Tolerate)
    ensures Harmless(n, vip) <==> !exists nodes, orders :: Breaks(Next(n, Tolerate), nodes, orders)
  {
    var m := Next(n, Tolerate);
    InvIsUnbroken(n, vip);
    SafeOnlyVip(n.code, vip, n.host.record.Some?, Holders(n.host, vip), n.clearing);
    if Harmless(n, vip) {
      forall nodes, orders | |nodes| == |orders| + 1 && Execs(nodes, orders) && nodes[0] == m
        ensures !Broken(nodes[|orders|])
      {
        ExecsKeepInv(nodes, orders, vip, |orders|);
        InvIsUnbroken(nodes[|orders|], vip);
      }
    } else {
      var nodes, orders := UnsafeBreaks(m, vip);
    }
  }

  /** In particular: a record that cannot be written does no harm exactly if it is already there. */
  lemma FailedWriteExactly(n: Node, vip: string, dev: string)
    requires Inv(n, vip) && n.code == [WriteRecord(vip), AddAddr(vip, dev)] && !n.clearing
    ensures Harmless(n, vip) <==> n.host.record.Some?
  {
    assert n.code[1..] == [AddAddr(vip, dev)] && n.code[1..][1..] == [];
  }

  /** And an address that an interface keeps does harm exactly if the record goes next while it is held. */
  lemma FailedDelExactly(n: Node, vip: string, d: string, order: seq<string>, rest: seq<Cmd>)
    requires Inv(n, vip) && n.code == [Del(vip, d)] + Dels(vip, order, [RemoveRecord] + rest)
    requires n.host.record.Some? && d !in order
    ensures Harmless(n, vip) <==> d !in Holders(n.host, vip)
  {
    var devs, tail := Holders(n.host, vip), [RemoveRecord] + rest;
    assert n.code[1..] == Dels(vip, order, tail) && tail[1..] == rest;
    if Harmless(n, vip) {
      SafeAfterDels(vip, order, tail, true, devs, n.clearing);
      assert tail[0] == RemoveRecord;
      assert d in devs ==> d in devs - (set x | x in order);
    }
    if d !in devs {
      assert devs - {d} == devs;
    }
  }

  // ---- undisturbed calls ------------------------------------------------------------------------------

  ghost predicate Goes(n: Node, nodes: seq<Node>, orders: seq<seq<string>>, m: Node) {
    |nodes| == |orders| + 1 && nodes[0] == n && nodes[|orders|] == m && Execs(nodes, orders)
  }

  lemma First(n: Node, order: seq<string>, nodes: seq<Node>, orders: seq<seq<string>>, m: Node)
    requires Enabled(n, Exec(order)) && Goes(Next(n, Exec(order)), nodes, orders, m)
    ensures Goes(n, [n] + nodes, [order] + orders, m)
  {
    var all, listed := [n] + nodes, [order] + orders;
    forall i | 0 <= i < |listed|
      ensures ExecAt(all, listed, i)
    {
      if i > 0 {
        assert ExecAt(nodes, orders, i - 1);
      }
    }
  }

  /** A claim left alone puts the record down and the address up. */
  lemma EnsureRuns(h: Host, vip: string, dev: string) returns (nodes: seq<Node>, orders: seq<seq<string>>)
    requires vip != ""
    ensures Goes(Next(Node(h, [], false), Start(Ensure(vip, dev))), nodes, orders,
                 Node(Claimed(h, vip, dev, true), [], false))
    ensures Held(dev, vip) in Claimed(h, vip, dev, true).addrs && Claimed(h, vip, dev, true).record == Some(vip)
  {
    var a := Node(h, [WriteRecord(vip), AddAddr(vip, dev)], false);
    var b := Node(h.(record := Some(vip)), [AddAddr(vip, dev)], false);
    var c := Node(Claimed(h, vip, dev, true), [], false);
    assert a.code[1..] == b.code && b.code[1..] == [];
    assert Next(a, Exec([])) == b && Next(b, Exec([])) == c;
    nodes, orders := [a, b, c], [[], []];
    assert ExecAt(nodes, orders, 0) && ExecAt(nodes, orders, 1);
  }

  lemma {:induction false} Chain(
      n: Node, nodes: seq<Node>, orders: seq<seq<string>>, m: Node,
      later: seq<Node>, listed: seq<seq<string>>, k: Node)
    requires Goes(n, nodes, orders, m) && Goes(m, later, listed, k)
    ensures Goes(n, nodes[..|orders|] + later, orders + listed, k)
    decreases |orders|
  {
    if orders == [] {
      assert nodes[..0] + later == later && orders + listed == listed;
    } else {
      assert ExecAt(nodes, orders, 0);
      forall i | 0 <= i < |orders| - 1
        ensures ExecAt(nodes[1..], orders[1..], i)
      {
        assert ExecAt(nodes, orders, i + 1);
      }
      Chain(nodes[1], nodes[1..], orders[1..], m, later, listed, k);
      First(n, orders[0], nodes[1..][..|orders| - 1] + later, orders[1..] + listed, k);
      assert [n] + (nodes[1..][..|orders| - 1] + later) == nodes[..|orders|] + later;
      assert [orders[0]] + (orders[1..] + listed) == orders + listed;
    }
  }

  ghost function Without(h: Host, vip: string, order: seq<string>): Host {
    h.(addrs := h.addrs - (set d | d in order :: Held(d, vip)))
  }

  lemma {:induction false} DelsRun(h: Host, vip: string, order: seq<string>, rest: seq<Cmd>, clearing: bool)
      returns (nodes: seq<Node>, orders: seq<seq<string>>)
    ensures Goes(Node(h, Dels(vip, order, rest), clearing), nodes, orders, Node(Without(h, vip, order), rest, clearing))
    decreases |order|
  {
    var n := Node(h, Dels(vip, order, rest), clearing);
    if order == [] {
      assert Without(h, vip, order).addrs == h.addrs;
      nodes, orders := [n], [];
    } else {
      var m := Next(n, Exec([]));
      assert n.code[1..] == Dels(vip, order[1..], rest);
      nodes, orders := DelsRun(m.host, vip, order[1..], rest, clearing);
      assert order == [order[0]] + order[1..];
      assert Without(h, vip, order).addrs == Without(m.host, vip, order[1..]).addrs;
      First(n, [], nodes, orders, nodes[|orders|]);
      nodes, orders := [n] + nodes, [[]] + orders;
    }
  }

  /** Listing the holders and deleting from each is the whole drop. */
  lemma DropRuns(
      h: Host, vip: string, rest: seq<Cmd>, clearing: bool)
    returns (nodes: seq<Node>, orders: seq<seq<string>>)
    ensures Goes(Node(h, [DropAll(vip)] + rest, clearing), nodes, orders, Node(Dropped(h, vip, {}), rest, clearing))
  {
    var n := Node(h, [DropAll(vip)] + rest, clearing);
    var order := Listing(Holders(h, vip));
    assert n.code[1..] == rest;
    nodes, orders := DelsRun(h, vip, order, rest, clearing);
    assert Without(h, vip, order).addrs == Dropped(h, vip, {}).addrs by {
      forall p | p in h.addrs && p.vip == vip
        ensures p in set d | d in order :: Held(d, vip)
      {
        assert p.dev in Holders(h, vip) && p == Held(p.dev, vip);
      }
    }
    First(n, order, nodes, orders, nodes[|orders|]);
    nodes, orders := [n] + nodes, [order] + orders;
  }

  lemma ReleaseRuns(h: Host, clearing: bool) returns (nodes: seq<Node>, orders: seq<seq<string>>)
    ensures Goes(Node(h, [Release], clearing), nodes, orders, Node(Released(h, {}), [], clearing))
  {
    var n := Node(h, [Release], clearing);
    assert n.code[1..] == [];
    if h.record.None? {
      nodes, orders := [n, Node(h, [], clearing)], [[]];
      assert ExecAt(nodes, orders, 0);
    } else {
      var r := h.record.value;
      var last := Node(Dropped(h, r, {}), [RemoveRecord], clearing);
      assert [DropAll(r), RemoveRecord] + [] == [DropAll(r)] + [RemoveRecord];
      nodes, orders := DropRuns(h, r, [RemoveRecord], clearing);
      var end := Node(Released(h, {}), [], clearing);
      assert last.code[1..] == [] && Next(last, Exec([])) == end;
      assert ExecAt([last, end], [[]], 0);
      Chain(nodes[0], nodes, orders, last, [last, end], [[]], end);
      nodes, orders := nodes[..|orders|] + [last, end], orders + [[]];
      First(n, [], nodes, orders, end);
      nodes, orders := [n] + nodes, [[]] + orders;
    }
  }

  /** A removal left alone does what an uninterrupted release does. */
  lemma RemoveRuns(h: Host) returns (nodes: seq<Node>, orders: seq<seq<string>>)
    ensures Goes(Next(Node(h, [], false), Start(Remove)), nodes, orders, Node(Released(h, {}), [], true))
  {
    nodes, orders := ReleaseRuns(h, true);
  }

  /** A teardown of a target no longer exported drops the spec's address, recorded or not, and then the recorded one. */
  lemma TeardownRuns(h: Host, vip: string) returns (nodes: seq<Node>, orders: seq<seq<string>>)
    requires vip != ""
    ensures Goes(Next(Node(h, [], false), Start(Teardown(vip, false))), nodes, orders,
                 Node(Released(Dropped(h, vip, {}), {}), [], true))
  {
    var mid, end := Node(Dropped(h, vip, {}), [Release], true), Node(Released(Dropped(h, vip, {}), {}), [], true);
    assert CodeOf(Teardown(vip, false)) == [DropAll(vip)] + [Release];
    nodes, orders := DropRuns(h, vip, [Release], true);
    var later, listed := ReleaseRuns(mid.host, true);
    Chain(nodes[0], nodes, orders, mid, later, listed, end);
    nodes, orders := nodes[..|orders|] + later, orders + listed;
  }
}
