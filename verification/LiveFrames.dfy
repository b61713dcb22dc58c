/**
 The live-frame protocol of internal/stream/hub.go over the event bus and the
 reflector stores, as a state machine whose steps are the atomic actions of the
 goroutines involved: publishers (store a mutation, bump the kind, send the
 wake), ServeHTTP calls (register, send the kick, remove), connection writers,
 and the one hub goroutine, which loads versions and reads stores one at a time.
 */
module LiveFrames {
  import opened EventBus

  type ConnId = nat
  type Frame = string
  type Contents = map<string, string>

  /** Store i publishes kind kindOf[i]; several stores may share a kind. */
  datatype Config = Config(kinds: nat, kindOf: seq<nat>, encode: seq<Contents> -> Frame)

  /** JSON text is never empty, so no frame equals the `last` of a fresh connection. */
  ghost predicate ValidConfig(cfg: Config) {
    && (forall i :: 0 <= i < |cfg.kindOf| ==> cfg.kindOf[i] < cfg.kinds)
    && (forall snap :: cfg.encode(snap) != "")
  }

  datatype Mailbox = Empty | Full(frame: Frame)

  /** `taken` is everything the writer has taken out of the mailbox so far. */
  datatype Conn = Conn(last: Frame, out: Mailbox, taken: seq<Frame>)

  datatype Cursor = Between | Drain(conn: ConnId) | Send(conn: ConnId)

  /** Where Run stands. `first` and `second` are the loads behind the two version sums. */
  datatype Hub =
    | Parked
    | CheckIdle
    | LoadFirst(first: seq<nat>)
    | Build(first: seq<nat>, read: seq<Contents>)
    | Deliver(first: seq<nat>, read: seq<Contents>, todo: set<ConnId>, at: Cursor)
    | LoadSecond(first: seq<nat>, second: seq<nat>)

  /**
   `mutated[k]` counts publishers of kind k between storing and bumping,
   `bumped` those between bumping and waking, `adding` the add calls between
   registering and kicking. `shown` is history only: the contents behind the
   frame last handed to deliver.
   */
  datatype Sys = Sys(
    stores: seq<Contents>, versions: seq<nat>,
    mutated: seq<nat>, bumped: nat, adding: nat,
    wake: bool, kick: bool,
    conns: map<ConnId, Conn>, hub: Hub, shown: seq<Contents>)

  datatype Step =
    | Mutate(store: nat, contents: Contents)
    | Bump(kind: nat)
    | SendWake
    | Attach(conn: ConnId)
    | SendKick
    | Detach(conn: ConnId)
    | Take(conn: ConnId)
    | TakeWake
    | TakeKick
    | Advance
    | Pick(conn: ConnId)

  ghost predicate HubMove(step: Step) {
    step.TakeWake? || step.TakeKick? || step.Advance? || step.Pick?
  }

  ghost predicate Shape(cfg: Config, s: Sys) {
    && |s.stores| == |cfg.kindOf|
    && |s.versions| == cfg.kinds && |s.mutated| == cfg.kinds
  }

  /** The hub mutex is held exactly while it delivers: add and remove wait for it. */
  ghost predicate Enabled(cfg: Config, s: Sys, step: Step)
    requires Shape(cfg, s)
  {
    match step
    case Mutate(i, _) => i < |s.stores|
    case Bump(k) => k < cfg.kinds && s.mutated[k] > 0
    case SendWake => s.bumped > 0
    case Attach(c) => c !in s.conns && !s.hub.Deliver?
    case SendKick => s.adding > 0
    case Detach(c) => c in s.conns && !s.hub.Deliver?
    case Take(c) => c in s.conns && s.conns[c].out.Full?
    case TakeWake => s.hub.Parked? && s.wake
    case TakeKick => s.hub.Parked? && s.kick
    case Advance =>
      match s.hub {
        case Parked => false
        case Deliver(_, _, todo, Between) => todo == {}
        case Deliver(_, _, _, Drain(c)) => c in s.conns
        case Deliver(_, _, _, Send(c)) => c in s.conns && s.conns[c].out.Empty?
        case _ => true
      }
    case Pick(c) => s.hub.Deliver? && s.hub.at.Between? && c in s.hub.todo && c in s.conns
  }

  ghost function Next(cfg: Config, s: Sys, step: Step): Sys
    requires ValidConfig(cfg) && Shape(cfg, s) && Enabled(cfg, s, step)
  {
    match step
    case Mutate(i, contents) =>
      var k := cfg.kindOf[i];
      s.(stores := s.stores[i := contents], mutated := s.mutated[k := s.mutated[k] + 1])
    case Bump(k) =>
      s.(mutated := s.mutated[k := s.mutated[k] - 1],
         versions := s.versions[k := s.versions[k] + 1], bumped := s.bumped + 1)
    case SendWake => s.(bumped := s.bumped - 1, wake := true)
    case Attach(c) => s.(conns := s.conns[c := Conn("", Empty, [])], adding := s.adding + 1)
    case SendKick => s.(adding := s.adding - 1, kick := true)
    case Detach(c) => s.(conns := s.conns - {c})
    case Take(c) =>
      var conn := s.conns[c];
      s.(conns := s.conns[c := Conn(conn.last, Empty, conn.taken + [conn.out.frame])])
    case TakeWake => s.(wake := false, hub := CheckIdle)
    case TakeKick => s.(kick := false, hub := CheckIdle)
    case Advance => HubAdvance(cfg, s)
    case Pick(c) =>
      var d := s.hub;
      if s.conns[c].last == cfg.encode(d.read) then
        s.(hub := d.(todo := d.todo - {c}))
      else
        s.(conns := s.conns[c := s.conns[c].(last := cfg.encode(d.read))],
           hub := d.(todo := d.todo - {c}, at := Drain(c)))
  }

  ghost function HubAdvance(cfg: Config, s: Sys): Sys
    requires Shape(cfg, s) && Enabled(cfg, s, Advance)
  {
    match s.hub
    case CheckIdle => s.(hub := if s.conns == map[] then Parked else LoadFirst([]))
    case LoadFirst(first) =>
      if |first| < cfg.kinds then s.(hub := LoadFirst(first + [s.versions[|first|]]))
      else s.(hub := Build(first, []))
    case Build(first, read) =>
      if |read| < |s.stores| then s.(hub := Build(first, read + [s.stores[|read|]]))
      else s.(hub := Deliver(first, read, s.conns.Keys, Between))
    case Deliver(first, read, todo, at) =>
      (match at
       case Between =>
         s.(hub := LoadSecond(first, []), shown := read)
       case Drain(c) =>
         s.(conns := s.conns[c := s.conns[c].(out := Empty)], hub := s.hub.(at := Send(c)))
       case Send(c) =>
         s.(conns := s.conns[c := s.conns[c].(out := Full(cfg.encode(read)))], hub := s.hub.(at := Between)))
    case LoadSecond(first, second) =>
      if |second| < cfg.kinds then s.(hub := LoadSecond(first, second + [s.versions[|second|]]))
      else s.(hub := if Sum(second) == Sum(first) then Parked else CheckIdle)
  }

  ghost predicate Init(cfg: Config, s: Sys) {
    && Shape(cfg, s) && |s.shown| == |s.stores|
    && s.versions == s.mutated == seq(cfg.kinds, _ => 0)
    && s.bumped == 0 && s.adding == 0 && !s.wake && !s.kick
    && s.conns == map[] && s.hub == Parked
  }

  ghost predicate ValidRun(cfg: Config, states: seq<Sys>, steps: seq<Step>)
    requires ValidConfig(cfg)
  {
    && |states| == |steps| + 1
    && Init(cfg, states[0])
    && Moves(cfg, states, steps)
  }

  ghost predicate Moves(cfg: Config, states: seq<Sys>, steps: seq<Step>)
    requires ValidConfig(cfg) && |states| == |steps| + 1
  {
    forall i :: 0 <= i < |steps| ==> MovesAt(cfg, states, steps, i)
  }

  ghost predicate MovesAt(cfg: Config, states: seq<Sys>, steps: seq<Step>, i: nat)
    requires ValidConfig(cfg) && i < |steps| && |states| == |steps| + 1
  {
    Shape(cfg, states[i]) && Enabled(cfg, states[i], steps[i]) && states[i + 1] == Next(cfg, states[i], steps[i])
  }

  // ---- the invariant -------------------------------------------------------

  ghost predicate EndsIn(frames: seq<Frame>, f: Frame) {
    |frames| > 0 && frames[|frames| - 1] == f
  }

  /** Everything the writer took, then what still sits in the mailbox. */
  ghost function Delivered(conn: Conn): seq<Frame> {
    conn.taken + if conn.out.Full? then [conn.out.frame] else []
  }

  ghost predicate Conflated(conn: Conn) {
    if conn.last == "" then Delivered(conn) == [] else EndsIn(Delivered(conn), conn.last)
  }

  /** A change the hub has not been told about yet still has its wake ahead of it. */
  ghost predicate Announced(s: Sys) {
    s.wake || s.bumped > 0
  }

  ghost predicate NotAhead(loads: seq<nat>, versions: seq<nat>) {
    |loads| <= |versions| && forall k :: 0 <= k < |loads| ==> loads[k] <= versions[k]
  }

  /** A store read so far is current, or its publisher is on the way, or its kind moved since the first load. */
  ghost predicate Tracked(cfg: Config, s: Sys, first: seq<nat>, read: seq<Contents>)
    requires ValidConfig(cfg) && Shape(cfg, s) && |first| == cfg.kinds && |read| <= |s.stores|
  {
    forall i :: 0 <= i < |read| ==>
      var k := cfg.kindOf[i];
      read[i] == s.stores[i] || s.mutated[k] > 0 || s.versions[k] > first[k]
  }

  ghost predicate Current(cfg: Config, s: Sys, frame: Frame) {
    s.kick || s.adding > 0 || forall c :: c in s.conns ==> s.conns[c].last == frame
  }

  ghost predicate HubInv(cfg: Config, s: Sys)
    requires ValidConfig(cfg) && Shape(cfg, s) && |s.shown| == |s.stores|
  {
    match s.hub
    case Parked =>
      s.conns == map[] || s.kick || s.adding > 0 ||
      (&& Current(cfg, s, cfg.encode(s.shown))
       && forall i :: 0 <= i < |s.stores| ==>
            s.shown[i] == s.stores[i] || s.mutated[cfg.kindOf[i]] > 0 || Announced(s))
    case CheckIdle => true
    case LoadFirst(first) => NotAhead(first, s.versions)
    case Build(first, read) =>
      |first| == cfg.kinds && NotAhead(first, s.versions) && |read| <= |s.stores| && Tracked(cfg, s, first, read)
    case Deliver(first, read, todo, at) =>
      && |first| == cfg.kinds && NotAhead(first, s.versions)
      && |read| == |s.stores| && Tracked(cfg, s, first, read)
      && todo <= s.conns.Keys
      && (forall c :: c in s.conns && c !in todo ==> s.conns[c].last == cfg.encode(read))
      && (at.Drain? || at.Send? ==> at.conn in s.conns && at.conn !in todo)
      && (at.Send? ==> s.conns[at.conn].out.Empty?)
    case LoadSecond(first, second) =>
      && |first| == cfg.kinds && NotAhead(first, s.versions) && Tracked(cfg, s, first, s.shown)
      && NotAhead(second, s.versions)
      && (forall k :: 0 <= k < |second| ==>
            first[k] <= second[k] && (second[k] < s.versions[k] ==> Announced(s)))
      && Current(cfg, s, cfg.encode(s.shown))
  }

  ghost predicate Inv(cfg: Config, s: Sys)
    requires ValidConfig(cfg)
  {
    Shape(cfg, s) && |s.shown| == |s.stores| && MailInv(s) && HubInv(cfg, s)
  }

  /** Except for the connection deliver is in the middle of. */
  ghost predicate MailInv(s: Sys) {
    forall c :: c in s.conns && !(s.hub.Deliver? && !s.hub.at.Between? && s.hub.at.conn == c) ==> Conflated(s.conns[c])
  }

  lemma InitInv(cfg: Config, s: Sys)
    requires ValidConfig(cfg) && Init(cfg, s)
    ensures Inv(cfg, s)
  {
  }

  lemma TakeKeepsDelivered(conn: Conn)
    requires conn.out.Full?
    ensures Delivered(Conn(conn.last, Empty, conn.taken + [conn.out.frame])) == Delivered(conn)
  {
  }

  /** Publishers, callers and writers do not change what was delivered to whom. */
  lemma EnvironmentKeepsMail(cfg: Config, s: Sys, step: Step)
    requires ValidConfig(cfg) && Inv(cfg, s) && Enabled(cfg, s, step) && !HubMove(step)
    ensures var t := Next(cfg, s, step); Shape(cfg, t) && |t.shown| == |t.stores| && MailInv(t)
  {
    if step.Take? {
      TakeKeepsDelivered(s.conns[step.conn]);
    }
  }

  /** Whoever changes a store or a version leaves what the hub has read tracked. */
  lemma PublisherKeepsHub(cfg: Config, s: Sys, step: Step)
    requires ValidConfig(cfg) && Inv(cfg, s) && Enabled(cfg, s, step) && (step.Mutate? || step.Bump? || step.SendWake?)
    ensures var t := Next(cfg, s, step); Shape(cfg, t) && |t.shown| == |t.stores| && HubInv(cfg, t)
  {
    var t := Next(cfg, s, step);
    if s.hub.Build? || s.hub.Deliver? {
      assert Tracked(cfg, t, s.hub.first, s.hub.read);
    } else if s.hub.LoadSecond? {
      assert Tracked(cfg, t, s.hub.first, s.shown);
    }
  }

  /** Whoever touches connections leaves stores and versions alone. */
  lemma ViewerKeepsHub(cfg: Config, s: Sys, step: Step)
    requires ValidConfig(cfg) && Inv(cfg, s) && Enabled(cfg, s, step)
    requires step.Attach? || step.Detach? || step.SendKick? || step.Take?
    ensures var t := Next(cfg, s, step); Shape(cfg, t) && |t.shown| == |t.stores| && HubInv(cfg, t)
  {
    var t := Next(cfg, s, step);
    if s.hub.Build? || s.hub.Deliver? {
      assert Tracked(cfg, t, s.hub.first, s.hub.read);
    } else if s.hub.LoadSecond? {
      assert Tracked(cfg, t, s.hub.first, s.shown);
    }
  }

  lemma EnvironmentKeepsInv(cfg: Config, s: Sys, step: Step)
    requires ValidConfig(cfg) && Inv(cfg, s) && Enabled(cfg, s, step) && !HubMove(step)
    ensures Inv(cfg, Next(cfg, s, step))
  {
    EnvironmentKeepsMail(cfg, s, step);
    if step.Mutate? || step.Bump? || step.SendWake? {
      PublisherKeepsHub(cfg, s, step);
    } else {
      ViewerKeepsHub(cfg, s, step);
    }
  }

  /** Equal sums around a build: whatever the build missed is still announced, so parking loses nothing. */
  lemma ParkingIsSafe(cfg: Config, s: Sys)
    requires ValidConfig(cfg) && Inv(cfg, s)
    requires s.hub.LoadSecond? && |s.hub.second| == cfg.kinds && Sum(s.hub.second) == Sum(s.hub.first)
    ensures Inv(cfg, s.(hub := Parked))
  {
    assert NotAfter(s.hub.first, s.hub.second);
    EqualSumsEqualLoads(s.hub.first, s.hub.second);
  }

  lemma PickKeepsInv(cfg: Config, s: Sys, c: ConnId)
    requires ValidConfig(cfg) && Inv(cfg, s) && Enabled(cfg, s, Pick(c))
    ensures Inv(cfg, Next(cfg, s, Pick(c)))
  {
    var t := Next(cfg, s, Pick(c));
    assert Tracked(cfg, t, s.hub.first, s.hub.read);
    assert MailInv(t);
  }

  lemma HandOverKeepsInv(cfg: Config, s: Sys)
    requires ValidConfig(cfg) && Inv(cfg, s) && Enabled(cfg, s, Advance) && s.hub.Deliver?
    ensures Inv(cfg, Next(cfg, s, Advance))
  {
    var t := Next(cfg, s, Advance);
    assert Tracked(cfg, t, s.hub.first, s.hub.read);
    assert MailInv(t);
  }

  lemma LoadFirstKeepsInv(cfg: Config, s: Sys, step: Step)
    requires ValidConfig(cfg) && Inv(cfg, s) && Enabled(cfg, s, step) && HubMove(step)
    requires s.hub.Parked? || s.hub.CheckIdle? || s.hub.LoadFirst?
    ensures Inv(cfg, Next(cfg, s, step))
  {
    assert MailInv(Next(cfg, s, step));
  }

  lemma BuildKeepsInv(cfg: Config, s: Sys, step: Step)
    requires ValidConfig(cfg) && Inv(cfg, s) && Enabled(cfg, s, step) && HubMove(step)
    requires s.hub.Build?
    ensures Inv(cfg, Next(cfg, s, step))
  {
    var t := Next(cfg, s, step);
    assert MailInv(t);
    assert Tracked(cfg, t, s.hub.first, t.hub.read);
  }

  lemma LoadSecondKeepsInv(cfg: Config, s: Sys, step: Step)
    requires ValidConfig(cfg) && Inv(cfg, s) && Enabled(cfg, s, step) && HubMove(step)
    requires s.hub.LoadSecond?
    ensures Inv(cfg, Next(cfg, s, step))
  {
    var t := Next(cfg, s, step);
    assert MailInv(t);
    if |s.hub.second| == cfg.kinds {
      if Sum(s.hub.second) == Sum(s.hub.first) {
        ParkingIsSafe(cfg, s);
      }
    } else {
      assert Tracked(cfg, t, s.hub.first, t.shown);
    }
  }

  lemma HubKeepsInv(cfg: Config, s: Sys, step: Step)
    requires ValidConfig(cfg) && Inv(cfg, s) && Enabled(cfg, s, step) && HubMove(step)
    ensures Inv(cfg, Next(cfg, s, step))
  {
    if s.hub.Deliver? {
      if step.Pick? {
        PickKeepsInv(cfg, s, step.conn);
      } else {
        HandOverKeepsInv(cfg, s);
      }
    } else if s.hub.Build? {
      BuildKeepsInv(cfg, s, step);
    } else if s.hub.LoadSecond? {
      LoadSecondKeepsInv(cfg, s, step);
    } else {
      LoadFirstKeepsInv(cfg, s, step);
    }
  }

  lemma {:induction false} RunKeepsInv(cfg: Config, states: seq<Sys>, steps: seq<Step>, i: nat)
    requires ValidConfig(cfg) && ValidRun(cfg, states, steps) && i < |states|
    ensures Inv(cfg, states[i])
  {
    if i == 0 {
      InitInv(cfg, states[0]);
    } else {
      RunKeepsInv(cfg, states, steps, i - 1);
      assert MovesAt(cfg, states, steps, i - 1);
      if HubMove(steps[i - 1]) {
        HubKeepsInv(cfg, states[i - 1], steps[i - 1]);
      } else {
        EnvironmentKeepsInv(cfg, states[i - 1], steps[i - 1]);
      }
    }
  }

  // ---- what viewers get ----------------------------------------------------

  /** Nothing is in flight: the hub waits, and every publish and add call has returned. */
  ghost predicate Quiet(s: Sys) {
    && s.hub.Parked? && !s.wake && !s.kick && s.bumped == 0 && s.adding == 0
    && forall k :: 0 <= k < |s.mutated| ==> s.mutated[k] == 0
  }

  /** No lost wakeup: at rest every attached connection was sent the current state, as its latest frame. */
  lemma QuietMeansCurrent(cfg: Config, states: seq<Sys>, steps: seq<Step>, i: nat, c: ConnId)
    requires ValidConfig(cfg) && ValidRun(cfg, states, steps) && i < |states|
    requires Quiet(states[i]) && c in states[i].conns
    ensures var conn := states[i].conns[c];
      conn.last == cfg.encode(states[i].stores) && EndsIn(Delivered(conn), conn.last)
  {
    RunKeepsInv(cfg, states, steps, i);
    var s := states[i];
    assert Conflated(s.conns[c]);
    assert s.shown == s.stores;
  }

  /** The second select of deliver always finds the slot free, whatever the writer does meanwhile. */
  lemma SendNeverBlocks(cfg: Config, states: seq<Sys>, steps: seq<Step>, i: nat)
    requires ValidConfig(cfg) && ValidRun(cfg, states, steps) && i < |states|
    requires states[i].hub.Deliver? && states[i].hub.at.Send?
    ensures Shape(cfg, states[i]) && Enabled(cfg, states[i], Advance)
  {
    RunKeepsInv(cfg, states, steps, i);
  }

  // ---- the hub settles -----------------------------------------------------

  function Flag(b: bool): nat { if b then 1 else 0 }

  /** Longest a single pass can still take from CheckIdle. */
  ghost function PassLength(cfg: Config, s: Sys): nat {
    5 + 2 * cfg.kinds + |cfg.kindOf| + 3 * |s.conns|
  }

  ghost function Remaining(cfg: Config, s: Sys): int {
    var k, n := cfg.kinds, |cfg.kindOf|;
    match s.hub
    case Parked => 0
    case LoadSecond(_, second) => 1 + k - |second|
    case Deliver(_, _, todo, at) =>
      2 + k + 3 * |todo| + (match at case Between => 0 case Send(_) => 1 case Drain(_) => 2)
    case Build(_, read) => 3 + k + 3 * |s.conns| + n - |read|
    case LoadFirst(first) => 4 + 2 * k + 3 * |s.conns| + n - |first|
    case CheckIdle => PassLength(cfg, s)
  }

  /** Some version moved since this pass loaded it, so the pass may have to be repeated. */
  ghost predicate Overtaken(s: Sys) {
    !s.hub.Parked? && !s.hub.CheckIdle? && !(s.hub.first <= s.versions)
  }

  /** Bound on the hub's own steps from here to parking with no signal pending. */
  ghost function Work(cfg: Config, s: Sys): int {
    var pass := PassLength(cfg, s) + 1;
    (if s.wake then pass else 0) + (if s.kick then pass else 0) + (if Overtaken(s) then pass else 0) + Remaining(cfg, s)
  }

  lemma KeysKept(cfg: Config, s: Sys, step: Step)
    requires ValidConfig(cfg) && Inv(cfg, s) && Enabled(cfg, s, step) && (HubMove(step) || step.Take?)
    ensures Next(cfg, s, step).conns.Keys == s.conns.Keys
    ensures |Next(cfg, s, step).conns| == |s.conns|
  {
    var t := Next(cfg, s, step);
    assert t.conns.Keys == s.conns.Keys;
    assert |t.conns| == |t.conns.Keys| && |s.conns| == |s.conns.Keys|;
  }

  lemma PickWorks(cfg: Config, s: Sys, c: ConnId)
    requires ValidConfig(cfg) && Inv(cfg, s) && Enabled(cfg, s, Pick(c))
    ensures 0 <= Work(cfg, Next(cfg, s, Pick(c))) < Work(cfg, s)
  {
    KeysKept(cfg, s, Pick(c));
    assert |s.hub.todo - {c}| == |s.hub.todo| - 1;
  }

  lemma HandOverWorks(cfg: Config, s: Sys)
    requires ValidConfig(cfg) && Inv(cfg, s) && Enabled(cfg, s, Advance) && s.hub.Deliver?
    ensures 0 <= Work(cfg, Next(cfg, s, Advance)) < Work(cfg, s)
  {
    KeysKept(cfg, s, Advance);
  }

  lemma BuildWorks(cfg: Config, s: Sys, step: Step)
    requires ValidConfig(cfg) && Inv(cfg, s) && Enabled(cfg, s, step) && HubMove(step) && s.hub.Build?
    ensures 0 <= Work(cfg, Next(cfg, s, step)) < Work(cfg, s)
  {
    KeysKept(cfg, s, step);
    assert |s.conns.Keys| == |s.conns|;
  }

  lemma SecondLoadWorks(cfg: Config, s: Sys)
    requires ValidConfig(cfg) && Inv(cfg, s) && s.hub.LoadSecond? && |s.hub.second| < cfg.kinds
    ensures 0 <= Work(cfg, Next(cfg, s, Advance)) < Work(cfg, s)
  {
    assert Next(cfg, s, Advance).hub.first == s.hub.first;
  }

  /** A pass that was not overtaken parks; one that was is repeated, and that uses up the overtaking. */
  lemma CompareWorks(cfg: Config, s: Sys)
    requires ValidConfig(cfg) && Inv(cfg, s) && s.hub.LoadSecond? && |s.hub.second| == cfg.kinds
    ensures 0 <= Work(cfg, Next(cfg, s, Advance)) < Work(cfg, s)
  {
    var t := Next(cfg, s, Advance);
    assert t == s.(hub := if Sum(s.hub.second) == Sum(s.hub.first) then Parked else CheckIdle);
    if !Overtaken(s) {
      assert s.hub.first == s.versions;
      assert s.hub.second == s.hub.first;
    }
  }

  lemma OtherWorks(cfg: Config, s: Sys, step: Step)
    requires ValidConfig(cfg) && Inv(cfg, s) && Enabled(cfg, s, step) && HubMove(step)
    requires s.hub.Parked? || s.hub.CheckIdle? || s.hub.LoadFirst?
    ensures 0 <= Work(cfg, Next(cfg, s, step)) < Work(cfg, s)
  {
    KeysKept(cfg, s, step);
    if s.hub.LoadFirst? && !Overtaken(s) && |s.hub.first| < cfg.kinds {
      assert s.hub.first + [s.versions[|s.hub.first|]] <= s.versions;
    }
  }

  lemma HubStepWorks(cfg: Config, s: Sys, step: Step)
    requires ValidConfig(cfg) && Inv(cfg, s) && Enabled(cfg, s, step) && HubMove(step)
    ensures 0 <= Work(cfg, Next(cfg, s, step)) < Work(cfg, s)
  {
    if s.hub.Deliver? {
      if step.Pick? {
        PickWorks(cfg, s, step.conn);
      } else {
        HandOverWorks(cfg, s);
      }
    } else if s.hub.Build? {
      BuildWorks(cfg, s, step);
    } else if s.hub.LoadSecond? {
      if |s.hub.second| < cfg.kinds {
        SecondLoadWorks(cfg, s);
      } else {
        CompareWorks(cfg, s);
      }
    } else {
      OtherWorks(cfg, s, step);
    }
  }

  lemma TakeKeepsWork(cfg: Config, s: Sys, step: Step)
    requires ValidConfig(cfg) && Inv(cfg, s) && Enabled(cfg, s, step) && step.Take?
    ensures Work(cfg, Next(cfg, s, step)) == Work(cfg, s)
  {
    KeysKept(cfg, s, step);
  }

  /** The hub can always move unless it is parked with nothing pending. */
  lemma HubIsNeverStuck(cfg: Config, s: Sys) returns (step: Step)
    requires ValidConfig(cfg) && Inv(cfg, s)
    requires !(s.hub.Parked? && !s.wake && !s.kick)
    ensures HubMove(step) && Enabled(cfg, s, step)
  {
    if s.hub.Parked? {
      step := if s.wake then TakeWake else TakeKick;
    } else if s.hub.Deliver? && s.hub.at.Between? && s.hub.todo != {} {
      var c :| c in s.hub.todo;
      step := Pick(c);
    } else {
      step := Advance;
    }
  }

  ghost function HubSteps(steps: seq<Step>): nat {
    if steps == [] then 0 else Flag(HubMove(steps[0])) + HubSteps(steps[1..])
  }

  /** Once publishers and callers are silent, the hub takes a bounded number of steps, on every schedule. */
  lemma {:induction false} HubSettles(cfg: Config, states: seq<Sys>, steps: seq<Step>)
    requires ValidConfig(cfg) && |states| == |steps| + 1 && Moves(cfg, states, steps) && Inv(cfg, states[0])
    requires forall i :: 0 <= i < |steps| ==> HubMove(steps[i]) || steps[i].Take?
    ensures HubSteps(steps) <= Work(cfg, states[0])
    decreases |steps|
  {
    if steps == [] {
      WorkIsNatural(cfg, states[0]);
    } else {
      var s, step := states[0], steps[0];
      assert MovesAt(cfg, states, steps, 0);
      if HubMove(step) {
        HubStepWorks(cfg, s, step);
        HubKeepsInv(cfg, s, step);
      } else {
        TakeKeepsWork(cfg, s, step);
        EnvironmentKeepsInv(cfg, s, step);
      }
      MovesTail(cfg, states, steps);
      HubSettles(cfg, states[1..], steps[1..]);
    }
  }

  lemma MovesTail(cfg: Config, states: seq<Sys>, steps: seq<Step>)
    requires ValidConfig(cfg) && |states| == |steps| + 1 && Moves(cfg, states, steps) && steps != []
    ensures Moves(cfg, states[1..], steps[1..])
  {
    var later, rest := states[1..], steps[1..];
    forall i | 0 <= i < |rest|
      ensures MovesAt(cfg, later, rest, i)
    {
      assert MovesAt(cfg, states, steps, i + 1);
    }
  }

  lemma WorkIsNatural(cfg: Config, s: Sys)
    requires ValidConfig(cfg) && Inv(cfg, s)
    ensures Work(cfg, s) >= 0
  {
  }

  /** No publish or add call is midway. */
  ghost predicate NoCalls(s: Sys) {
    s.bumped == 0 && s.adding == 0 && forall k :: 0 <= k < |s.mutated| ==> s.mutated[k] == 0
  }

  ghost predicate Silent(steps: seq<Step>, n: nat) {
    forall i :: n <= i < |steps| ==> HubMove(steps[i]) || steps[i].Take?
  }

  lemma {:induction false} SilenceLasts(cfg: Config, states: seq<Sys>, steps: seq<Step>, n: nat, i: nat)
    requires ValidConfig(cfg) && ValidRun(cfg, states, steps) && n <= i < |states| && Silent(steps, n)
    requires NoCalls(states[n])
    ensures NoCalls(states[i])
    decreases i
  {
    if i > n {
      SilenceLasts(cfg, states, steps, n, i - 1);
      assert MovesAt(cfg, states, steps, i - 1);
    }
  }

  lemma RunTail(cfg: Config, states: seq<Sys>, steps: seq<Step>, n: nat)
    requires ValidConfig(cfg) && ValidRun(cfg, states, steps) && n <= |steps|
    ensures Moves(cfg, states[n..], steps[n..])
  {
    forall i | 0 <= i < |steps| - n
      ensures MovesAt(cfg, states[n..], steps[n..], i)
    {
      assert MovesAt(cfg, states, steps, n + i);
    }
  }

  /**
   From every reachable state with no call in flight, whatever the schedule: while nobody publishes, attaches or
   detaches, the hub takes a bounded number of steps, and once it has none left every connection was sent the
   current state as its latest frame.
   */
  lemma SilenceEndsCurrent(cfg: Config, states: seq<Sys>, steps: seq<Step>, n: nat)
    requires ValidConfig(cfg) && ValidRun(cfg, states, steps) && n <= |steps| && Silent(steps, n) && NoCalls(states[n])
    ensures HubSteps(steps[n..]) <= Work(cfg, states[n])
    ensures Shape(cfg, states[|steps|])
    ensures (forall step :: HubMove(step) ==> !Enabled(cfg, states[|steps|], step)) ==>
      Quiet(states[|steps|]) &&
      forall c :: c in states[|steps|].conns ==>
        var conn := states[|steps|].conns[c];
        conn.last == cfg.encode(states[|steps|].stores) && EndsIn(Delivered(conn), conn.last)
  {
    var last := states[|steps|];
    RunKeepsInv(cfg, states, steps, n);
    RunKeepsInv(cfg, states, steps, |steps|);
    RunTail(cfg, states, steps, n);
    HubSettles(cfg, states[n..], steps[n..]);
    SilenceLasts(cfg, states, steps, n, |steps|);
    if forall step :: HubMove(step) ==> !Enabled(cfg, last, step) {
      if !(last.hub.Parked? && !last.wake && !last.kick) {
        var step := HubIsNeverStuck(cfg, last);
      }
      forall c | c in last.conns
        ensures last.conns[c].last == cfg.encode(last.stores) && EndsIn(Delivered(last.conns[c]), last.conns[c].last)
      {
        QuietMeansCurrent(cfg, states, steps, |steps|, c);
      }
    }
  }

  // ---- deliver, as the hub runs it under its lock --------------------------

  /** Effect of one delivery on one connection when its writer is idle. */
  function Handed(conn: Conn, js: Frame): Conn {
    if conn.last == js then conn else Conn(js, Full(js), conn.taken)
  }

  class HubConns {
    var conns: map<ConnId, Conn>
    var kick: bool
    /** The connections the hub would find if it ran at the moment of the last kick. */
    ghost var atKick: set<ConnId>

    constructor ()
      ensures conns == map[] && !kick
    {
      conns, kick, atKick := map[], false, {};
    }

    /** The kick finds the connection registered, so the pass it causes serves it. */
    method Add(c: ConnId)
      requires c !in conns
      modifies this
      ensures conns == old(conns)[c := Conn("", Empty, [])]
      ensures kick && atKick == conns.Keys
    {
      conns := conns[c := Conn("", Empty, [])];
      kick, atKick := true, conns.Keys;
    }

    /** Map order is arbitrary; every connection ends up holding exactly the new frame, or untouched if it had it. */
    method Deliver(js: Frame)
      modifies this`conns
      ensures conns == map c | c in old(conns) :: Handed(old(conns)[c], js)
    {
      var todo := conns.Keys;
      while todo != {}
        invariant todo <= conns.Keys == old(conns).Keys
        invariant forall c :: c in conns ==>
          conns[c] == if c in todo then old(conns)[c] else Handed(old(conns)[c], js)
        decreases |todo|
      {
        var c :| c in todo;
        todo := todo - {c};
        if conns[c].last != js {
          conns := conns[c := conns[c].(last := js)];
          if conns[c].out.Full? {
            conns := conns[c := conns[c].(out := Empty)];
          }
          conns := conns[c := conns[c].(out := Full(js))];
        }
      }
    }
  }

  /** Registering and kicking, as Add does them. */
  lemma AddStepsAgree(cfg: Config, s: Sys, c: ConnId)
    requires ValidConfig(cfg) && Shape(cfg, s) && c !in s.conns && !s.hub.Deliver?
    ensures Enabled(cfg, s, Attach(c))
    ensures var attached := Next(cfg, s, Attach(c));
      Shape(cfg, attached) && Enabled(cfg, attached, SendKick) &&
      Next(cfg, attached, SendKick) == s.(conns := s.conns[c := Conn("", Empty, [])], kick := true)
  {
  }

  /** A connection that leaves is gone, and nothing else is touched. */
  lemma DetachLeaves(cfg: Config, s: Sys, c: ConnId)
    requires ValidConfig(cfg) && Shape(cfg, s) && c in s.conns && !s.hub.Deliver?
    ensures Enabled(cfg, s, Detach(c)) && c !in Next(cfg, s, Detach(c)).conns
    ensures Next(cfg, s, Detach(c)) == s.(conns := s.conns - {c})
  {
  }

  /**
   The writer takes exactly the frame in the mailbox: nothing is lost or taken twice, and no other connection sees it.
   */
  lemma TakeMovesFrame(cfg: Config, s: Sys, c: ConnId)
    requires ValidConfig(cfg) && Shape(cfg, s) && c in s.conns && s.conns[c].out.Full?
    ensures Enabled(cfg, s, Take(c))
    ensures var t := Next(cfg, s, Take(c));
      && c in t.conns && t.conns[c].out.Empty? && t.conns[c].last == s.conns[c].last
      && t.conns[c].taken == s.conns[c].taken + [s.conns[c].out.frame] && Delivered(t.conns[c]) == Delivered(s.conns[c])
      && t == s.(conns := s.conns[c := t.conns[c]])
  {
  }

  /** The three machine steps for one connection, with the writer idle, amount to Handed. */
  lemma DeliverStepsAgree(cfg: Config, s: Sys, c: ConnId)
    requires ValidConfig(cfg) && Inv(cfg, s)
    requires s.hub.Deliver? && s.hub.at.Between? && c in s.hub.todo
    ensures var js := cfg.encode(s.hub.read);
      var picked := Next(cfg, s, Pick(c));
      var done := s.hub.(todo := s.hub.todo - {c});
      if s.conns[c].last == js then
        picked == s.(hub := done)
      else
        && Enabled(cfg, picked, Advance)
        && Enabled(cfg, HubAdvance(cfg, picked), Advance)
        && HubAdvance(cfg, HubAdvance(cfg, picked)) == s.(hub := done, conns := s.conns[c := Handed(s.conns[c], js)])
  {
    var picked := Next(cfg, s, Pick(c));
    if s.conns[c].last != cfg.encode(s.hub.read) {
      var drained := HubAdvance(cfg, picked);
      var sent := HubAdvance(cfg, drained);
      assert sent.conns == s.conns[c := Handed(s.conns[c], cfg.encode(s.hub.read))];
    }
  }
}
