/**
 The agent's memo of a converged Target (internal/agent/target_reconciler.go):
 a pass whose key equals the recorded one skips the targetcli walk. The key is
 text, so what it decides depends on how that text can be read back.
 */
module AppliedKey {
  import opened Wrappers
  import opened Text
  import opened TargetWalk

  /** What the live read of one Secret answers; `NoCred` data is a keyless Secret. */
  datatype Secret = Absent | Present(rv: string, data: Cred)

  /** One pass over a Target placed here: `secrets[i]` answers the read made for `initiators[i]`. */
  datatype Input = Input(
    name: string, gen: nat, vip: string, dev: string, luns: seq<Lun>, initiators: seq<Initiator>, secrets: seq<Secret>)

  predicate WellFormed(x: Input) { |x.secrets| == |x.initiators| }

  function Numbered(n: nat): string { "|" + Decimal(n) + ":" }

  function LunText(luns: seq<Lun>): string {
    if luns == [] then ""
    else
      var last := luns[|luns| - 1];
      LunText(luns[..|luns| - 1]) + (Numbered(last.id) + last.device)
  }

  function Version(s: Secret): string { if s.Absent? then "absent" else s.rv }

  function SecretText(x: Input, n: nat): string
    requires WellFormed(x) && n <= |x.initiators|
  {
    if n == 0 then ""
    else if x.initiators[n - 1].secretRef == "" then SecretText(x, n - 1)
    else SecretText(x, n - 1) + ("|" + (x.initiators[n - 1].secretRef + ":" + Version(x.secrets[n - 1])))
  }

  function Key(x: Input): string
    requires WellFormed(x)
  {
    "g" + Decimal(x.gen) + LunText(x.luns) + SecretText(x, |x.initiators|)
  }

  function Usable(x: Input, i: nat): bool
    requires WellFormed(x) && i < |x.initiators|
  {
    x.initiators[i].secretRef != "" && x.secrets[i].Present? && x.secrets[i].data.Cred?
  }

  function Chap(x: Input, n: nat): map<string, Cred>
    requires WellFormed(x) && n <= |x.initiators|
  {
    if n == 0 then map[]
    else if Usable(x, n - 1) then Chap(x, n - 1)[x.initiators[n - 1].iqn := x.secrets[n - 1].data]
    else Chap(x, n - 1)
  }

  function WalkOf(x: Input): Walk
    requires WellFormed(x)
  {
    Walk(x.name, x.luns, x.initiators, Chap(x, |x.initiators|), x.vip, x.dev)
  }

  // ---- the agent ---------------------------------------------------------------------------

  /** What a pass finds when it reads the object; `Restarted` is the agent starting anew, with no memo. */
  datatype View =
    | NotFound(name: string)
    | Lost(name: string, vip: string)   // deletion marked, or another node is active
    | NoLuns
    | SecretError
    | Restarted
    | Serve(input: Input)

  /**
   A walk is recorded when it and the status write both succeed, even if it let stale LUNs linger; otherwise
   the old key stays.
   */
  datatype Outcome = Recorded | Lingering(left: Lio) | Unrecorded(left: Lio)

  /** `no` are the removals the host refuses. */
  datatype Event = Read(view: View, outcome: Outcome, no: Refused)

  predicate Forgets(v: View) { v.NotFound? || v.Lost? || v.Restarted? }

  function Served(x: Input, outcome: Outcome): Event { Read(Serve(x), outcome, Nothing) }

  datatype Agent = Agent(host: Lio, applied: string)

  predicate Fine(e: Event) { e.view.Serve? ==> WellFormed(e.view.input) }

  predicate Skips(s: Agent, e: Event)
    requires Fine(e)
  {
    e.view.Serve? && s.applied == Key(e.view.input)
  }

  /** The host of an agent that keeps no memo and walks on every pass. */
  function PlainAfter(h: Lio, e: Event): Lio
    requires Fine(e)
  {
    match e.view
    case NotFound(name) => RemovedBut(h, name, e.no)
    case Lost(name, vip) => TornDownBut(h, name, vip, e.no)
    case NoLuns => h
    case SecretError => h
    case Restarted => h
    case Serve(x) => if e.outcome.Recorded? then Walked(h, WalkOf(x)) else e.outcome.left
  }

  function MemoAfter(s: Agent, e: Event): Agent
    requires Fine(e)
  {
    if Skips(s, e) then s
    else
      Agent(PlainAfter(s.host, e),
            if Forgets(e.view) then ""
            else if e.view.Serve? && !e.outcome.Unrecorded? then Key(e.view.input)
            else s.applied)
  }

  class TargetAgent {
    const lio: LioManager
    var applied: string

    constructor (manager: LioManager)
      ensures lio == manager && applied == ""
    {
      lio, applied := manager, "";
    }

    method ReadLuns(luns: seq<Lun>, head: string) returns (key: string)
      ensures key == head + LunText(luns)
    {
      key := head;
      for i := 0 to |luns|
        invariant key == head + LunText(luns[..i])
      {
        assert luns[..i + 1][..i] == luns[..i];
        key := key + (Numbered(luns[i].id) + luns[i].device);
      }
      assert luns[..|luns|] == luns;
    }

    method ReadSecrets(x: Input, head: string) returns (key: string, chap: map<string, Cred>)
      requires WellFormed(x)
      ensures key == head + SecretText(x, |x.initiators|) && chap == Chap(x, |x.initiators|)
    {
      key, chap := head, map[];
      for i := 0 to |x.initiators|
        invariant key == head + SecretText(x, i) && chap == Chap(x, i)
      {
        var ini := x.initiators[i];
        if ini.secretRef == "" {
          continue;
        }
        if x.secrets[i].Absent? {
          key := key + ("|" + (ini.secretRef + ":" + "absent"));
          continue;
        }
        key := key + ("|" + (ini.secretRef + ":" + x.secrets[i].rv));
        if x.secrets[i].data.NoCred? {
          continue;
        }
        chap := chap[ini.iqn := x.secrets[i].data];
      }
    }

    /** One pass; `commands` bounds the host commands that succeed, `written` is the fate of the status write. */
    method Reconcile(view: View, commands: nat, stuck: Stuck, no: Refused, written: bool) returns (ghost e: Event)
      requires view.Serve? ==> WellFormed(view.input)
      modifies this, lio
      ensures e.view == view && e.no == no
      ensures Agent(lio.state, applied) == MemoAfter(Agent(old(lio.state), old(applied)), e)
      ensures Plausible(old(lio.state), e)
      ensures view.Serve? && written && commands >= Cost(old(lio.state), WalkOf(view.input)) ==>
        !e.outcome.Unrecorded? && applied == Key(view.input)
      ensures stuck == Stuck({}, {}) ==> !e.outcome.Lingering?
    {
      e := Read(view, Recorded, no);
      match view {
        case NotFound(name) =>
          applied := "";
          lio.RemoveTarget(name, no);
        case Lost(name, vip) =>
          applied := "";
          lio.TeardownTarget(name, vip, no);
        case NoLuns =>
        case SecretError =>
        case Restarted =>
          applied := "";
        case Serve(x) =>
          var key := ReadLuns(x.luns, "g" + Decimal(x.gen));
          var chap;
          key, chap := ReadSecrets(x, key);
          if applied == key {
            return;
          }
          var ok := lio.EnsureTarget(Walk(x.name, x.luns, x.initiators, chap, x.vip, x.dev), commands, stuck);
          if !written || !ok {
            e := Read(view, Unrecorded(lio.state), no);
            return;
          }
          if lio.state != Walked(old(lio.state), WalkOf(x)) {
            e := Read(view, Lingering(lio.state), no);
          }
          applied := key;
      }
    }
  }

  /** Any other walk still leaves a converged host alone; otherwise nothing is known of what it leaves. */
  predicate Plausible(h: Lio, e: Event)
    requires Fine(e)
  {
    e.view.Serve? && !e.outcome.Recorded? && Walked(h, WalkOf(e.view.input)) == h ==> e.outcome.left == h
  }

  // ---- reading the key back -----------------------------------------------------------------

  /** A device whose name, from k on, reads like the start of another LUN entry. */
  predicate Splits(d: string, k: nat, n: nat) { k <= |d| && Numbered(n) <= d[k..] }

  ghost predicate Clean(d: string) { forall k: nat, n: nat :: !Splits(d, k, n) }

  lemma BarFreeIsClean(d: string)
    requires Free(d, '|')
    ensures Clean(d)
  {
    forall k: nat, n: nat
      ensures !Splits(d, k, n)
    {
      NumberedShape(n);
      assert k < |d| ==> d[k..][0] == d[k];
    }
  }

  lemma NumberedShape(n: nat)
    ensures |Numbered(n)| >= 3 && Numbered(n)[0] == '|'
    ensures forall i :: 0 < i < |Numbered(n)| ==> Numbered(n)[i] != '|'
  {
  }

  /** An entry that is a proper suffix of another one starts inside the other's device. */
  lemma SuffixSplits(m: nat, d: string, n: nat, e: string, k: nat)
    requires 0 < k <= |Numbered(n) + e| && (Numbered(n) + e)[k..] == Numbered(m) + d
    ensures !Clean(e)
  {
    var s := Numbered(n) + e;
    NumberedShape(n);
    NumberedShape(m);
    assert s[k] == s[k..][0] == '|';
    assert k >= |Numbered(n)|;
    var j := k - |Numbered(n)|;
    assert s[k..] == e[j..];
    assert Numbered(m) <= e[j..];
    assert Splits(e, j, m);
  }

  lemma EntryIsUnique(m: nat, d: string, n: nat, e: string)
    requires Numbered(m) + d == Numbered(n) + e
    ensures m == n && d == e
  {
    var p, q := "|" + Decimal(m), "|" + Decimal(n);
    assert Numbered(m) + d == p + [':'] + d && Numbered(n) + e == q + [':'] + e;
    SplitFirst(':', p, d, q, e);
    assert Decimal(m) == p[1..] && Decimal(n) == q[1..];
    DecimalInjective(m, n);
  }

  lemma LastEntryIsUnique(x: string, m: nat, d: string, y: string, n: nat, e: string)
    requires x + (Numbered(m) + d) == y + (Numbered(n) + e)
    requires |x| < |y| ==> Clean(d)
    requires |y| < |x| ==> Clean(e)
    ensures x == y && m == n && d == e
  {
    var u, v := Numbered(m) + d, Numbered(n) + e;
    var s := x + u;
    assert s == y + v;
    assert s[|x|..] == u && s[|y|..] == v;
    if |x| < |y| {
      assert u[|y| - |x|..] == v;
      SuffixSplits(n, e, m, d, |y| - |x|);
    } else if |y| < |x| {
      assert v[|x| - |y|..] == u;
      SuffixSplits(m, d, n, e, |x| - |y|);
    } else {
      assert x == s[..|x|] && y == s[..|y|];
      EntryIsUnique(m, d, n, e);
    }
  }

  ghost predicate AllClean(luns: seq<Lun>) {
    forall i :: 0 <= i < |luns| ==> Clean(luns[i].device)
  }

  lemma {:induction false} LunTextDecides(a: seq<Lun>, b: seq<Lun>)
    requires AllClean(a) && AllClean(b) && LunText(a) == LunText(b)
    ensures a == b
    decreases |a|
  {
    if a != [] && b != [] {
      var i, j := |a| - 1, |b| - 1;
      LastEntryIsUnique(LunText(a[..i]), a[i].id, a[i].device, LunText(b[..j]), b[j].id, b[j].device);
      LunTextDecides(a[..i], b[..j]);
      assert a == a[..i] + [a[i]] && b == b[..j] + [b[j]];
    }
  }

  /** Exactly the devices that hold no entry start are safe: any other one is also the text of two LUNs. */
  lemma CleanExactly(id: nat, d: string)
    ensures Clean(d) <==> forall luns :: LunText(luns) == LunText([Lun(id, d)]) ==> luns == [Lun(id, d)]
  {
    var one := [Lun(id, d)];
    OneLunText(one[0]);
    if Clean(d) {
      forall luns | LunText(luns) == LunText(one)
        ensures luns == one
      {
        OneEntryText(luns, id, d);
      }
    } else {
      var k: nat, n: nat :| Splits(d, k, n);
      var two := TwoEntryText(id, d, k, n);
    }
  }

  lemma TwoEntryText(id: nat, d: string, k: nat, n: nat) returns (two: seq<Lun>)
    requires Splits(d, k, n)
    ensures |two| == 2 && LunText(two) == Numbered(id) + d
  {
    var head, rest := d[..k], d[k + |Numbered(n)|..];
    two := [Lun(id, head), Lun(n, rest)];
    assert d == head + (Numbered(n) + rest);
    OneLunText(Lun(id, head));
    assert two[..1] == [Lun(id, head)];
    assert LunText(two) == (Numbered(id) + head) + (Numbered(n) + rest);
  }

  lemma OneLunText(l: Lun)
    ensures LunText([l]) == Numbered(l.id) + l.device
  {
    assert [l][..0] == [];
  }

  lemma OneEntryText(luns: seq<Lun>, id: nat, d: string)
    requires Clean(d) && LunText(luns) == Numbered(id) + d
    ensures luns == [Lun(id, d)]
  {
    if luns != [] {
      var j := |luns| - 1;
      var y := LunText(luns[..j]);
      assert "" + (Numbered(id) + d) == Numbered(id) + d;
      LastEntryIsUnique("", id, d, y, luns[j].id, luns[j].device);
      assert luns[..j] == [];
    }
  }

  /** What the API server guarantees of names and versions. */
  predicate ApiText(x: Input)
    requires WellFormed(x)
  {
    forall i :: 0 <= i < |x.initiators| ==>
      Free(x.initiators[i].secretRef, '|') &&
      (x.secrets[i].Present? ==> Free(x.secrets[i].rv, '|') && x.secrets[i].rv != "absent")
  }

  ghost predicate Sound(x: Input) {
    WellFormed(x) && ApiText(x) && AllClean(x.luns)
  }

  predicate SameSecret(a: Input, b: Input, i: nat)
    requires WellFormed(a) && WellFormed(b) && i < |a.initiators| && i < |b.initiators|
  {
    a.initiators[i].secretRef == b.initiators[i].secretRef &&
    a.secrets[i].Present? && b.secrets[i].Present? && a.secrets[i].rv == b.secrets[i].rv
  }

  /**
   Two reads of one incarnation on one node: the default route stays on its interface, the generation fixes the spec, a
   Secret's name and version fix its data.
   */
  predicate Coherent(a: Input, b: Input)
    requires WellFormed(a) && WellFormed(b)
  {
    a.name == b.name && a.dev == b.dev &&
    (a.gen == b.gen ==> a.initiators == b.initiators && a.vip == b.vip) &&
    forall i :: 0 <= i < |a.initiators| && i < |b.initiators| && SameSecret(a, b, i) ==>
      a.secrets[i].data == b.secrets[i].data
  }

  predicate SameVersions(a: Input, b: Input, n: nat)
    requires WellFormed(a) && WellFormed(b) && a.initiators == b.initiators && n <= |a.initiators|
  {
    forall i :: 0 <= i < n && a.initiators[i].secretRef != "" ==> Version(a.secrets[i]) == Version(b.secrets[i])
  }

  lemma {:induction false} SecretTextDecides(a: Input, b: Input, n: nat, x: string, y: string)
    requires Sound(a) && Sound(b) && a.initiators == b.initiators && n <= |a.initiators|
    requires x + SecretText(a, n) == y + SecretText(b, n)
    ensures x == y && SameVersions(a, b, n)
  {
    if n == 0 {
      assert x + "" == x && y + "" == y;
    } else if a.initiators[n - 1].secretRef == "" {
      SecretTextDecides(a, b, n - 1, x, y);
    } else {
      var r, v, w := a.initiators[n - 1].secretRef, Version(a.secrets[n - 1]), Version(b.secrets[n - 1]);
      var s, t := "|" + (r + ":" + v), "|" + (r + ":" + w);
      assert x + (SecretText(a, n - 1) + s) == (x + SecretText(a, n - 1)) + s;
      assert y + (SecretText(b, n - 1) + t) == (y + SecretText(b, n - 1)) + t;
      LastVersionDecides(x + SecretText(a, n - 1), r, v, y + SecretText(b, n - 1), w);
      SecretTextDecides(a, b, n - 1, x, y);
    }
  }

  lemma LastVersionDecides(p: string, r: string, v: string, q: string, w: string)
    requires Free(r, '|') && Free(v, '|') && Free(w, '|')
    requires p + ("|" + (r + ":" + v)) == q + ("|" + (r + ":" + w))
    ensures p == q && v == w
  {
    var s, t := r + ":" + v, r + ":" + w;
    SplitLast('|', p, s, q, t);
    assert v == s[|r| + 1..] && w == t[|r| + 1..];
  }

  lemma {:induction false} RestStartsWithBar(x: Input, n: nat)
    requires WellFormed(x) && n <= |x.initiators|
    ensures var rest := LunText(x.luns) + SecretText(x, n); rest == "" || rest[0] == '|'
  {
    if n > 0 {
      RestStartsWithBar(x, n - 1);
    } else {
      LunTextStartsWithBar(x.luns);
    }
  }

  lemma {:induction false} LunTextStartsWithBar(luns: seq<Lun>)
    ensures LunText(luns) == "" || LunText(luns)[0] == '|'
  {
    if luns != [] {
      LunTextStartsWithBar(luns[..|luns| - 1]);
    }
  }

  lemma HeadDecides(p: string, x: string, q: string, y: string)
    requires Free(p, '|') && Free(q, '|') && p + x == q + y
    requires (x == "" || x[0] == '|') && (y == "" || y[0] == '|')
    ensures p == q && x == y
  {
    var s := p + x;
    assert forall i :: 0 <= i < |p| ==> s[i] == p[i];
    assert forall i :: 0 <= i < |q| ==> s[i] == q[i];
    assert x != "" ==> s[|p|] == '|';
    assert y != "" ==> s[|q|] == '|';
    assert |p| == |q|;
    assert p == s[..|p|] && q == s[..|q|] && x == s[|p|..] && y == s[|q|..];
  }

  function Tail(x: Input): string
    requires WellFormed(x)
  {
    LunText(x.luns) + SecretText(x, |x.initiators|)
  }

  lemma KeyParts(x: Input)
    requires WellFormed(x)
    ensures Key(x) == ("g" + Decimal(x.gen)) + Tail(x)
    ensures Free("g" + Decimal(x.gen), '|') && (Tail(x) == "" || Tail(x)[0] == '|')
  {
    RestStartsWithBar(x, |x.initiators|);
  }

  lemma KeyDecidesGeneration(a: Input, b: Input)
    requires WellFormed(a) && WellFormed(b) && Key(a) == Key(b)
    ensures a.gen == b.gen && Tail(a) == Tail(b)
  {
    var p, q := "g" + Decimal(a.gen), "g" + Decimal(b.gen);
    KeyParts(a);
    KeyParts(b);
    HeadDecides(p, Tail(a), q, Tail(b));
    assert Decimal(a.gen) == p[1..] && Decimal(b.gen) == q[1..];
    DecimalInjective(a.gen, b.gen);
  }

  /** Equal keys mean equal generation, LUN list and Secret versions, hence the same walk. */
  lemma KeyDecidesWalk(a: Input, b: Input)
    requires Sound(a) && Sound(b) && Coherent(a, b) && Key(a) == Key(b)
    ensures a.gen == b.gen && a.luns == b.luns && SameVersions(a, b, |a.initiators|)
    ensures WalkOf(a) == WalkOf(b)
  {
    KeyDecidesGeneration(a, b);
    SecretTextDecides(a, b, |a.initiators|, LunText(a.luns), LunText(b.luns));
    LunTextDecides(a.luns, b.luns);
    VersionsDecideChap(a, b, |a.initiators|);
  }

  lemma {:induction false} VersionsDecideChap(a: Input, b: Input, n: nat)
    requires Sound(a) && Sound(b) && Coherent(a, b) && a.gen == b.gen && n <= |a.initiators| && SameVersions(a, b, n)
    ensures Chap(a, n) == Chap(b, n)
  {
    if n > 0 {
      VersionsDecideChap(a, b, n - 1);
    }
  }

  /** A different generation, LUN list or Secret version is always seen. */
  lemma KeySeesChange(a: Input, b: Input)
    requires Sound(a) && Sound(b) && Coherent(a, b)
    ensures Key(a) == Key(b) <==> a.gen == b.gen && a.luns == b.luns && SameVersions(a, b, |a.initiators|)
  {
    if Key(a) == Key(b) {
      KeyDecidesWalk(a, b);
    } else if a.gen == b.gen && a.luns == b.luns && SameVersions(a, b, |a.initiators|) {
      SameSecretText(a, b, |a.initiators|);
    }
  }

  /** Device paths without a bar, which is what drbd devices have, are all clean. */
  lemma BarFreeKeySeesChange(a: Input, b: Input)
    requires WellFormed(a) && ApiText(a) && WellFormed(b) && ApiText(b) && Coherent(a, b)
    requires forall l :: l in a.luns || l in b.luns ==> Free(l.device, '|')
    ensures Key(a) == Key(b) <==> a.gen == b.gen && a.luns == b.luns && SameVersions(a, b, |a.initiators|)
  {
    forall l | l in a.luns || l in b.luns
      ensures Clean(l.device)
    {
      BarFreeIsClean(l.device);
    }
    KeySeesChange(a, b);
  }

  lemma {:induction false} SameSecretText(a: Input, b: Input, n: nat)
    requires WellFormed(a) && WellFormed(b) && a.initiators == b.initiators && n <= |a.initiators|
    requires SameVersions(a, b, n)
    ensures SecretText(a, n) == SecretText(b, n)
  {
    if n > 0 {
      SameSecretText(a, b, n - 1);
    }
  }

  /** Initiator i names a Secret that is there and has both keys. */
  ghost predicate HasCredential(x: Input, i: nat)
    requires WellFormed(x) && i < |x.initiators|
  {
    x.initiators[i].secretRef != "" && x.secrets[i].Present? && x.secrets[i].data.Cred?
  }

  /** Of the first n initiators, i is the last one of that name with a credential. */
  ghost predicate LastCredential(x: Input, n: nat, i: nat, iqn: string)
    requires WellFormed(x) && n <= |x.initiators|
  {
    && i < n && HasCredential(x, i) && x.initiators[i].iqn == iqn
    && forall j :: i < j < n && HasCredential(x, j) ==> x.initiators[j].iqn != iqn
  }

  /** An initiator's credential is that of its own Secret, if it is usable; there are no others. */
  lemma {:induction false} ChapMeans(x: Input, n: nat, iqn: string)
    requires WellFormed(x) && n <= |x.initiators|
    ensures iqn in Chap(x, n) <==> exists i: nat :: LastCredential(x, n, i, iqn)
    ensures forall i: nat :: LastCredential(x, n, i, iqn) ==>
      iqn in Chap(x, n) && Chap(x, n)[iqn] == x.secrets[i].data
  {
    if n > 0 {
      ChapMeans(x, n - 1, iqn);
      if HasCredential(x, n - 1) && x.initiators[n - 1].iqn == iqn {
        assert LastCredential(x, n, n - 1, iqn);
      } else {
        if iqn in Chap(x, n) {
          var i: nat :| LastCredential(x, n - 1, i, iqn);
          assert LastCredential(x, n, i, iqn);
        }
        assert forall i: nat :: LastCredential(x, n, i, iqn) ==> LastCredential(x, n - 1, i, iqn);
      }
    }
  }

  /** An initiator of that name needs no Secret, or one of that name has a usable one. */
  ghost predicate MayLogIn(x: Input, iqn: string)
    requires WellFormed(x)
  {
    exists k :: 0 <= k < |x.initiators| && x.initiators[k].iqn == iqn &&
      (x.initiators[k].secretRef == "" || exists i: nat :: LastCredential(x, |x.initiators|, i, iqn))
  }

  /** After a recorded pass an iqn.-type initiator has an ACL exactly if the object lets it in. */
  lemma AccessOfInput(h: Lio, x: Input, a: string)
    requires WellFormed(x) && |a| >= 4 && a[..4] == "iqn."
    ensures a in PlainAfter(h, Served(x, Recorded)).acls <==> MayLogIn(x, a)
  {
    var w := WalkOf(x);
    ChapMeans(x, |x.initiators|, a);
    AccessFollowsSpec(h, w, a);
    if ini :| ini in w.initiators && ini.iqn == a && (ini.secretRef == "" || a in w.chap) {
      var k :| 0 <= k < |x.initiators| && x.initiators[k] == ini;
    }
    if k :| 0 <= k < |x.initiators| && x.initiators[k].iqn == a && (x.initiators[k].secretRef == "" || a in w.chap) {
      assert x.initiators[k] in w.initiators;
    }
  }

  /** And the export the object asks for is there. */
  lemma PassServesInput(h: Lio, x: Input)
    requires WellFormed(x) && forall i, j :: 0 <= i < j < |x.luns| ==> x.luns[i].id != x.luns[j].id
    ensures var t := PlainAfter(h, Served(x, Recorded));
      && t.exported && (forall i :: 0 <= i < |x.luns| ==> Backstore(x.name, x.luns[i].id) in t.luns)
      && (t.auth <==> exists ini :: ini in x.initiators && ini.secretRef != "")
      && (x.vip != "" ==> t.vip.record == Some(x.vip))
  {
    EveryLunIsExported(h, WalkOf(x));
    AccessFollowsSpec(h, WalkOf(x), "");
  }

  /** The text of the key, part by part: generation, one LUN, one Secret that is absent or has a version. */
  lemma KeyTextOfLun(gen: nat, l: Lun)
    requires gen == 3 && l == Lun(0, "/dev/a")
    ensures "g" + Decimal(gen) == "g3" && LunText([l]) == "|0:/dev/a"
  {
    OneLunText(l);
    assert Numbered(0) == "|0:";
  }

  lemma KeyTextOfSecret(x: Input, rv: string)
    requires x.initiators == [Initiator("iqn.x", "s")] && |x.secrets| == 1
    ensures x.secrets == [Absent] ==> SecretText(x, 1) == "|s:absent"
    ensures x.secrets[0].Present? && x.secrets[0].rv == rv ==> SecretText(x, 1) == "|s:" + rv
  {
    assert SecretText(x, 0) == "";
  }

  // ---- the memo against walking every time -----------------------------------------------------

  ghost predicate AllFine(es: seq<Event>) { forall i :: 0 <= i < |es| ==> Fine(es[i]) }

  /** Every input read during the run is sound, and any two are reads of one incarnation. */
  ghost predicate OneIncarnation(es: seq<Event>) {
    AllFine(es) &&
    (forall i :: 0 <= i < |es| && es[i].view.Serve? ==> Sound(es[i].view.input)) &&
    (forall i, j :: 0 <= i < |es| && 0 <= j < |es| && es[i].view.Serve? && es[j].view.Serve? ==>
      Coherent(es[i].view.input, es[j].view.input))
  }

  ghost function MemoRun(s: Agent, es: seq<Event>): Agent
    requires AllFine(es)
  {
    if es == [] then s else MemoAfter(MemoRun(s, es[..|es| - 1]), es[|es| - 1])
  }

  ghost function PlainRun(h: Lio, es: seq<Event>): Lio
    requires AllFine(es)
  {
    if es == [] then h else PlainAfter(PlainRun(h, es[..|es| - 1]), es[|es| - 1])
  }

  /** The last walk since the memo was cleared was not recorded, or let stale LUNs linger. */
  ghost function Unreported(s: Agent, es: seq<Event>): bool
    requires AllFine(es)
  {
    if es == [] then false
    else
      var before, e := es[..|es| - 1], es[|es| - 1];
      if Forgets(e.view) then false
      else if !e.view.Serve? || Skips(MemoRun(s, before), e) then Unreported(s, before)
      else !e.outcome.Recorded?
  }

  /** Walks behave as EnsureTarget promises, and the memo skips only after a full walk that was recorded. */
  ghost predicate Eligible(s: Agent, es: seq<Event>)
    requires AllFine(es)
  {
    es == [] ||
    (var before, e := es[..|es| - 1], es[|es| - 1];
     Eligible(s, before) && Plausible(PlainRun(s.host, before), e) &&
     (Skips(MemoRun(s, before), e) ==> !Unreported(s, before)))
  }

  lemma KeysAreNonEmpty(x: Input)
    requires WellFormed(x)
    ensures Key(x) != ""
  {
  }

  /** The memo's invariant: same host as without it, and a reported key names a walk the host has converged to. */
  lemma {:induction false} MemoKeepsUp(h: Lio, es: seq<Event>) returns (last: Option<Input>)
    requires OneIncarnation(es) && Eligible(Agent(h, ""), es)
    ensures MemoRun(Agent(h, ""), es).host == PlainRun(h, es)
    ensures last.None? ==> MemoRun(Agent(h, ""), es).applied == ""
    ensures last.Some? ==>
      (exists i :: 0 <= i < |es| && es[i].view == Serve(last.value)) &&
      MemoRun(Agent(h, ""), es).applied == Key(last.value) &&
      (!Unreported(Agent(h, ""), es) ==> Walked(PlainRun(h, es), WalkOf(last.value)) == PlainRun(h, es))
    decreases |es|
  {
    if es == [] {
      return None;
    }
    var n := |es| - 1;
    var s, before, e := Agent(h, ""), es[..n], es[n];
    last := MemoKeepsUp(h, before);
    assert last.Some? ==> exists i :: 0 <= i < |es| && es[i].view == Serve(last.value) by {
      if last.Some? {
        var i :| 0 <= i < |before| && before[i].view == Serve(last.value);
        assert es[i] == before[i];
      }
    }
    if Forgets(e.view) {
      last := None;
    } else if e.view.Serve? {
      KeysAreNonEmpty(e.view.input);
      if Skips(MemoRun(s, before), e) {
        KeyDecidesWalk(last.value, e.view.input);
      } else if e.outcome.Recorded? {
        WalkIsIdempotent(PlainRun(h, before), WalkOf(e.view.input));
        last := Some(e.view.input);
      } else if e.outcome.Lingering? {
        last := Some(e.view.input);
      }
    }
  }

  /** Over any run of one incarnation, an agent that skips on an equal key has the host of one that always walks. */
  lemma SkippingIsInvisible(h: Lio, es: seq<Event>)
    requires OneIncarnation(es) && Eligible(Agent(h, ""), es)
    ensures MemoRun(Agent(h, ""), es).host == PlainRun(h, es)
  {
    var _ := MemoKeepsUp(h, es);
  }

  /** Runs in which every walk is recorded are such runs, whatever else happens. */
  lemma {:induction false} AllRecordedIsEligible(h: Lio, es: seq<Event>)
    requires AllFine(es) && forall i :: 0 <= i < |es| && es[i].view.Serve? ==> es[i].outcome.Recorded?
    ensures Eligible(Agent(h, ""), es) && !Unreported(Agent(h, ""), es)
  {
    if es != [] {
      AllRecordedIsEligible(h, es[..|es| - 1]);
    }
  }

  // ---- a walk whose status write was lost ------------------------------------------------------

  /** The walk of b leaves nothing that the walk of a would have to change. */
  ghost predicate SameEffect(a: Walk, b: Walk) {
    Wanted(a) == Wanted(b) &&
    (forall x :: IqnType(x) ==> (x in Granted(a) <==> x in Granted(b))) &&
    (forall x :: x in Granted(a) && x in a.chap && x in Granted(b) && x in b.chap ==> a.chap[x] == b.chap[x])
  }

  lemma WantedAreOwn(w: Walk)
    ensures forall b :: b in Wanted(w) ==> Prefix(w.name) <= b
  {
  }

  lemma EffectNeeded(h: Lio, a: Walk, b: Walk)
    requires a.name == b.name && a.initiators == b.initiators && a.vip == b.vip && a.dev == b.dev
    requires Walked(Walked(h, b), a) == Walked(h, b)
    ensures SameEffect(a, b)
  {
    var left := Walked(h, b);
    ConvergedFacts(left, a);
    WantedAreOwn(a);
    WantedAreOwn(b);
    assert Wanted(b) <= left.luns;
    forall x
      ensures IqnType(x) ==> (x in Granted(a) <==> x in Granted(b))
      ensures x in Granted(a) && x in a.chap && x in Granted(b) && x in b.chap ==> a.chap[x] == b.chap[x]
    {
      AclsMatchSpec(h, b, x);
    }
  }

  lemma EffectSuffices(h: Lio, a: Walk, b: Walk)
    requires a.name == b.name && a.initiators == b.initiators && a.vip == b.vip && a.dev == b.dev
    requires AclsFit(h, a) && SameEffect(a, b)
    ensures Walked(Walked(h, b), a) == Walked(h, b)
  {
    var left := Walked(h, b);
    WalkIsIdempotent(h, b);
    ConvergedFacts(left, b);
    forall x | x in Granted(a)
      ensures x in left.acls && (x in a.chap ==> left.acls[x] == a.chap[x])
    {
      AclsMatchSpec(h, b, x);
      AclsAre(h.acls, b, |b.initiators|, x);
    }
    ConvergedExactly(left, a);
  }

  /** A pass of a, a walk of b that stopped or whose status write was lost, and a pass of a again. */
  ghost function LostReport(a: Input, b: Input, left: Lio): seq<Event>
    requires WellFormed(a) && WellFormed(b)
  {
    [Served(a, Recorded), Served(b, Unrecorded(left)), Served(a, Recorded)]
  }

  lemma RunStep(s: Agent, before: seq<Event>, e: Event)
    requires AllFine(before) && Fine(e)
    ensures AllFine(before + [e])
    ensures MemoRun(s, before + [e]) == MemoAfter(MemoRun(s, before), e)
    ensures PlainRun(s.host, before + [e]) == PlainAfter(PlainRun(s.host, before), e)
  {
    assert (before + [e])[..|before|] == before;
  }

  lemma LostReportHosts(h: Lio, a: Input, b: Input, left: Lio)
    requires WellFormed(a) && WellFormed(b) && Key(a) != Key(b)
    ensures MemoRun(Agent(h, ""), LostReport(a, b, left)).host == left
    ensures PlainRun(h, LostReport(a, b, left)) == Walked(left, WalkOf(a))
  {
    var es := LostReport(a, b, left);
    var s := Agent(h, "");
    KeysAreNonEmpty(a);
    KeysAreNonEmpty(b);
    RunStep(s, [], es[0]);
    RunStep(s, [es[0]], es[1]);
    RunStep(s, [es[0], es[1]], es[2]);
    assert [] + [es[0]] == [es[0]] && [es[0]] + [es[1]] == [es[0], es[1]] && [es[0], es[1]] + [es[2]] == es;
  }

  /**
   However far the walk of b got, the memo then skips on a, and its host is right exactly when what was left
   has all that a asks for and nothing stale.
   */
  lemma StoppedWalkExactly(h: Lio, a: Input, b: Input, left: Lio)
    requires WellFormed(a) && WellFormed(b) && Key(a) != Key(b)
    ensures MemoRun(Agent(h, ""), LostReport(a, b, left)).host == PlainRun(h, LostReport(a, b, left)) <==>
      Fits(left, WalkOf(a))
  {
    LostReportHosts(h, a, b, left);
    ConvergedExactly(left, WalkOf(a));
  }

  /** For a walk of b that finished, that is a matter of the two inputs alone. */
  lemma LostReportExactly(h: Lio, a: Input, b: Input)
    requires WellFormed(a) && WellFormed(b) && a.gen == b.gen && Coherent(a, b) && Key(a) != Key(b)
    ensures var left := Walked(Walked(h, WalkOf(a)), WalkOf(b));
      MemoRun(Agent(h, ""), LostReport(a, b, left)).host == PlainRun(h, LostReport(a, b, left)) <==>
      SameEffect(WalkOf(a), WalkOf(b))
  {
    var w := Walked(h, WalkOf(a));
    var left := Walked(w, WalkOf(b));
    LostReportHosts(h, a, b, left);
    if Walked(left, WalkOf(a)) == left {
      EffectNeeded(w, WalkOf(a), WalkOf(b));
    }
    if SameEffect(WalkOf(a), WalkOf(b)) {
      WalkIsIdempotent(h, WalkOf(a));
      ConvergedFacts(w, WalkOf(a));
      EffectSuffices(w, WalkOf(a), WalkOf(b));
    }
  }

  /**
   A recorded walk that let LUNs linger is never retried while its key stands; skipping is right exactly if nothing of
   the target's lingers.
   */
  lemma LingeringExactly(h: Lio, a: Input, stuck: Stuck)
    requires WellFormed(a)
    ensures var left := WalkedBut(h, WalkOf(a), stuck);
      var es := [Served(a, Lingering(left)), Served(a, Recorded)];
      MemoRun(Agent(h, ""), es).host == PlainRun(h, es) <==> stuck.luns !! Stale(h.luns + Wanted(WalkOf(a)), WalkOf(a))
  {
    var w := WalkOf(a);
    var left := WalkedBut(h, w, stuck);
    var es := [Served(a, Lingering(left)), Served(a, Recorded)];
    var s := Agent(h, "");
    KeysAreNonEmpty(a);
    RunStep(s, [], es[0]);
    RunStep(s, [es[0]], es[1]);
    assert [] + [es[0]] == [es[0]] && [es[0]] + [es[1]] == es;
    LeftoverFits(h, w, stuck);
    ConvergedExactly(left, w);
  }

  lemma LeftoverFits(h: Lio, w: Walk, stuck: Stuck)
    ensures Fits(WalkedBut(h, w, stuck), w) <==> stuck.luns !! Stale(h.luns + Wanted(w), w)
  {
    var left, gone := WalkedBut(h, w, stuck), Stale(h.luns + Wanted(w), w);
    WalkIsIdempotent(h, w);
    ConvergedFacts(Walked(h, w), w);
    StoresCover(h.backstores, w, |w.luns|);
    assert Wanted(w) <= left.backstores.Keys && Wanted(w) <= left.luns;
    forall b
      ensures b in Stale(left.luns, w) <==> b in gone && b in stuck.luns
    {
    }
  }
}
