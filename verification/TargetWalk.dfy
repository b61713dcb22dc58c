/**
 The targetcli walk of internal/agent/lio.go for one target, over an abstract
 LIO configuration. `ensure` tolerates an existing object, so an existing
 backstore keeps its device.
 */
module TargetWalk {
  import opened Text
  import opened Wrappers
  import VipRecord

  datatype Cred = NoCred | Cred(user: string, password: string)

  datatype Initiator = Initiator(iqn: string, secretRef: string)

  datatype Lun = Lun(id: nat, device: string)

  /** Everything EnsureTarget reads: LUNs from status, initiators from spec, credentials by initiator. */
  datatype Walk = Walk(
    name: string, luns: seq<Lun>, initiators: seq<Initiator>, chap: map<string, Cred>,
    vip: string, dev: string)   // `dev` is the interface of the default route

  /** `luns` are the backstores mapped into this target's portal group; `vip` is its address and the record of it. */
  datatype Lio = Lio(
    exported: bool, backstores: map<string, string>, luns: set<string>, acls: map<string, Cred>, auth: bool,
    vip: VipRecord.Host)

  function Prefix(name: string): string { "stornas-" + name + "-lun" }

  function Backstore(name: string, id: nat): string { Prefix(name) + Decimal(id) }

  /** The iqn. name type of section 4.2.7 of RFC 7143, the only one pruning looks at. */
  predicate IqnType(a: string) { "iqn." <= a }

  predicate Admits(w: Walk, ini: Initiator) { ini.secretRef == "" || ini.iqn in w.chap }

  function Granted(w: Walk): set<string> {
    set i | 0 <= i < |w.initiators| && Admits(w, w.initiators[i]) :: w.initiators[i].iqn
  }

  predicate NeedsAuth(w: Walk) {
    exists i :: 0 <= i < |w.initiators| && w.initiators[i].secretRef != ""
  }

  function WantedUpTo(w: Walk, n: nat): set<string>
    requires n <= |w.luns|
  {
    set i | 0 <= i < n :: Backstore(w.name, w.luns[i].id)
  }

  function Wanted(w: Walk): set<string> { WantedUpTo(w, |w.luns|) }

  lemma WantedGrows(w: Walk, n: nat)
    requires n < |w.luns|
    ensures WantedUpTo(w, n + 1) == WantedUpTo(w, n) + {Backstore(w.name, w.luns[n].id)}
  {
  }

  function StoresUpTo(stores: map<string, string>, w: Walk, n: nat): map<string, string>
    requires n <= |w.luns|
  {
    if n == 0 then stores
    else
      var before, b := StoresUpTo(stores, w, n - 1), Backstore(w.name, w.luns[n - 1].id);
      if b in before then before else before[b := w.luns[n - 1].device]
  }

  /** The first n LUNs given a backstore and mapped, one after the other. */
  function Mapped(h: Lio, w: Walk, n: nat): Lio
    requires n <= |w.luns|
  {
    if n == 0 then h
    else
      var m, b := Mapped(h, w, n - 1), Backstore(w.name, w.luns[n - 1].id);
      m.(backstores := if b in m.backstores then m.backstores else m.backstores[b := w.luns[n - 1].device],
         luns := m.luns + {b})
  }

  function AclsUpTo(acls: map<string, Cred>, w: Walk, n: nat): map<string, Cred>
    requires n <= |w.initiators|
  {
    if n == 0 then acls
    else
      var before, ini := AclsUpTo(acls, w, n - 1), w.initiators[n - 1];
      if !Admits(w, ini) then before
      else if ini.iqn in w.chap then before[ini.iqn := w.chap[ini.iqn]]
      else if ini.iqn in before then before
      else before[ini.iqn := NoCred]
  }

  function Kept(acls: map<string, Cred>, granted: set<string>): map<string, Cred> {
    map a | a in acls && (!IqnType(a) || a in granted) :: acls[a]
  }

  function Stale(luns: set<string>, w: Walk): set<string> {
    set b | b in luns && Prefix(w.name) <= b && b !in Wanted(w)
  }

  /** The configuration a walk without errors leaves. */
  function Walked(h: Lio, w: Walk): Lio {
    var luns := h.luns + Wanted(w);
    Lio(true,
        StoresUpTo(h.backstores, w, |w.luns|) - Stale(luns, w),
        luns - Stale(luns, w),
        Kept(AclsUpTo(h.acls, w, |w.initiators|), Granted(w)),
        NeedsAuth(w),
        if w.vip == "" then h.vip else VipRecord.Claimed(h.vip, w.vip, w.dev, true))
  }

  /** Removals of stale LUNs and backstores that fail are let pass. */
  datatype Stuck = Stuck(luns: set<string>, stores: set<string>)

  /** The configuration a walk without a reported error leaves. */
  function WalkedBut(h: Lio, w: Walk, stuck: Stuck): Lio {
    var luns := h.luns + Wanted(w);
    Walked(h, w).(luns := luns - (Stale(luns, w) - stuck.luns),
                  backstores := StoresUpTo(h.backstores, w, |w.luns|) - (Stale(luns, w) - stuck.stores))
  }

  function Released(h: Lio): Lio {
    h.(vip := VipRecord.Released(h.vip, {}))
  }

  /** The backstores RemoveTarget takes for this target's. */
  function Own(h: Lio, name: string): set<string> {
    set b | b in h.backstores && Prefix(name) <= b
  }

  function Unexported(h: Lio): Lio {
    h.(exported := false, luns := {}, acls := map[], auth := false)
  }

  /** Removals of the target and of backstores that fail are only logged. */
  datatype Refused = Refused(target: bool, stores: set<string>)

  /** RemoveTarget: all that is known of the target is its name. A deleted backstore takes its LUN with it. */
  function RemovedBut(h: Lio, name: string, no: Refused): Lio {
    var gone := Own(h, name) - no.stores;
    var rest := if h.exported && no.target then h.(luns := h.luns - gone) else Unexported(h);
    Released(rest.(backstores := h.backstores - gone))
  }

  /** TeardownTarget: a target that is not exported is taken as already removed. */
  function TornDownBut(h: Lio, name: string, vip: string, no: Refused): Lio {
    var gone := if h.exported then RemovedBut(h, name, no) else h;
    Released(if vip == "" then gone else gone.(vip := VipRecord.Dropped(gone.vip, vip, {})))
  }

  const Nothing := Refused(false, {})

  function Removed(h: Lio, name: string): Lio { RemovedBut(h, name, Nothing) }

  function TornDown(h: Lio, name: string, vip: string): Lio { TornDownBut(h, name, vip, Nothing) }

  /** A number of host commands that is enough for any walk from `h`. */
  function Cost(h: Lio, w: Walk): nat {
    2 * |w.luns| + 2 * |w.initiators| + |AclsUpTo(h.acls, w, |w.initiators|)| + 5
  }

  predicate LunsFit(h: Lio, w: Walk) {
    Wanted(w) <= h.backstores.Keys && Wanted(w) <= h.luns
  }

  predicate AclsFit(h: Lio, w: Walk) {
    Granted(w) <= h.acls.Keys && forall a :: a in Granted(w) && a in w.chap ==> h.acls[a] == w.chap[a]
  }

  function Pruned(h: Lio, gone: set<string>, stuck: Stuck): Lio {
    h.(luns := h.luns - (gone - stuck.luns), backstores := h.backstores - (gone - stuck.stores))
  }

  lemma PrunedStep(h: Lio, done: set<string>, b: string, stuck: Stuck)
    ensures Pruned(Pruned(h, done, stuck), {b}, stuck) == Pruned(h, done + {b}, stuck)
  {
    var t, u := Pruned(Pruned(h, done, stuck), {b}, stuck), Pruned(h, done + {b}, stuck);
    assert t.luns == u.luns;
    assert t.backstores == u.backstores;
  }

  class LioManager {
    var state: Lio

    constructor (h: Lio)
      ensures state == h
    {
      state := h;
    }

    method EnsureLuns(w: Walk, commands: nat) returns (ok: bool, left: nat)
      modifies this
      ensures ok ==>
        state == old(state).(backstores := StoresUpTo(old(state).backstores, w, |w.luns|),
                             luns := old(state).luns + Wanted(w))
      ensures commands >= 2 * |w.luns| ==> ok && left == commands - 2 * |w.luns|
      ensures LunsFit(old(state), w) ==> state == old(state)
    {
      left := commands;
      for i := 0 to |w.luns|
        invariant left == commands - 2 * i
        invariant state == Mapped(old(state), w, i)
      {
        if left < 2 {
          LunsStay(old(state), w, i);
          return false, left;
        }
        left := left - 2;
        var b := Backstore(w.name, w.luns[i].id);
        if b !in state.backstores {
          state := state.(backstores := state.backstores[b := w.luns[i].device]);
        }
        state := state.(luns := state.luns + {b});
      }
      MappedStores(old(state), w, |w.luns|);
      MappedLuns(old(state), w, |w.luns|);
      LunsStay(old(state), w, |w.luns|);
      return true, left;
    }

    method EnsureAcls(w: Walk, commands: nat) returns (ok: bool, left: nat, auth: bool, granted: set<string>)
      modifies this
      ensures ok ==> state == old(state).(acls := AclsUpTo(old(state).acls, w, |w.initiators|))
      ensures ok ==> auth == NeedsAuth(w) && granted == Granted(w)
      ensures commands >= 2 * |w.initiators| ==> ok && left >= commands - 2 * |w.initiators|
      ensures AclsFit(old(state), w) ==> state == old(state)
    {
      left, auth, granted := commands, false, {};
      for i := 0 to |w.initiators|
        invariant left >= commands - 2 * i
        invariant auth == exists k :: 0 <= k < i && w.initiators[k].secretRef != ""
        invariant granted == set k | 0 <= k < i && Admits(w, w.initiators[k]) :: w.initiators[k].iqn
        invariant state == old(state).(acls := AclsUpTo(old(state).acls, w, i))
      {
        var ini := w.initiators[i];
        if ini.secretRef != "" {
          auth := true;
        }
        if ini.secretRef != "" && ini.iqn !in w.chap {
          continue;
        }
        if left < 2 {
          if AclsFit(old(state), w) {
            AclsSettled(old(state).acls, w, i);
          }
          return false, left, auth, granted;
        }
        left := left - 2;
        ghost var before := state.acls;
        if ini.iqn !in state.acls {
          state := state.(acls := state.acls[ini.iqn := NoCred]);
        }
        granted := granted + {ini.iqn};
        if ini.iqn in w.chap {
          state := state.(acls := state.acls[ini.iqn := w.chap[ini.iqn]]);
          assert state.acls == before[ini.iqn := w.chap[ini.iqn]];
        }
      }
      if AclsFit(old(state), w) {
        AclsSettled(old(state).acls, w, |w.initiators|);
      }
      return true, left, auth, granted;
    }

    /**
     Deletes every iqn.-type ACL that was not granted, in the order the host lists them; a failing delete surfaces.
     */
    method PruneAcls(granted: set<string>, commands: nat) returns (ok: bool, left: nat)
      modifies this
      ensures ok ==> state == old(state).(acls := Kept(old(state).acls, granted))
      ensures commands >= |old(state).acls| ==> ok && left >= commands - |old(state).acls|
      ensures (forall a :: a in old(state).acls && IqnType(a) ==> a in granted) ==> state == old(state)
    {
      left := commands;
      var todo := state.acls.Keys;
      while todo != {}
        invariant left >= commands - (|old(state).acls| - |todo|)
        invariant (forall a :: a in old(state).acls && IqnType(a) ==> a in granted) ==> state == old(state)
        invariant todo <= state.acls.Keys <= old(state).acls.Keys
        invariant state == old(state).(acls := state.acls)
        invariant forall a :: a in old(state).acls ==>
          (a in state.acls <==> a in todo || !IqnType(a) || a in granted) &&
          (a in state.acls ==> state.acls[a] == old(state).acls[a])
        decreases |todo|
      {
        var a :| a in todo;
        todo := todo - {a};
        if !IqnType(a) || a in granted {
          continue;
        }
        if left == 0 {
          return false, left;
        }
        left := left - 1;
        state := state.(acls := state.acls - {a});
      }
      assert state.acls == Kept(old(state).acls, granted);
      return true, left;
    }

    method PruneLuns(w: Walk, stuck: Stuck)
      modifies this
      ensures state == Pruned(old(state), Stale(old(state).luns, w), stuck)
    {
      var want: set<string> := {};
      for i := 0 to |w.luns|
        invariant want == set k | 0 <= k < i :: Backstore(w.name, w.luns[k].id)
      {
        want := want + {Backstore(w.name, w.luns[i].id)};
      }
      PruneListed(w, want, stuck);
    }

    /** Visits the mapped LUNs as listed before the first removal. */
    method PruneListed(w: Walk, want: set<string>, stuck: Stuck)
      requires want == Wanted(w)
      modifies this
      ensures state == Pruned(old(state), Stale(old(state).luns, w), stuck)
    {
      var todo := state.luns;
      ghost var done: set<string> := {};
      while todo != {}
        invariant todo <= old(state).luns
        invariant forall b :: b in done <==> b in Stale(old(state).luns, w) && b !in todo
        invariant state == Pruned(old(state), done, stuck)
        decreases |todo|
      {
        var b :| b in todo;
        todo := todo - {b};
        if !(Prefix(w.name) <= b) || b in want {
          continue;
        }
        PrunedStep(old(state), done, b, stuck);
        RemoveLun(b, stuck);
        done := done + {b};
      }
      assert done == Stale(old(state).luns, w);
    }

    method RemoveLun(b: string, stuck: Stuck)
      modifies this
      ensures state == Pruned(old(state), {b}, stuck)
    {
      if b !in stuck.luns {
        state := state.(luns := state.luns - {b});
      }
      if b !in stuck.stores {
        state := state.(backstores := state.backstores - {b});
      }
      assert ({b} - stuck.luns) == if b in stuck.luns then {} else {b};
      assert ({b} - stuck.stores) == if b in stuck.stores then {} else {b};
      assert old(state).luns - {} == old(state).luns && old(state).backstores - {} == old(state).backstores;
    }

    /** Host commands run in order; the first failing one stops the walk and surfaces. */
    method EnsureTarget(w: Walk, commands: nat, stuck: Stuck) returns (ok: bool)
      modifies this
      ensures ok ==> state == WalkedBut(old(state), w, stuck)
      ensures ok && stuck == Stuck({}, {}) ==> state == Walked(old(state), w)
      ensures commands >= Cost(old(state), w) ==> ok
      ensures Walked(old(state), w) == old(state) ==> state == old(state)
    {
      if Walked(state, w) == state {
        ConvergedFacts(state, w);
      }
      if commands == 0 {
        return false;
      }
      state := state.(exported := true);
      var left, auth, granted;
      ok, left := EnsureLuns(w, commands - 1);
      if !ok {
        return;
      }
      ok, left, auth, granted := EnsureAcls(w, left);
      if !ok || left == 0 {
        return false;
      }
      state := state.(auth := auth);
      ok, left := PruneAcls(granted, left - 1);
      if !ok {
        return;
      }
      PruneLuns(w, stuck);
      NothingStuck(old(state), w, stuck);
      if w.vip != "" {
        if left < 2 {
          return false;
        }
        left := left - 2;
        state := state.(vip := state.vip.(record := Some(w.vip)));
        state := state.(vip := state.vip.(addrs := state.vip.addrs + {VipRecord.Held(w.dev, w.vip)}));
      }
      return left > 0;
    }

    method ReleaseVip()
      modifies this
      ensures state == Released(old(state))
    {
      if state.vip.record.None? {
        return;
      }
      state := state.(vip := VipRecord.Dropped(state.vip, state.vip.record.value, {}));
      state := state.(vip := state.vip.(record := None));
    }

    /** Backstores are found by name prefix, because the Target object is already gone. */
    method RemoveTarget(name: string, no: Refused)
      modifies this
      ensures state == RemovedBut(old(state), name, no)
    {
      if !(state.exported && no.target) {
        state := state.(exported := false, luns := {}, acls := map[], auth := false);
      }
      ghost var h := state;
      assert Own(h, name) == Own(old(state), name);
      var gone := Own(state, name) - no.stores;
      RemoveStores(gone);
      assert gone - {} == gone && {} - gone == {};
      ReleaseVip();
    }

    /** Deletes the listed backstores one by one. */
    method RemoveStores(stores: set<string>)
      modifies this
      ensures state == Pruned(old(state), stores, Stuck({}, {}))
    {
      var todo := stores;
      ghost var gone: set<string> := {};
      while todo != {}
        invariant gone + todo == stores
        invariant state == Pruned(old(state), gone, Stuck({}, {}))
        decreases |todo|
      {
        var b :| b in todo;
        todo := todo - {b};
        PrunedStep(old(state), gone, b, Stuck({}, {}));
        RemoveLun(b, Stuck({}, {}));
        gone := gone + {b};
      }
      assert gone == stores;
    }

    method TeardownTarget(name: string, vip: string, no: Refused)
      modifies this
      ensures state == TornDownBut(old(state), name, vip, no)
    {
      if state.exported {
        RemoveTarget(name, no);
      }
      if vip != "" {
        state := state.(vip := VipRecord.Dropped(state.vip, vip, {}));
      }
      ReleaseVip();
    }
  }

  // ---- what a walk guarantees -------------------------------------------------------------

  lemma {:induction false} AclsAre(acls: map<string, Cred>, w: Walk, n: nat, a: string)
    requires n <= |w.initiators|
    ensures a in AclsUpTo(acls, w, n) <==>
      a in acls || exists i :: 0 <= i < n && w.initiators[i].iqn == a && Admits(w, w.initiators[i])
    ensures (exists i :: 0 <= i < n && w.initiators[i].iqn == a && Admits(w, w.initiators[i])) && a in w.chap ==>
      AclsUpTo(acls, w, n)[a] == w.chap[a]
    ensures a in acls && a !in w.chap ==> AclsUpTo(acls, w, n)[a] == acls[a]
    ensures a in acls && !(exists i :: 0 <= i < n && w.initiators[i].iqn == a && Admits(w, w.initiators[i])) ==>
      AclsUpTo(acls, w, n)[a] == acls[a]
  {
    if n > 0 {
      AclsAre(acls, w, n - 1, a);
      if w.initiators[n - 1].iqn != a || !Admits(w, w.initiators[n - 1]) {
        assert (exists i :: 0 <= i < n && w.initiators[i].iqn == a && Admits(w, w.initiators[i])) <==>
               (exists i :: 0 <= i < n - 1 && w.initiators[i].iqn == a && Admits(w, w.initiators[i]));
      }
    }
  }

  /**
   Whatever was there before: the iqn.-type ACLs are exactly the admitted initiators, each CHAP one with its credential.
   */
  lemma AclsMatchSpec(h: Lio, w: Walk, a: string)
    ensures IqnType(a) ==> (a in Walked(h, w).acls <==> a in Granted(w))
    ensures a in Granted(w) ==> a in Walked(h, w).acls
    ensures a in Granted(w) && a in w.chap ==> Walked(h, w).acls[a] == w.chap[a]
  {
    AclsAre(h.acls, w, |w.initiators|, a);
  }

  /** An ACL of another name type is never revoked. */
  lemma OtherNameTypesLinger(h: Lio, w: Walk, a: string)
    requires a in h.acls && !IqnType(a)
    ensures a in Walked(h, w).acls
  {
    AclsAre(h.acls, w, |w.initiators|, a);
  }

  lemma {:induction false} StoresSettled(stores: map<string, string>, w: Walk, n: nat)
    requires n <= |w.luns| && Wanted(w) <= stores.Keys
    ensures StoresUpTo(stores, w, n) == stores
  {
    if n > 0 {
      StoresSettled(stores, w, n - 1);
      assert Backstore(w.name, w.luns[n - 1].id) in Wanted(w);
    }
  }

  lemma {:induction false} StoresCover(stores: map<string, string>, w: Walk, n: nat)
    requires n <= |w.luns|
    ensures forall i :: 0 <= i < n ==> Backstore(w.name, w.luns[i].id) in StoresUpTo(stores, w, n)
  {
    if n > 0 {
      StoresCover(stores, w, n - 1);
    }
  }

  lemma {:induction false} AclsSettled(acls: map<string, Cred>, w: Walk, n: nat)
    requires n <= |w.initiators| && Granted(w) <= acls.Keys
    requires forall a :: a in Granted(w) && a in w.chap ==> acls[a] == w.chap[a]
    ensures AclsUpTo(acls, w, n) == acls
  {
    if n > 0 {
      AclsSettled(acls, w, n - 1);
      var ini := w.initiators[n - 1];
      if Admits(w, ini) {
        assert ini.iqn in Granted(w);
        assert acls[ini.iqn := acls[ini.iqn]] == acls;
      }
    }
  }

  lemma {:induction false} MappedStores(h: Lio, w: Walk, n: nat)
    requires n <= |w.luns|
    ensures Mapped(h, w, n) == h.(backstores := StoresUpTo(h.backstores, w, n), luns := Mapped(h, w, n).luns)
  {
    if n > 0 {
      MappedStores(h, w, n - 1);
    }
  }

  lemma UnionAssociates(a: set<string>, b: set<string>, c: set<string>)
    ensures (a + b) + c == a + (b + c)
  {
  }

  lemma {:induction false} MappedLuns(h: Lio, w: Walk, n: nat)
    requires n <= |w.luns|
    ensures Mapped(h, w, n).luns == h.luns + WantedUpTo(w, n)
  {
    if n == 0 {
      assert WantedUpTo(w, 0) == {};
    } else {
      MappedLuns(h, w, n - 1);
      WantedGrows(w, n - 1);
      UnionAssociates(h.luns, WantedUpTo(w, n - 1), {Backstore(w.name, w.luns[n - 1].id)});
    }
  }

  lemma {:induction false} LunsStay(h: Lio, w: Walk, n: nat)
    requires n <= |w.luns|
    ensures LunsFit(h, w) ==> Mapped(h, w, n) == h
  {
    if LunsFit(h, w) && n > 0 {
      LunsStay(h, w, n - 1);
      assert Backstore(w.name, w.luns[n - 1].id) in Wanted(w);
      assert h.luns + {Backstore(w.name, w.luns[n - 1].id)} == h.luns;
    }
  }

  lemma NothingStuck(h: Lio, w: Walk, stuck: Stuck)
    ensures stuck.luns !! Stale(h.luns + Wanted(w), w) && stuck.stores !! Stale(h.luns + Wanted(w), w) ==>
      WalkedBut(h, w, stuck) == Walked(h, w)
  {
    var gone := Stale(h.luns + Wanted(w), w);
    if stuck.luns !! gone && stuck.stores !! gone {
      assert gone - stuck.luns == gone && gone - stuck.stores == gone;
    }
  }

  /** What a host needs so that the walk finds nothing to do. */
  ghost predicate Fits(h: Lio, w: Walk) {
    && h.exported && LunsFit(h, w) && Stale(h.luns, w) == {}
    && AclsFit(h, w) && (forall a :: a in h.acls && IqnType(a) ==> a in Granted(w)) && h.auth == NeedsAuth(w)
    && (w.vip != "" ==> VipRecord.Held(w.dev, w.vip) in h.vip.addrs && h.vip.record == Some(w.vip))
  }

  lemma ConvergedFacts(h: Lio, w: Walk)
    requires Walked(h, w) == h
    ensures Fits(h, w)
  {
    StoresCover(h.backstores, w, |w.luns|);
    forall a | a in Granted(w)
      ensures a in h.acls && (a in w.chap ==> h.acls[a] == w.chap[a])
    {
      AclsMatchSpec(h, w, a);
    }
  }

  /** A walk changes nothing exactly on a host that already has all of it and nothing stale. */
  lemma ConvergedExactly(h: Lio, w: Walk)
    ensures Walked(h, w) == h <==> Fits(h, w)
  {
    if Walked(h, w) == h {
      ConvergedFacts(h, w);
    }
    if Fits(h, w) {
      StoresSettled(h.backstores, w, |w.luns|);
      AclsSettled(h.acls, w, |w.initiators|);
      assert h.luns + Wanted(w) == h.luns;
      assert h.backstores - {} == h.backstores;
      assert Kept(h.acls, Granted(w)) == h.acls;
      assert w.vip != "" ==> h.vip.addrs + {VipRecord.Held(w.dev, w.vip)} == h.vip.addrs;
    }
  }

  /** A second walk with the same input changes nothing. */
  lemma WalkIsIdempotent(h: Lio, w: Walk)
    ensures Walked(Walked(h, w), w) == Walked(h, w)
  {
    var t := Walked(h, w);
    StoresCover(h.backstores, w, |w.luns|);
    forall a | a in Granted(w)
      ensures a in t.acls && (a in w.chap ==> t.acls[a] == w.chap[a])
    {
      AclsMatchSpec(h, w, a);
    }
    ConvergedExactly(t, w);
  }

  /**
   A torn-down target has no export, no record, and neither the spec's address nor the recorded one; repeating changes
   nothing.
   */
  lemma TeardownIsIdempotent(h: Lio, name: string, vip: string)
    ensures var t := TornDown(h, name, vip);
      && TornDown(t, name, vip) == t && !t.exported && t.vip.record.None?
      && (vip != "" ==> VipRecord.Holders(t.vip, vip) == {})
      && (h.vip.record.Some? ==> VipRecord.Holders(t.vip, h.vip.record.value) == {})
  {
    var t := TornDown(h, name, vip);
    assert vip != "" ==> VipRecord.Dropped(t.vip, vip, {}) == t.vip;
  }

  /** But a backstore of the target, and with it the DRBD device, is given up only if the export was still there. */
  lemma TeardownLeavesExactly(h: Lio, name: string, vip: string)
    ensures Own(TornDown(h, name, vip), name) == {} <==> h.exported || Own(h, name) == {}
  {
    var t := TornDown(h, name, vip);
    assert h.exported ==> t.backstores == h.backstores - Own(h, name);
    assert !h.exported ==> t.backstores == h.backstores;
    assert Own(t, name) == if h.exported then {} else Own(h, name);
  }

  /** What a removal leaves when some of its commands fail. */
  lemma RemovalLeavesExactly(h: Lio, name: string, no: Refused)
    ensures var t := RemovedBut(h, name, no);
      && Own(t, name) == Own(h, name) * no.stores && (t.exported <==> h.exported && no.target)
      && (!t.exported ==> t.luns == {} && t.acls == map[])
      && (forall b :: b in h.backstores && b !in Own(h, name) ==>
        b in t.backstores && t.backstores[b] == h.backstores[b])
    ensures var t := RemovedBut(h, name, no);
      && t.vip.record.None?
      && (forall p :: p in t.vip.addrs <==> p in h.vip.addrs && h.vip.record != Some(p.vip))
  {
  }

  /** A removal stopped after the target's own deletion, with only the backstores in `gone` deleted. */
  function Stopped(h: Lio, gone: set<string>): Lio {
    Unexported(h).(backstores := h.backstores - gone)
  }

  /** A rerun of RemoveTarget ends where an uninterrupted one would have. */
  lemma RemovalRerunConverges(h: Lio, name: string, gone: set<string>)
    requires gone <= Own(h, name)
    ensures Removed(Stopped(h, gone), name) == Removed(h, name)
  {
    var s := Stopped(h, gone);
    assert Own(s, name) == Own(h, name) - gone;
    assert s.backstores - (Own(s, name) - {}) == h.backstores - (Own(h, name) - {});
  }

  /** A rerun of TeardownTarget does so only if no backstore was left: it finds no export and looks no further. */
  lemma TeardownRerunExactly(h: Lio, name: string, vip: string, gone: set<string>)
    requires h.exported && gone <= Own(h, name)
    ensures TornDown(Stopped(h, gone), name, vip) == TornDown(h, name, vip) <==> gone == Own(h, name)
  {
    var t, u := TornDown(Stopped(h, gone), name, vip), TornDown(h, name, vip);
    assert t.backstores == h.backstores - gone && u.backstores == h.backstores - Own(h, name);
    if gone != Own(h, name) {
      var b :| b in Own(h, name) && b !in gone;
      assert b in t.backstores && b !in u.backstores;
    }
  }

  // ---- what a walk leaves, on the spec's own fields ------------------------------------------

  lemma BackstoresDiffer(name: string, i: nat, j: nat)
    requires Backstore(name, i) == Backstore(name, j)
    ensures i == j
  {
    assert Decimal(i) == Backstore(name, i)[|Prefix(name)|..] && Decimal(j) == Backstore(name, j)[|Prefix(name)|..];
    DecimalInjective(i, j);
  }

  lemma BackstoreText()
    ensures Backstore("db", 0) == "stornas-db-lun0" && Backstore("db", 12) == "stornas-db-lun12"
  {
    assert Decimal(12) == Decimal(1) + "2";
  }

  ghost predicate DistinctIds(w: Walk) {
    forall i, j :: 0 <= i < j < |w.luns| ==> w.luns[i].id != w.luns[j].id
  }

  /** The backstore is there, with its old device if it had one and the given one if it is new. */
  ghost predicate Stored(before: map<string, string>, after: map<string, string>, b: string, device: string) {
    b in after && after[b] == if b in before then before[b] else device
  }

  lemma {:induction false} NewStoresHoldDevices(stores: map<string, string>, w: Walk, n: nat, i: nat)
    requires DistinctIds(w) && i < n <= |w.luns|
    ensures var b := Backstore(w.name, w.luns[i].id);
      Stored(stores, StoresUpTo(stores, w, n), b, w.luns[i].device)
  {
    StoresKeep(stores, w, n - 1);
    var b := Backstore(w.name, w.luns[n - 1].id);
    if i < n - 1 {
      NewStoresHoldDevices(stores, w, n - 1, i);
      if Backstore(w.name, w.luns[i].id) == b {
        BackstoresDiffer(w.name, w.luns[i].id, w.luns[n - 1].id);
      }
    } else if b !in stores {
      NotYetStored(stores, w, n - 1, w.luns[n - 1].id);
    }
  }

  lemma {:induction false} StoresKeep(stores: map<string, string>, w: Walk, n: nat)
    requires n <= |w.luns|
    ensures forall b :: b in stores ==> b in StoresUpTo(stores, w, n) && StoresUpTo(stores, w, n)[b] == stores[b]
  {
    if n > 0 {
      StoresKeep(stores, w, n - 1);
    }
  }

  lemma {:induction false} NotYetStored(stores: map<string, string>, w: Walk, n: nat, id: nat)
    requires n <= |w.luns| && Backstore(w.name, id) !in stores && forall k :: 0 <= k < n ==> w.luns[k].id != id
    ensures Backstore(w.name, id) !in StoresUpTo(stores, w, n)
  {
    if n > 0 {
      NotYetStored(stores, w, n - 1, id);
      if Backstore(w.name, w.luns[n - 1].id) == Backstore(w.name, id) {
        BackstoresDiffer(w.name, w.luns[n - 1].id, id);
      }
    }
  }

  /**
   After a walk every LUN of the spec is mapped through a backstore of its own, a new one holding that LUN's
   device, and no other backstore of the target is mapped; what is not the target's stays.
   */
  lemma EveryLunIsExported(h: Lio, w: Walk)
    requires DistinctIds(w)
    ensures var t := Walked(h, w);
      && t.exported
      && (forall i :: 0 <= i < |w.luns| ==>
            var b := "stornas-" + w.name + "-lun" + Decimal(w.luns[i].id);
            b in t.luns && Stored(h.backstores, t.backstores, b, w.luns[i].device))
      && (forall i, j :: 0 <= i < j < |w.luns| ==>
            Backstore(w.name, w.luns[i].id) != Backstore(w.name, w.luns[j].id))
      && (forall b :: b in t.luns && "stornas-" + w.name + "-lun" <= b ==>
            exists i :: 0 <= i < |w.luns| && b == Backstore(w.name, w.luns[i].id))
      && (forall b :: !("stornas-" + w.name + "-lun" <= b) ==>
            (b in t.luns <==> b in h.luns) && (b in t.backstores <==> b in h.backstores) &&
            (b in h.backstores ==> t.backstores[b] == h.backstores[b]))
  {
    var t := Walked(h, w);
    StoresKeep(h.backstores, w, |w.luns|);
    StoresAreWanted(h.backstores, w, |w.luns|);
    forall i | 0 <= i < |w.luns|
      ensures var b := Backstore(w.name, w.luns[i].id);
        b in t.luns && Stored(h.backstores, t.backstores, b, w.luns[i].device)
    {
      NewStoresHoldDevices(h.backstores, w, |w.luns|, i);
    }
    forall i, j | 0 <= i < j < |w.luns|
      ensures Backstore(w.name, w.luns[i].id) != Backstore(w.name, w.luns[j].id)
    {
      if Backstore(w.name, w.luns[i].id) == Backstore(w.name, w.luns[j].id) {
        BackstoresDiffer(w.name, w.luns[i].id, w.luns[j].id);
      }
    }
  }

  lemma {:induction false} StoresAreWanted(stores: map<string, string>, w: Walk, n: nat)
    requires n <= |w.luns|
    ensures forall b :: b in StoresUpTo(stores, w, n) && b !in stores ==> Prefix(w.name) <= b
  {
    if n > 0 {
      StoresAreWanted(stores, w, n - 1);
    }
  }

  /**
   The iqn.-type ACLs are the initiators without a Secret or with a credential, authentication follows the spec, the VIP
   is up and recorded.
   */
  lemma AccessFollowsSpec(h: Lio, w: Walk, a: string)
    ensures var t := Walked(h, w);
      && (|a| >= 4 && a[..4] == "iqn." ==>
            (a in t.acls <==>
              exists ini :: ini in w.initiators && ini.iqn == a && (ini.secretRef == "" || a in w.chap)))
      && (a in w.chap && (exists ini :: ini in w.initiators && ini.iqn == a) ==> a in t.acls && t.acls[a] == w.chap[a])
      && (t.auth <==> exists ini :: ini in w.initiators && ini.secretRef != "")
      && (w.vip != "" ==> VipRecord.Held(w.dev, w.vip) in t.vip.addrs && t.vip.record == Some(w.vip))
      && (w.vip == "" ==> t.vip == h.vip)
  {
    var t := Walked(h, w);
    AclsMatchSpec(h, w, a);
    assert a in Granted(w) <==>
      exists ini :: ini in w.initiators && ini.iqn == a && (ini.secretRef == "" || a in w.chap);
    if |a| >= 4 && a[..4] == "iqn." {
      assert IqnType(a);
    }
    assert NeedsAuth(w) <==> exists ini :: ini in w.initiators && ini.secretRef != "";
  }

  // ---- removal by prefix -------------------------------------------------------------------

  lemma PrefixCancels(x: string, a: string, b: string)
    ensures x + a <= x + b <==> a <= b
  {
    if x + a <= x + b {
      assert (x + b)[|x|..] == b && (x + a)[|x|..] == a;
      assert forall i :: 0 <= i < |a| ==> a[i] == (x + a)[|x| + i] == (x + b)[|x| + i] == b[i];
    }
    if a <= b {
      assert x + b == x + a + b[|a|..];
    }
  }

  /**
   Removing one target takes another's backstores with it exactly when the other name extends this one with "-lun".
   */
  lemma RemovalReaches(name: string, other: string, id: nat)
    ensures Prefix(name) <= Backstore(other, id) <==> other == name || name + "-lun" <= other
  {
    var tail := "-lun" + Decimal(id);
    assert Prefix(name) == "stornas-" + (name + "-lun");
    assert Backstore(other, id) == "stornas-" + (other + tail);
    PrefixCancels("stornas-", name + "-lun", other + tail);
    if name + "-lun" <= other {
      assert other + tail == (name + "-lun") + (other[|name| + 4..] + tail);
    }
    if other == name {
      assert other + tail == (name + "-lun") + Decimal(id);
    }
    if name + "-lun" <= other + tail && !(name + "-lun" <= other) && other != name {
      OverlapIsImpossible(name, other, id);
    }
  }

  /** A numeral tail holds one dash, so a name ending in "-lun" cannot straddle the join. */
  lemma OverlapIsImpossible(name: string, other: string, id: nat)
    requires name + "-lun" <= other + ("-lun" + Decimal(id)) && other != name
    ensures name + "-lun" <= other
  {
    var a, tail := name + "-lun", "-lun" + Decimal(id);
    var b := other + tail;
    assert forall i :: 0 < i < |tail| ==> tail[i] != '-';
    assert forall i :: |name| < i < |a| ==> a[i] != '-';
    assert a[|name|] == '-' && b[|other|] == '-';
    assert forall i :: |other| < i < |b| ==> b[i] == tail[i - |other|];
    assert forall i :: 0 <= i < |a| ==> a[i] == b[i];
    if |name| == |other| {
      forall i | 0 <= i < |name| ensures name[i] == other[i] {
        assert name[i] == a[i] && other[i] == b[i];
      }
    } else if |name| + 4 <= |other| {
      assert a <= other;
    }
  }
}
