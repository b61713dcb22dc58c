/**
 Change propagation: a per-kind version (the level) and a coalesced wake (the
 edge), as in internal/eventbus/bus.go. Counters are unbounded integers.
 */
module EventBus {

  /** A subscriber's 1-buffered channel is a flag: a second send is dropped. */
  datatype Subscription = Subscription(kinds: set<nat>, pending: bool)

  /** What Version adds up: one load per named kind. */
  function Sum(loads: seq<nat>): nat {
    if loads == [] then 0 else Sum(loads[..|loads| - 1]) + loads[|loads| - 1]
  }

  /** Every load of `a` happened no later than the load of the same kind in `b`. */
  ghost predicate NotAfter(a: seq<nat>, b: seq<nat>) {
    |a| == |b| && forall k :: 0 <= k < |a| ==> a[k] <= b[k]
  }

  lemma {:induction false} SumMonotone(a: seq<nat>, b: seq<nat>)
    requires NotAfter(a, b)
    ensures Sum(a) <= Sum(b)
  {
    if a != [] {
      SumMonotone(a[..|a| - 1], b[..|b| - 1]);
    }
  }

  /**
   The sum is a sound watermark although it is read kind by kind: two readings
   taken one after the other are equal exactly when no kind moved in between.
   */
  lemma {:induction false} EqualSumsEqualLoads(a: seq<nat>, b: seq<nat>)
    requires NotAfter(a, b)
    ensures Sum(a) == Sum(b) <==> a == b
  {
    if a != [] {
      var n := |a| - 1;
      SumMonotone(a[..n], b[..n]);
      EqualSumsEqualLoads(a[..n], b[..n]);
      assert a == a[..n] + [a[n]] && b == b[..n] + [b[n]];
    }
  }

  ghost predicate KindsBelow(kinds: seq<nat>, count: nat) {
    forall i :: 0 <= i < |kinds| ==> kinds[i] < count
  }

  ghost function Loads(versions: seq<nat>, kinds: seq<nat>): (loads: seq<nat>)
    requires KindsBelow(kinds, |versions|)
    ensures |loads| == |kinds|
  {
    seq(|kinds|, i requires 0 <= i < |kinds| => versions[kinds[i]])
  }

  /** Publishing any named kind strictly raises the watermark, other kinds leave it. */
  lemma PublishRaisesWatermark(versions: seq<nat>, kinds: seq<nat>, k: nat)
    requires KindsBelow(kinds, |versions|)
    requires k < |versions|
    ensures var after := versions[k := versions[k] + 1];
      && (k in kinds ==> Sum(Loads(after, kinds)) > Sum(Loads(versions, kinds)))
      && (k !in kinds ==> Sum(Loads(after, kinds)) == Sum(Loads(versions, kinds)))
  {
    var a, b := Loads(versions, kinds), Loads(versions[k := versions[k] + 1], kinds);
    SumMonotone(a, b);
    EqualSumsEqualLoads(a, b);
    if k in kinds {
      var i :| 0 <= i < |kinds| && kinds[i] == k;
      assert a[i] != b[i];
    } else {
      assert a == b;
    }
  }

  lemma {:induction false} SumOfZeros(n: nat)
    ensures Sum(seq(n, _ => 0)) == 0
  {
    if n > 0 {
      SumOfZeros(n - 1);
      assert seq(n, _ => 0)[..n - 1] == seq(n - 1, _ => 0);
    }
  }

  lemma {:induction false} SumAfterOneMore(loads: seq<nat>, i: nat)
    requires i < |loads|
    ensures Sum(loads[i := loads[i] + 1]) == Sum(loads) + 1
  {
    var n := |loads| - 1;
    var more := loads[i := loads[i] + 1];
    if i == n {
      assert more[..n] == loads[..n];
    } else {
      SumAfterOneMore(loads[..n], i);
      assert more[..n] == loads[..n][i := loads[i] + 1];
    }
  }

  /** The watermark counts publishes: from nothing published, each of a named kind adds one. */
  lemma WatermarkCountsPublishes(versions: seq<nat>, kinds: seq<nat>, i: nat)
    requires KindsBelow(kinds, |versions|) && i < |kinds|
    requires forall a, b :: 0 <= a < b < |kinds| ==> kinds[a] != kinds[b]
    ensures var after := versions[kinds[i] := versions[kinds[i]] + 1];
      Sum(Loads(after, kinds)) == Sum(Loads(versions, kinds)) + 1
    ensures Sum(Loads(seq(|versions|, _ => 0), kinds)) == 0
  {
    var after := versions[kinds[i] := versions[kinds[i]] + 1];
    var loads := Loads(versions, kinds);
    assert Loads(after, kinds) == loads[i := loads[i] + 1];
    SumAfterOneMore(loads, i);
    assert Loads(seq(|versions|, _ => 0), kinds) == seq(|kinds|, _ => 0);
    SumOfZeros(|kinds|);
  }

  function Woken(subs: map<nat, Subscription>, k: nat): map<nat, Subscription> {
    map id | id in subs :: if k in subs[id].kinds then subs[id].(pending := true) else subs[id]
  }

  class Bus {
    const versions: array<nat>
    var subs: map<nat, Subscription>
    var nextId: nat
    /** The versions a subscriber would load if it ran at the moment of its last wake. */
    ghost var atWake: map<nat, seq<nat>>

    ghost predicate Valid() reads this {
      forall id :: id in subs ==> id < nextId
    }

    constructor (kindCount: nat)
      ensures Valid() && fresh(versions) && subs == map[]
      ensures versions[..] == seq(kindCount, _ => 0)
    {
      versions := new nat[kindCount](_ => 0);
      subs, nextId, atWake := map[], 0, map[];
    }

    /**
     Each interested subscriber ends up with exactly one pending wake, and one woken by this call already
     finds the new version.
     */
    method Publish(k: nat)
      requires Valid() && k < versions.Length
      modifies this`subs, this`atWake, versions
      ensures Valid()
      ensures forall id :: id in subs && k in subs[id].kinds ==> id in atWake && atWake[id] == versions[..]
      ensures versions[..] == old(versions[..])[k := old(versions[k]) + 1]
      ensures subs == Woken(old(subs), k)
      ensures subs.Keys == old(subs).Keys && forall id :: id in subs ==>
        subs[id].kinds == old(subs)[id].kinds && (subs[id].pending <==> old(subs)[id].pending || k in subs[id].kinds)
    {
      versions[k] := versions[k] + 1;
      var todo := subs.Keys;
      while todo != {}
        invariant versions[..] == old(versions[..])[k := old(versions[k]) + 1]
        invariant todo <= subs.Keys == old(subs).Keys
        invariant forall id :: id in subs ==> subs[id] == if id in todo then old(subs)[id] else Woken(old(subs), k)[id]
        invariant forall id :: id in subs && id !in todo && k in subs[id].kinds ==>
          id in atWake && atWake[id] == versions[..]
        decreases |todo|
      {
        var id :| id in todo;
        todo := todo - {id};
        if k in subs[id].kinds {
          subs := subs[id := subs[id].(pending := true)];
          atWake := atWake[id := versions[..]];
        }
      }
    }

    method Version(kinds: seq<nat>) returns (v: nat)
      requires KindsBelow(kinds, versions.Length)
      ensures v == Sum(Loads(versions[..], kinds))
    {
      v := 0;
      for i := 0 to |kinds|
        invariant v == Sum(Loads(versions[..], kinds[..i]))
      {
        v := v + versions[kinds[i]];
        var now := Loads(versions[..], kinds[..i + 1]);
        assert now[..i] == Loads(versions[..], kinds[..i]);
      }
      assert kinds[..|kinds|] == kinds;
    }

    method Subscribe(kinds: set<nat>) returns (id: nat)
      requires Valid()
      modifies this
      ensures Valid() && id !in old(subs)
      ensures subs == old(subs)[id := Subscription(kinds, false)]
    {
      id := nextId;
      nextId := nextId + 1;
      subs := subs[id := Subscription(kinds, false)];
    }
  }
}

/**
 The reflector store of internal/reflect/store.go, with its change callback
 publishing one kind on the bus as internal/clusterstate/clusterstate.go wires it.
 */
module CountingStore {
  import opened EventBus

  type Contents = map<string, string>

  datatype Key = Key(name: string) | NoKey

  /** What a reflector asks for; the indexer refuses an object without a usable key. */
  datatype Change = Put(key: Key, obj: string) | Delete(key: Key) | Replace(list: Contents, accepted: bool)

  predicate Accepted(c: Change) {
    match c
    case Put(key, _) => key.Key?
    case Delete(key) => key.Key?
    case Replace(_, accepted) => accepted
  }

  function Changed(items: Contents, c: Change): Contents
    requires Accepted(c)
  {
    match c
    case Put(key, obj) => items[key.name := obj]
    case Delete(key) => items - {key.name}
    case Replace(list, _) => list
  }

  /** A put object is found under its name, a deleted one is not, all others are as before; a relist is the list. */
  lemma ChangedMeans(items: Contents, c: Change, name: string)
    requires Accepted(c)
    ensures match c
      case Put(key, obj) =>
        var after := Changed(items, c);
        if name == key.name then name in after && after[name] == obj
        else (name in after <==> name in items) && (name in items ==> after[name] == items[name])
      case Delete(key) =>
        var after := Changed(items, c);
        if name == key.name then name !in after
        else (name in after <==> name in items) && (name in items ==> after[name] == items[name])
      case Replace(list, _) => Changed(items, c) == list
    ensures c.Put? || c.Delete? ==> c.key.Key?
  {
  }

  class Store {
    const bus: Bus
    const kind: nat
    var items: Contents
    var didSync: bool
    /** What a reader finds in the store at the moment of each change signal. */
    ghost var atSignal: seq<Contents>
    ghost var syncs: nat

    /** Readiness has fired exactly once if a relist landed, and never before. */
    ghost predicate Valid() reads this, bus {
      bus.Valid() && kind < bus.versions.Length && syncs == if didSync then 1 else 0
    }

    constructor (b: Bus, k: nat)
      requires b.Valid() && k < b.versions.Length
      ensures Valid() && bus == b && kind == k && items == map[] && !didSync && atSignal == []
    {
      bus, kind := b, k;
      items, didSync, atSignal, syncs := map[], false, [], 0;
    }

    method OnChange()
      requires Valid()
      modifies this`atSignal, bus`subs, bus`atWake, bus.versions
      ensures Valid() && atSignal == old(atSignal) + [items]
      ensures bus.versions[..] == old(bus.versions[..])[kind := old(bus.versions[kind]) + 1]
      ensures bus.subs == Woken(old(bus.subs), kind)
      ensures forall id :: id in bus.subs && kind in bus.subs[id].kinds ==>
        id in bus.atWake && bus.atWake[id] == bus.versions[..]
    {
      atSignal := atSignal + [items];
      bus.Publish(kind);
    }

    /** Add, Update, Delete and Replace: what the indexer refuses is neither stored nor signalled. */
    method Apply(c: Change) returns (ok: bool)
      requires Valid()
      modifies this`items, this`didSync, this`syncs, this`atSignal, bus`subs, bus`atWake, bus.versions
      ensures Valid() && ok == Accepted(c)
      ensures didSync == (old(didSync) || (ok && c.Replace?))
      ensures !ok ==> items == old(items) && atSignal == old(atSignal)
      ensures !ok ==> bus.subs == old(bus.subs) && bus.versions[..] == old(bus.versions[..])
      ensures ok ==> items == Changed(old(items), c) && atSignal == old(atSignal) + [items]
      ensures ok ==> bus.versions[..] == old(bus.versions[..])[kind := old(bus.versions[kind]) + 1]
      ensures ok ==> bus.subs == Woken(old(bus.subs), kind)
      ensures ok ==> forall id :: id in bus.subs && kind in bus.subs[id].kinds ==>
        id in bus.atWake && bus.atWake[id] == bus.versions[..]
    {
      match c {
        case Put(key, obj) =>
          if key.NoKey? {
            return false;
          }
          items := items[key.name := obj];
        case Delete(key) =>
          if key.NoKey? {
            return false;
          }
          items := items - {key.name};
        case Replace(list, accepted) =>
          if !accepted {
            return false;
          }
          items := list;
          if !didSync {
            didSync := true;
            syncs := syncs + 1;
          }
      }
      OnChange();
      return true;
    }
  }
}
