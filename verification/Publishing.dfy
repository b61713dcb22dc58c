/**
 The link between the code that publishes and the machine of LiveFrames: an
 accepted store change is the machine's mutation, bump and wake, in that order.
 */
module Publishing {
  import opened EventBus
  import CountingStore
  import opened LiveFrames

  /**
   The machine state shows this store, the bus versions and the wake pending for the hub, which follows every kind.
   */
  ghost predicate Mirrors(store: CountingStore.Store, cfg: Config, s: Sys, i: nat, hub: nat)
    reads store, store.bus, store.bus.versions
  {
    && store.Valid() && ValidConfig(cfg) && Shape(cfg, s) && i < |s.stores| && cfg.kindOf[i] == store.kind
    && s.stores[i] == store.items && s.versions == store.bus.versions[..]
    && hub in store.bus.subs && store.kind in store.bus.subs[hub].kinds && s.wake == store.bus.subs[hub].pending
  }

  /** Three machine steps, each enabled only after the one before it. */
  ghost predicate PublishSteps(cfg: Config, s: Sys, i: nat, contents: Contents, t: Sys)
    requires ValidConfig(cfg)
  {
    && Shape(cfg, s) && Enabled(cfg, s, Mutate(i, contents))
    && var stored := Next(cfg, s, Mutate(i, contents));
       && Shape(cfg, stored) && Enabled(cfg, stored, Bump(cfg.kindOf[i]))
       && var bumped := Next(cfg, stored, Bump(cfg.kindOf[i]));
          Shape(cfg, bumped) && Enabled(cfg, bumped, SendWake) && t == Next(cfg, bumped, SendWake)
  }

  lemma PublishStepsAre(cfg: Config, s: Sys, i: nat, contents: Contents)
    requires ValidConfig(cfg) && Shape(cfg, s) && i < |s.stores|
    ensures var k := cfg.kindOf[i];
      PublishSteps(cfg, s, i, contents,
        s.(stores := s.stores[i := contents], versions := s.versions[k := s.versions[k] + 1], wake := true))
  {
    var k := cfg.kindOf[i];
    var bumped := Next(cfg, Next(cfg, s, Mutate(i, contents)), Bump(k));
    assert bumped.mutated == s.mutated;
  }

  /** A change the store accepts takes the machine through exactly those steps, one it refuses through none. */
  method Change(
      store: CountingStore.Store, c: CountingStore.Change,
      ghost cfg: Config, ghost s: Sys, ghost i: nat, ghost hub: nat)
      returns (ok: bool, ghost t: Sys)
    requires Mirrors(store, cfg, s, i, hub)
    modifies store, store.bus, store.bus.versions
    ensures ok == CountingStore.Accepted(c)
    ensures Mirrors(store, cfg, t, i, hub)
    ensures ok ==> PublishSteps(cfg, s, i, CountingStore.Changed(s.stores[i], c), t)
    ensures ok ==> |store.atSignal| > 0 && store.atSignal[|store.atSignal| - 1] == t.stores[i]
    ensures ok ==> hub in store.bus.atWake && store.bus.atWake[hub] == t.versions
    ensures !ok ==> t == s
  {
    ok := store.Apply(c);
    t := s;
    if ok {
      PublishStepsAre(cfg, s, i, store.items);
      var k := store.kind;
      t := s.(stores := s.stores[i := store.items], versions := s.versions[k := s.versions[k] + 1], wake := true);
    }
  }
}
