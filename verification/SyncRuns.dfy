/** Whole syncs, in the states of runs: what the listing loop and the cleanup do together, and what no later
    step makes good (bridge/servicesync.go, bridge/bridge.go).
  */
module SyncRuns {
  import opened Options
  import opened Filters
  import opened ServiceId
  import opened BridgeState
  import opened Lifecycle
  import opened BridgeObject
  import opened KeyedRegistry
  import opened CleanupSafety
  import opened AddRemove

  lemma RunSingle(cfg: Config, ok: Outcomes, states: seq<State>, events: seq<Event>, k: nat)
    requires IsRun(cfg, ok, states, events) && k < |states|
    ensures Valid(states[k]) && Single(states[k])
  {
    RunInv(cfg, ok, states, events, k);
    InvValid(cfg, states[k]);
    InvSingle(cfg, states[k]);
  }

  // ---------------------------------------------------------------- what a sync spawns and calls

  /** One add for each of these containers. */
  function Adds(containers: seq<string>, ip: string): (tasks: seq<Task>)
    ensures |tasks| == |containers|
  {
    seq(|containers|, i requires 0 <= i < |containers| => AddStart(containers[i], ip))
  }

  function Removals(containers: seq<string>): (tasks: seq<Task>)
    ensures |tasks| == |containers|
  {
    seq(|containers|, i requires 0 <= i < |containers| => RemoveStart(containers[i]))
  }

  function IsUntracked(st: State): string -> bool
  {
    c => Tracked(st, c) == []
  }

  function IsMissing(nonExited: seq<string>): string -> bool
  {
    c => c !in nonExited
  }

  lemma {:induction false} ListedTasksAre(st: State, ok: Outcomes, listing: seq<string>, ip: string)
    requires Valid(st)
    ensures SyncListed(st, ok, listing, ip).tasks == st.tasks + Adds(Filtered(IsUntracked(st), listing), ip)
  {
    if listing != [] {
      ListedTasksAre(st, ok, listing[..|listing| - 1], ip);
    }
  }

  lemma {:induction false} RemovalTasksAre(st: State, order: seq<string>, nonExited: seq<string>)
    ensures SpawnRemovals(st, order, nonExited).tasks == st.tasks + Removals(Filtered(IsMissing(nonExited), order))
  {
    if order != [] {
      RemovalTasksAre(st, order[..|order| - 1], nonExited);
    }
  }

  /** The goroutines a sync spawns: one add, with the sync's IP, for each entry of the listing that is untracked,
      and then, with cleanup on and the second listing answered, one removal for each tracked container that is
      missing from it, whatever the registry reports; no removal otherwise. */
  lemma SyncSpawns(cfg: Config, st: State, ok: Outcomes, ip: string, answers: SyncAnswers)
    requires Valid(st)
    ensures Sync(cfg, st, ok, ip, answers).tasks
         == st.tasks
            + (if answers.listing.Some? then Adds(Filtered(IsUntracked(st), answers.listing.value), ip) else [])
            + (if answers.listing.Some? && cfg.cleanup && answers.nonExited.Some?
               then Removals(Filtered(IsMissing(answers.nonExited.value), answers.order)) else [])
  {
    if answers.listing.Some? {
      ListedTasksAre(st, ok, answers.listing.value, ip);
      var a := SyncListed(st, ok, answers.listing.value, ip);
      if cfg.cleanup && answers.nonExited.Some? {
        RemovalTasksAre(a, answers.order, answers.nonExited.value);
      }
    }
  }

  lemma {:induction false} AddsCount(containers: seq<string>, ip: string, t: Task)
    ensures multiset(Adds(containers, ip))[t] == if t.AddStart? && t.ip == ip then multiset(containers)[t.c] else 0
  {
    if containers != [] {
      var front, last := containers[..|containers| - 1], containers[|containers| - 1];
      AddsCount(front, ip, t);
      assert containers == front + [last] && Adds(containers, ip) == Adds(front, ip) + [AddStart(last, ip)];
    }
  }

  lemma {:induction false} RemovalsCount(containers: seq<string>, t: Task)
    ensures multiset(Removals(containers))[t] == if t.RemoveStart? then multiset(containers)[t.c] else 0
  {
    if containers != [] {
      var front, last := containers[..|containers| - 1], containers[|containers| - 1];
      RemovalsCount(front, t);
      assert containers == front + [last] && Removals(containers) == Removals(front) + [RemoveStart(last)];
    }
  }

  /** The tracked containers the second listing lacks, if the sync asks for it. */
  function Missing(cfg: Config, answers: SyncAnswers): seq<string>
  {
    if cfg.cleanup && answers.nonExited.Some? then Filtered(IsMissing(answers.nonExited.value), answers.order) else []
  }

  lemma UntrackedCount(cfg: Config, st: State, listing: seq<string>, c: string)
    requires Inv(cfg, st)
    ensures multiset(Filtered(IsUntracked(st), listing))[c] == if c in st.services then 0 else multiset(listing)[c]
  {
    FilteredCount(IsUntracked(st), listing, c);
    assert c in st.services ==> EntryOk(st, c, st.services[c]);
  }

  lemma MissingCount(cfg: Config, answers: SyncAnswers, keys: set<string>, c: string)
    requires IsIteration(answers.order, keys)
    ensures multiset(Missing(cfg, answers))[c] ==
            if cfg.cleanup && answers.nonExited.Some? && c in keys && c !in answers.nonExited.value then 1 else 0
  {
    if cfg.cleanup && answers.nonExited.Some? {
      FilteredCount(IsMissing(answers.nonExited.value), answers.order, c);
      OnceInIteration(answers.order, keys, c);
    }
  }

  lemma SpawnedAre(cfg: Config, st: State, ok: Outcomes, ip: string, answers: SyncAnswers)
    requires Valid(st) && answers.listing.Some?
    ensures Sync(cfg, st, ok, ip, answers).tasks[|st.tasks|..]
         == Adds(Filtered(IsUntracked(st), answers.listing.value), ip) + Removals(Missing(cfg, answers))
  {
    SyncSpawns(cfg, st, ok, ip, answers);
  }

  /** In the states of runs, task by task: how often a sync spawns `t`. */
  lemma SyncSpawnsCount(cfg: Config, st: State, ok: Outcomes, ip: string, answers: SyncAnswers, t: Task)
    requires Inv(cfg, st) && Valid(st) && answers.listing.Some? && IsIteration(answers.order, st.services.Keys)
    ensures st.tasks <= Sync(cfg, st, ok, ip, answers).tasks
    ensures multiset(Sync(cfg, st, ok, ip, answers).tasks[|st.tasks|..])[t] ==
            (match t
             case AddStart(c, ip') => if c !in st.services && ip' == ip then multiset(answers.listing.value)[c] else 0
             case RemoveStart(c) =>
               if cfg.cleanup && answers.nonExited.Some? && c in st.services && c !in answers.nonExited.value
               then 1 else 0
             case _ => 0)
  {
    SpawnedAre(cfg, st, ok, ip, answers);
    AddsCount(Filtered(IsUntracked(st), answers.listing.value), ip, t);
    RemovalsCount(Missing(cfg, answers), t);
    if t.AddStart? {
      UntrackedCount(cfg, st, answers.listing.value, t.c);
    } else if t.RemoveStart? {
      MissingCount(cfg, answers, st.services.Keys, t.c);
    }
  }

  lemma OnceInIteration(order: seq<string>, keys: set<string>, c: string)
    requires IsIteration(order, keys)
    ensures multiset(order)[c] == if c in keys then 1 else 0
  {
    PlacesCount(order, c);
    if c in keys {
      var i: nat :| i < |order| && order[i] == c;
      assert Places(order, c) == {i};
    } else {
      assert Places(order, c) == {};
    }
  }

  lemma {:induction false} ReregisterCallsObjects(st: State, ok: Outcomes, refs: seq<Ref>, ip: string)
    requires ValidRefs(refs, |st.heap|)
    ensures var log := ReregisterAll(st, ok, refs, ip).log;
            st.log <= log && forall n :: |st.log| <= n < |log| ==> log[n].ref.Some?
  {
    if refs != [] {
      ReregisterCallsObjects(st, ok, refs[..|refs| - 1], ip);
    }
  }

  lemma {:induction false} ListingCallsObjects(st: State, ok: Outcomes, listing: seq<string>, ip: string)
    requires Valid(st)
    ensures var log := SyncListed(st, ok, listing, ip).log;
            st.log <= log && forall n :: |st.log| <= n < |log| ==> log[n].ref.Some?
  {
    if listing != [] {
      ListingCallsObjects(st, ok, listing[..|listing| - 1], ip);
      var now, c := SyncListed(st, ok, listing[..|listing| - 1], ip), listing[|listing| - 1];
      ReregisterCallsObjects(now, ok, Tracked(now, c), ip);
    }
  }

  /** Without cleanup, or when the second listing or the registry's report fails, a sync calls the registry for
      tracked objects only. */
  lemma NoCleanupCalls(cfg: Config, st: State, ok: Outcomes, ip: string, answers: SyncAnswers)
    requires Valid(st) && (!cfg.cleanup || answers.nonExited.None? || answers.ext.None?)
    ensures var log := Sync(cfg, st, ok, ip, answers).log;
            st.log <= log && forall n :: |st.log| <= n < |log| ==> log[n].ref.Some?
  {
    if answers.listing.Some? {
      ListingCallsObjects(st, ok, answers.listing.value, ip);
    }
  }

  // ---------------------------------------------------------------- a whole sync

  /** The registry reports nothing, as those without a listing do, or cleanup is off or not reached. */
  predicate NothingReported(cfg: Config, answers: SyncAnswers)
  {
    !cfg.cleanup || answers.nonExited.None? || answers.ext.None? || answers.ext.value == []
  }

  /** Apart from spawned tasks, such a sync is its listing loop. */
  lemma SyncIsListing(cfg: Config, st: State, ok: Outcomes, ip: string, answers: SyncAnswers)
    requires Valid(st) && answers.listing.Some? && NothingReported(cfg, answers)
    ensures var r, a := Sync(cfg, st, ok, ip, answers), SyncListed(st, ok, answers.listing.value, ip);
            r == a.(tasks := r.tasks)
  {
  }

  lemma RelocatedTasks(key: KeyOf, reg: Registry, st: State, a: State, r: State, listing: seq<string>, ip: string)
    requires Single(st) && Relocated(key, reg, st, a, listing, ip) && r == a.(tasks := r.tasks)
    ensures Relocated(key, reg, st, r, listing, ip)
  {
    assert RegistryOf(key, reg, |st.log|, r) == RegistryOf(key, reg, |st.log|, a);
    assert forall c :: c in a.services ==> ServiceOf(r, c) == ServiceOf(a, c);
  }

  /** In every state of every run, whatever the keys: a fault-free sync with an IP against a registry that reports
      nothing relocates, and when repeated, even under faults, makes no call at all. */
  lemma SyncMovesInEveryRun(cfg: Config, past: Outcomes, states: seq<State>, events: seq<Event>, k: nat, key: KeyOf,
                            reg: Registry, ok: Outcomes, again: Outcomes, ip: string, answers: SyncAnswers)
    requires IsRun(cfg, past, states, events) && k < |states|
    requires ip != "" && NoFaults(ok) && answers.listing.Some? && NothingReported(cfg, answers)
    ensures var st := states[k];
            && Valid(st) && Single(st)
            && (NoClash(key, st, ip) && AllRegistered(key, reg, st) ==>
                  var r := Sync(cfg, st, ok, ip, answers);
                  && Relocated(key, reg, st, r, answers.listing.value, ip)
                  && Sync(cfg, r, again, ip, answers).log == r.log)
  {
    var st := states[k];
    RunSingle(cfg, past, states, events, k);
    if NoClash(key, st, ip) && AllRegistered(key, reg, st) {
      var listing := answers.listing.value;
      SyncMovesServices(key, reg, st, ok, again, listing, ip);
      var a, r := SyncListed(st, ok, listing, ip), Sync(cfg, st, ok, ip, answers);
      SyncIsListing(cfg, st, ok, ip, answers);
      RelocatedTasks(key, reg, st, a, r, listing, ip);
      SyncIsListing(cfg, r, again, ip, answers);
      SettledSyncIsSilent(r, again, listing, ip);
    }
  }

  /** In every state of every run, a fault-free sync without an IP registers every tracked service of a listed
      container, whether or not the registry still had it, and loses none. */
  lemma PlainSyncInEveryRun(cfg: Config, past: Outcomes, states: seq<State>, events: seq<Event>, k: nat, key: KeyOf,
                            reg: Registry, ok: Outcomes, answers: SyncAnswers)
    requires IsRun(cfg, past, states, events) && k < |states|
    requires NoFaults(ok) && answers.listing.Some? && NothingReported(cfg, answers)
    ensures var st := states[k];
            && Valid(st) && Single(st)
            && (DistinctKeys(key, st) ==>
                  var r := Sync(cfg, st, ok, "", answers);
                  && |st.log| <= |r.log| && r.services == st.services && r.heap == st.heap
                  && Restored(key, st, reg, RegistryOf(key, reg, |st.log|, r), answers.listing.value))
  {
    var st := states[k];
    RunSingle(cfg, past, states, events, k);
    if DistinctKeys(key, st) {
      PlainSyncRestores(key, reg, st, ok, answers.listing.value);
      SyncIsListing(cfg, st, ok, "", answers);
      var r, a := Sync(cfg, st, ok, "", answers), SyncListed(st, ok, answers.listing.value, "");
      assert RegistryOf(key, reg, |st.log|, r) == RegistryOf(key, reg, |st.log|, a);
    }
  }

  // ---------------------------------------------------------------- with the cleanup

  /** The registry seen from `n` is the one seen from a later state. */
  lemma RegistryOnward(key: KeyOf, reg: Registry, n: nat, a: State, r: State)
    requires n <= |a.log| && a.log <= r.log
    ensures RegistryOf(key, reg, n, r) == RegistryOf(key, RegistryOf(key, reg, n, a), |a.log|, r)
  {
    assert r.log[n..] == a.log[n..] + r.log[|a.log|..];
    ApplyConcat(key, reg, a.log[n..], r.log[|a.log|..]);
  }

  lemma DistinctIdsApart(st: State, ip: string)
    requires Single(st) && DistinctKeys(Id, st)
    ensures NoClash(Id, st, ip)
  {
  }

  /** The moves of a sync leave generated IDs generated. */
  lemma StillGenerated(cfg: Config, reg: Registry, st: State, ok: Outcomes, listing: seq<string>, ip: string)
    requires Valid(st) && ip != "" && NoFaults(ok) && Single(st) && NoClash(Id, st, ip) && AllRegistered(Id, reg, st)
    requires forall c :: c in st.services ==> GeneratedId(cfg, ServiceOf(st, c))
    ensures var a := SyncListed(st, ok, listing, ip);
            && Single(a) && a.services == st.services
            && forall c :: c in a.services ==> GeneratedId(cfg, ServiceOf(a, c))
  {
    SyncListedMoves(Id, reg, st, ok, listing, ip);
    var a := SyncListed(st, ok, listing, ip);
    forall c | c in a.services
      ensures GeneratedId(cfg, ServiceOf(a, c))
    {
      var s, t := ServiceOf(st, c), ServiceOf(a, c);
      assert t == s || t == WithIP(s, ip);
      assert GeneratedId(cfg, s);
      SameName(cfg, s, t, ip);
    }
  }

  lemma SameName(cfg: Config, s: Service, t: Service, ip: string)
    requires GeneratedId(cfg, s) && (t == s || t == WithIP(s, ip))
    ensures GeneratedId(cfg, t)
  {
    assert ContainerName(t) == ContainerName(s) && t.id == s.id;
    var port, portType :| Digits(port) && s.id == PrintId(cfg.hostname, ContainerName(s), port, portType);
  }

  /** The registry after the listing loop: what the registry reports from during the cleanup. */
  ghost function Midway(reg: Registry, st: State, ok: Outcomes, listing: seq<string>, ip: string): Registry
    requires Valid(st)
  {
    RegistryOf(Id, reg, |st.log|, SyncListed(st, ok, listing, ip))
  }

  /** The cleanup part, after the listing loop has relocated. */
  lemma CleanupAfterMoves(cfg: Config, reg: Registry, st: State, a: State, ok: Outcomes, ext: seq<Service>,
                          listing: seq<string>, ip: string)
    requires Valid(a) && Single(st) && Relocated(Id, reg, st, a, listing, ip)
    requires Reports(RegistryOf(Id, reg, |st.log|, a), ext)
    requires forall c :: c in a.services ==> GeneratedId(cfg, ServiceOf(a, c))
    ensures var r := Cleanup(cfg, a, ok, ext);
            && |st.log| <= |r.log| && Single(r) && r.services == a.services && r.heap == a.heap
            && AllRegistered(Id, RegistryOf(Id, reg, |st.log|, r), r)
  {
    CleanupKeepsTracked(cfg, RegistryOf(Id, reg, |st.log|, a), a, ok, ext);
    CleanupCalls(cfg, a, ok, ext);
    RegistryOnward(Id, reg, |st.log|, a, Cleanup(cfg, a, ok, ext));
  }

  /** Cleanup passes no object of the bridge to the registry. */
  lemma CleanupOnly(cfg: Config, st: State, ok: Outcomes, ext: seq<Service>)
    requires Valid(st)
    ensures var r := Cleanup(cfg, st, ok, ext);
            st.log <= r.log && forall n :: |st.log| <= n < |r.log| ==> r.log[n].op == Deregister && r.log[n].ref == None
  {
    CleanupCalls(cfg, st, ok, ext);
    var r := Cleanup(cfg, st, ok, ext);
    var calls := r.log[|st.log|..];
    assert forall n :: |st.log| <= n < |r.log| ==> r.log[n] == calls[n - |st.log|];
  }

  /** Once every tracked service of a listed container is on the IP, a sync makes cleanup calls only. */
  lemma SettledSyncOnlyCleans(cfg: Config, st: State, ok: Outcomes, ip: string, answers: SyncAnswers)
    requires Valid(st) && Single(st) && ip != "" && answers.listing.Some?
    requires forall c :: c in answers.listing.value && c in st.services ==> ServiceOf(st, c).ip == ip
    ensures var r := Sync(cfg, st, ok, ip, answers);
            st.log <= r.log && forall n :: |st.log| <= n < |r.log| ==> r.log[n].op == Deregister && r.log[n].ref == None
  {
    SettledSyncIsSilent(st, ok, answers.listing.value, ip);
    if cfg.cleanup && answers.nonExited.Some? && answers.ext.Some? {
      var a := SyncListed(st, ok, answers.listing.value, ip);
      var b := SpawnRemovals(a, answers.order, answers.nonExited.value);
      CleanupOnly(cfg, b, ok, answers.ext.value);
    }
  }

  /** The tracked services are registered as `reg` has them, under distinct generated IDs. */
  ghost predicate InOrder(cfg: Config, reg: Registry, st: State)
    requires Single(st)
  {
    && DistinctKeys(Id, st) && AllRegistered(Id, reg, st)
    && forall c :: c in st.services ==> GeneratedId(cfg, ServiceOf(st, c))
  }

  /** Where the listing loop leaves things for the cleanup. */
  lemma ReadyForCleanup(cfg: Config, reg: Registry, st: State, ok: Outcomes, ip: string, listing: seq<string>, b: State)
    requires Valid(st) && Single(st) && InOrder(cfg, reg, st) && ip != "" && NoFaults(ok)
    requires b == SyncListed(st, ok, listing, ip).(tasks := b.tasks)
    ensures Relocated(Id, reg, st, b, listing, ip)
    ensures RegistryOf(Id, reg, |st.log|, b) == Midway(reg, st, ok, listing, ip)
    ensures forall c :: c in b.services ==> GeneratedId(cfg, ServiceOf(b, c))
  {
    var a := SyncListed(st, ok, listing, ip);
    DistinctIdsApart(st, ip);
    StillGenerated(cfg, reg, st, ok, listing, ip);
    assert forall c :: c in b.services ==> ServiceOf(b, c) == ServiceOf(a, c);
    SyncMovesServices(Id, reg, st, ok, ok, listing, ip);
    RelocatedTasks(Id, reg, st, a, b, listing, ip);
  }

  lemma SyncWithCleanup(cfg: Config, reg: Registry, st: State, ok: Outcomes, ip: string, answers: SyncAnswers)
    requires Valid(st) && Single(st) && InOrder(cfg, reg, st) && ip != "" && NoFaults(ok)
    requires cfg.cleanup && answers.listing.Some? && answers.nonExited.Some? && answers.ext.Some?
    requires Reports(Midway(reg, st, ok, answers.listing.value, ip), answers.ext.value)
    ensures var r := Sync(cfg, st, ok, ip, answers);
            && |st.log| <= |r.log| && Single(r) && r.services == st.services
            && AllRegistered(Id, RegistryOf(Id, reg, |st.log|, r), r)
            && (forall c :: c in answers.listing.value && c in st.services ==> ServiceOf(r, c).ip == ip)
  {
    var listing := answers.listing.value;
    var b := SpawnRemovals(SyncListed(st, ok, listing, ip), answers.order, answers.nonExited.value);
    ReadyForCleanup(cfg, reg, st, ok, ip, listing, b);
    CleanupAfterMoves(cfg, reg, st, b, ok, answers.ext.value, listing, ip);
    var r := Sync(cfg, st, ok, ip, answers);
    assert r == Cleanup(cfg, b, ok, answers.ext.value);
    forall c | c in listing && c in st.services
      ensures ServiceOf(r, c).ip == ip
    {
      assert ServiceOf(r, c) == ServiceOf(b, c);
    }
  }

  /** In every state of every run, against a registry keyed by ID that reports what it has: a whole fault-free sync
      with an IP, cleanup included, keeps every tracked service with a generated ID registered as it now is and
      moves those of listed containers; repeated with any later reports, it reregisters nothing. */
  lemma SyncWithCleanupInEveryRun(cfg: Config, past: Outcomes, states: seq<State>, events: seq<Event>, k: nat,
                                  reg: Registry, ok: Outcomes, again: Outcomes, ip: string,
                                  answers: SyncAnswers, later: SyncAnswers)
    requires IsRun(cfg, past, states, events) && k < |states| && ip != "" && NoFaults(ok)
    requires cfg.cleanup && answers.listing.Some? && answers.nonExited.Some? && answers.ext.Some?
    requires later.listing == answers.listing
    ensures var st, listing := states[k], answers.listing.value;
            && Valid(st) && Single(st)
            && (InOrder(cfg, reg, st) && Reports(Midway(reg, st, ok, listing, ip), answers.ext.value) ==>
                  var r := Sync(cfg, st, ok, ip, answers);
                  && |st.log| <= |r.log| && Single(r) && r.services == st.services
                  && AllRegistered(Id, RegistryOf(Id, reg, |st.log|, r), r)
                  && (forall c :: c in listing && c in st.services ==> ServiceOf(r, c).ip == ip)
                  && var repeated := Sync(cfg, r, again, ip, later).log;
                     r.log <= repeated && forall n :: |r.log| <= n < |repeated| ==>
                       repeated[n].op == Deregister && repeated[n].ref == None)
  {
    var st, listing := states[k], answers.listing.value;
    RunSingle(cfg, past, states, events, k);
    if InOrder(cfg, reg, st) && Reports(Midway(reg, st, ok, listing, ip), answers.ext.value) {
      SyncWithCleanup(cfg, reg, st, ok, ip, answers);
      SettledSyncOnlyCleans(cfg, Sync(cfg, st, ok, ip, answers), again, ip, later);
    }
  }

  lemma PlainSyncWithCleanup(cfg: Config, reg: Registry, st: State, ok: Outcomes, answers: SyncAnswers)
    requires Valid(st) && Single(st) && DistinctKeys(Id, st) && NoFaults(ok)
    requires forall c :: c in st.services ==> GeneratedId(cfg, ServiceOf(st, c))
    requires cfg.cleanup && answers.listing.Some? && answers.nonExited.Some? && answers.ext.Some?
    requires Reports(Midway(reg, st, ok, answers.listing.value, ""), answers.ext.value)
    ensures var r := Sync(cfg, st, ok, "", answers);
            && |st.log| <= |r.log| && r.services == st.services && r.heap == st.heap
            && Restored(Id, st, reg, RegistryOf(Id, reg, |st.log|, r), answers.listing.value)
  {
    var listing, ext := answers.listing.value, answers.ext.value;
    var a := SyncListed(st, ok, listing, "");
    var b, r := SpawnRemovals(a, answers.order, answers.nonExited.value), Sync(cfg, st, ok, "", answers);
    PlainSyncRestores(Id, reg, st, ok, listing);
    var middle := RegistryOf(Id, reg, |st.log|, b);
    assert middle == Midway(reg, st, ok, listing, "");
    CleanupOnly(cfg, b, ok, ext);
    RegistryOnward(Id, reg, |st.log|, b, r);
    forall c | c in st.services && (c in listing || RegisteredAs(Id, reg, ServiceOf(st, c)))
      ensures RegisteredAs(Id, RegistryOf(Id, reg, |st.log|, r), ServiceOf(st, c))
    {
      assert ServiceOf(b, c) == ServiceOf(st, c);
      CleanupKeepsOne(cfg, middle, b, ok, ext, c);
    }
  }

  /** In every state of every run, against a registry keyed by ID that reports what it has: a whole fault-free sync
      without an IP, cleanup included, registers every tracked service of a listed container and loses none,
      given generated IDs. */
  lemma PlainSyncWithCleanupInEveryRun(cfg: Config, past: Outcomes, states: seq<State>, events: seq<Event>, k: nat,
                                       reg: Registry, ok: Outcomes, answers: SyncAnswers)
    requires IsRun(cfg, past, states, events) && k < |states| && NoFaults(ok)
    requires cfg.cleanup && answers.listing.Some? && answers.nonExited.Some? && answers.ext.Some?
    ensures var st, listing := states[k], answers.listing.value;
            && Valid(st) && Single(st)
            && ((&& DistinctKeys(Id, st) && (forall c :: c in st.services ==> GeneratedId(cfg, ServiceOf(st, c)))
                 && Reports(Midway(reg, st, ok, listing, ""), answers.ext.value)) ==>
                  var r := Sync(cfg, st, ok, "", answers);
                  && |st.log| <= |r.log| && r.services == st.services && r.heap == st.heap
                  && Restored(Id, st, reg, RegistryOf(Id, reg, |st.log|, r), listing))
  {
    var st, listing := states[k], answers.listing.value;
    RunSingle(cfg, past, states, events, k);
    if && DistinctKeys(Id, st) && (forall c :: c in st.services ==> GeneratedId(cfg, ServiceOf(st, c)))
       && Reports(Midway(reg, st, ok, listing, ""), answers.ext.value)
    {
      PlainSyncWithCleanup(cfg, reg, st, ok, answers);
    }
  }

  /** In every state of every run, against a registry keyed by ID that reports what it has, cleanup keeps every
      tracked service with a generated ID registered, under any faults. */
  lemma CleanupInEveryRun(cfg: Config, past: Outcomes, states: seq<State>, events: seq<Event>, k: nat,
                          reg: Registry, ok: Outcomes, ext: seq<Service>)
    requires IsRun(cfg, past, states, events) && k < |states| && Reports(reg, ext)
    ensures var st := states[k];
            && Valid(st) && Single(st)
            && (AllRegistered(Id, reg, st) && (forall c :: c in st.services ==> GeneratedId(cfg, ServiceOf(st, c))) ==>
                  var r := Cleanup(cfg, st, ok, ext);
                  |st.log| <= |r.log| && Single(r) && AllRegistered(Id, RegistryOf(Id, reg, |st.log|, r), r))
  {
    var st := states[k];
    RunSingle(cfg, past, states, events, k);
    if AllRegistered(Id, reg, st) && forall c :: c in st.services ==> GeneratedId(cfg, ServiceOf(st, c)) {
      CleanupKeepsTracked(cfg, reg, st, ok, ext);
    }
  }

  /** In every state of every run: without faults, adding an unknown container and removing it leaves the registry
      as it was if and only if the container has at most one service. */
  lemma AddThenRemoveInEveryRun(cfg: Config, past: Outcomes, states: seq<State>, events: seq<Event>, k: nat, key: KeyOf,
                                reg: Registry, ok: Outcomes, id: string, all: seq<Service>)
    requires IsRun(cfg, past, states, events) && k < |states| && NoFaults(ok)
    requires id !in states[k].services && id !in states[k].dead
    requires forall i :: 0 <= i < |all| ==> key(all[i]) !in reg
    requires forall i, j :: 0 <= i < j < |all| ==> key(all[i]) != key(all[j])
    ensures var st := states[k];
            && Valid(AddAll(st, ok, id, all))
            && var gone := Remove(cfg, AddAll(st, ok, id, all), ok, id, true);
               |st.log| <= |gone.log| && (RegistryOf(key, reg, |st.log|, gone) == reg <==> |all| <= 1)
  {
    RunSingle(cfg, past, states, events, k);
    AddThenRemoveRestoresIff(cfg, key, reg, states[k], ok, id, all);
  }

  // ---------------------------------------------------------------- a service that was lost in a move

  /** No call from log position `n` on registers the object. */
  ghost predicate NotRegisteredSince(log: seq<Call>, n: nat, ref: Ref)
  {
    forall m :: n <= m < |log| ==> !(log[m].op == Register && log[m].ref == Some(ref))
  }

  /** The step is a sync with another IP, or with none. */
  predicate SyncsElsewhere(st: State, e: Event, ip: string)
  {
    e.Run? && e.i < |st.tasks| && st.tasks[e.i].SyncStart? && st.tasks[e.i].ip != ip
  }

  lemma SettledInSync(cfg: Config, st: State, ok: Outcomes, ip: string, answers: SyncAnswers, ref: Ref)
    requires Valid(st) && ip != "" && ref < |st.heap| && st.heap[ref].ip == ip
    ensures var r := Sync(cfg, st, ok, ip, answers);
            st.log <= r.log && r.heap[ref] == st.heap[ref] && NotRegisteredSince(r.log, |st.log|, ref)
  {
    if answers.listing.Some? {
      SettledIsSkipped(st, ok, answers.listing.value, ip, ref);
      if cfg.cleanup && answers.nonExited.Some? && answers.ext.Some? {
        var a := SyncListed(st, ok, answers.listing.value, ip);
        var b := SpawnRemovals(a, answers.order, answers.nonExited.value);
        CleanupOnly(cfg, b, ok, answers.ext.value);
      }
    }
  }

  lemma SettledInRemove(cfg: Config, st: State, ok: Outcomes, c: string, deregister: bool, ref: Ref)
    requires Valid(st) && ref < |st.heap|
    ensures var r := Remove(cfg, st, ok, c, deregister);
            st.log <= r.log && r.heap == st.heap && NotRegisteredSince(r.log, |st.log|, ref)
  {
    var r, n := Remove(cfg, st, ok, c, deregister), |st.log|;
    RemoveShape(cfg, st, ok, c, deregister);
    forall m | n <= m < |r.log|
      ensures r.log[m].op == Deregister
    {
      RemoveCalls(cfg, st, ok, c, deregister, m - n);
    }
  }

  lemma SettledStep(cfg: Config, ok: Outcomes, st: State, e: Event, ip: string, ref: Ref)
    requires Valid(st) && Enabled(st, e) && ip != "" && ref < |st.heap| && st.heap[ref].ip == ip
    requires !SyncsElsewhere(st, e, ip)
    ensures var st' := Step(cfg, ok, st, e);
            && st.log <= st'.log && ref < |st'.heap| && st'.heap[ref] == st.heap[ref]
            && NotRegisteredSince(st'.log, |st.log|, ref)
  {
    if e.Run? && st.tasks[e.i].RemoveLocked? {
      SettledInRemove(cfg, st, ok, st.tasks[e.i].c, st.tasks[e.i].deregister, ref);
    } else if e.Run? && st.tasks[e.i].SyncStart? {
      SettledInSync(cfg, st, ok, ip, e.answer.answers, ref);
    }
  }

  /** From one state to the next an object on the IP stays as it is and is not registered. */
  ghost predicate LeavesSettled(st: State, st': State, ip: string, ref: Ref)
  {
    ref < |st.heap| && st.heap[ref].ip == ip ==>
      && st.log <= st'.log && ref < |st'.heap| && st'.heap[ref] == st.heap[ref]
      && NotRegisteredSince(st'.log, |st.log|, ref)
  }

  lemma {:induction false} SettledAlong(states: seq<State>, j: nat, k: nat, ip: string, ref: Ref)
    requires j <= k < |states| && ref < |states[j].heap| && states[j].heap[ref].ip == ip
    requires forall i :: j <= i < k ==> LeavesSettled(states[i], states[i + 1], ip, ref)
    ensures ref < |states[k].heap| && states[k].heap[ref] == states[j].heap[ref]
    ensures states[j].log <= states[k].log && NotRegisteredSince(states[k].log, |states[j].log|, ref)
    decreases k - j
  {
    if j < k {
      SettledAlong(states, j, k - 1, ip, ref);
      assert LeavesSettled(states[k - 1], states[k - 1 + 1], ip, ref);
    }
  }

  lemma SettledAt(cfg: Config, ok: Outcomes, states: seq<State>, events: seq<Event>, i: nat, ip: string, ref: Ref)
    requires IsTrace(cfg, ok, states, events) && i < |events| && ip != ""
    requires !SyncsElsewhere(states[i], events[i], ip)
    ensures LeavesSettled(states[i], states[i + 1], ip, ref)
  {
    if ref < |states[i].heap| && states[i].heap[ref].ip == ip {
      SettledStep(cfg, ok, states[i], events[i], ip, ref);
    }
  }

  /** A service already on an IP is never registered again, whether or not its Register succeeded: not by any
      later step of any run in which all syncs are made with that IP. */
  lemma SettledForGood(cfg: Config, ok: Outcomes, states: seq<State>, events: seq<Event>,
                       j: nat, k: nat, ip: string, ref: Ref)
    requires IsTrace(cfg, ok, states, events) && j <= k < |states|
    requires ip != "" && ref < |states[j].heap| && states[j].heap[ref].ip == ip
    requires forall i :: j <= i < k ==> !SyncsElsewhere(states[i], events[i], ip)
    ensures ref < |states[k].heap| && states[k].heap[ref] == states[j].heap[ref]
    ensures states[j].log <= states[k].log && NotRegisteredSince(states[k].log, |states[j].log|, ref)
  {
    forall i | j <= i < k
      ensures LeavesSettled(states[i], states[i + 1], ip, ref)
    {
      SettledAt(cfg, ok, states, events, i, ip, ref);
    }
    SettledAlong(states, j, k, ip, ref);
  }
}
