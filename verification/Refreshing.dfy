/** Refresh against registries in which it registers: the Zookeeper, etcd and SkyDNS adapters register again, and
    the Eureka adapter does when its heartbeat finds nothing (zookeeper/zookeeper.go, eureka/eureka.go).
    Refresh works on copies outside the mutex, so a copy can outlive what it was made from (bridge/bridge.go).
  */
module Refreshing {
  import opened Options
  import opened BridgeState
  import opened Lifecycle
  import opened KeyedRegistry
  import opened CleanupSafety
  import opened AddRemove
  import opened SyncRuns
  import opened Tracking

  /** The registry after the calls of `log`, when a Refresh registers. */
  function Renewed(key: KeyOf, log: seq<Call>): Registry
  {
    if log == [] then map[]
    else
      var reg, call := Renewed(key, log[..|log| - 1]), log[|log| - 1];
      if call.ok && call.op.Refresh? then reg[key(call.service) := call.service] else ApplyCall(key, reg, call)
  }

  /** Some object that the bridge tracks, has among the dead or is about to track has this key. */
  ghost predicate Claimed(key: KeyOf, st: State, k: string)
  {
    exists ref: Ref :: HasKey(key, st, ref, k)
  }

  ghost predicate HasKey(key: KeyOf, st: State, ref: Ref, k: string)
  {
    Held(st, ref) && ref < |st.heap| && key(st.heap[ref]) == k
  }

  /** An entry that no object of the bridge stands for. */
  ghost predicate Orphan(key: KeyOf, st: State, k: string)
  {
    k in Renewed(key, st.log) && !Claimed(key, st, k)
  }

  // ---------------------------------------------------------------- when a refresh makes an orphan

  lemma HeldInRefresh(ok: Outcomes, st: State, i: nat, ref: Ref)
    requires i < |st.tasks| && st.tasks[i].RefreshLoop?
    ensures Held(RefreshStep(ok, st, i), ref) <==> Held(st, ref)
  {
    var st' := RefreshStep(ok, st, i);
    assert forall c :: Goes(st', c, ref) <==> Goes(st, c, ref);
    assert forall j :: 0 <= j < |st.tasks| ==> (Holds(st'.tasks[j], ref) <==> Holds(st.tasks[j], ref));
  }

  /** A refresh makes an entry an orphan if and only if it succeeds, the entry is that of its copy and was gone,
      and nothing the bridge holds has its key any more. */
  lemma RefreshOrphansIff(key: KeyOf, ok: Outcomes, st: State, i: nat, k: string)
    requires i < |st.tasks| && st.tasks[i].RefreshLoop? && st.tasks[i].copies != []
    ensures Orphan(key, RefreshStep(ok, st, i), k) && !Orphan(key, st, k) <==>
            && ok(|st.log|) && k == key(st.tasks[i].copies[0])
            && k !in Renewed(key, st.log) && !Claimed(key, st, k)
  {
    var s, st' := st.tasks[i].copies[0], RefreshStep(ok, st, i);
    assert st'.log == st.log + [Call(Refresh, None, s, ok(|st.log|))];
    assert st'.log[..|st.log|] == st.log;
    forall ref: Ref
      ensures HasKey(key, st', ref, k) <==> HasKey(key, st, ref, k)
    {
      HeldInRefresh(ok, st, i, ref);
    }
  }

  // ---------------------------------------------------------------- nothing removes an orphan

  /** The calls of `log` from position `n` on neither register anything under `k`, nor are they cleanup calls
      that deregister it. */
  ghost predicate LeftAlone(key: KeyOf, log: seq<Call>, n: nat, k: string)
  {
    forall m :: n <= m < |log| && (log[m].op == Register || (log[m].op == Deregister && log[m].ref == None)) ==>
      key(log[m].service) != k
  }

  /** Every Deregister call from position `n` on is a cleanup call or concerns an object that `st` holds, as it
      is in `st`. */
  ghost predicate OnlyHeldGo(st: State, log: seq<Call>, n: nat)
  {
    forall m :: n <= m < |log| && log[m].op == Deregister && log[m].ref.Some? ==>
      var ref := log[m].ref.value;
      Held(st, ref) && ref < |st.heap| && log[m].service == st.heap[ref]
  }

  /** Every object that `st'` holds was held in `st` and is unchanged, or was registered as it is from position
      `n` on. */
  ghost predicate HeldOrNew(st: State, st': State, n: nat, ref: Ref)
  {
    || (Held(st, ref) && ref < |st.heap| && ref < |st'.heap| && st'.heap[ref] == st.heap[ref])
    || (ref < |st'.heap| && RegisteredSince(st'.log, n, st'.heap[ref]))
  }

  predicate RegisteredSince(log: seq<Call>, n: nat, s: Service)
  {
    exists m :: n <= m < |log| && log[m].op == Register && log[m].service == s
  }

  lemma RemoveOnlyHeld(cfg: Config, ok: Outcomes, st: State, c: string, deregister: bool)
    requires Valid(st)
    ensures OnlyHeldGo(st, Remove(cfg, st, ok, c, deregister).log, |st.log|)
  {
    var r, n := Remove(cfg, st, ok, c, deregister), |st.log|;
    var refs := Tracked(st, c) + if c in st.dead then st.dead[c].services else [];
    forall m | n <= m < |r.log| && r.log[m].op == Deregister && r.log[m].ref.Some?
      ensures var ref := r.log[m].ref.value;
              Held(st, ref) && ref < |st.heap| && r.log[m].service == st.heap[ref]
    {
      RemoveCalls(cfg, st, ok, c, deregister, m - n);
      assert refs[m - n] in refs;
      assert Goes(st, c, refs[m - n]);
    }
  }

  /** Where the listing loop stands: what it deregistered was tracked, as it was, and what it changed it
      registered. */
  ghost predicate LoopOk(st: State, now: State, ip: string)
  {
    && st.log <= now.log && |now.heap| == |st.heap| && now.services == st.services
    && (forall m :: |st.log| <= m < |now.log| && now.log[m].op == Deregister && now.log[m].ref.Some? ==>
          var ref := now.log[m].ref.value;
          (exists c :: InEntry(st.services, c, ref)) && ref < |st.heap| && now.log[m].service == st.heap[ref])
    && (forall r :: 0 <= r < |st.heap| ==>
          now.heap[r] == st.heap[r] || (now.heap[r].ip == ip && RegisteredSince(now.log, |st.log|, now.heap[r])))
  }

  lemma RegisteredStill(log: seq<Call>, log': seq<Call>, n: nat, s: Service)
    requires log <= log' && RegisteredSince(log, n, s)
    ensures RegisteredSince(log', n, s)
  {
    var m :| n <= m < |log| && log[m].op == Register && log[m].service == s;
    assert log'[m] == log[m];
  }

  lemma LoopMove(st: State, now: State, ok: Outcomes, c: string, ref: Ref, ip: string)
    requires LoopOk(st, now, ip) && InEntry(st.services, c, ref) && ref < |st.heap|
    ensures LoopOk(st, Reregister(now, ok, ref, ip), ip)
  {
    var next, n := Reregister(now, ok, ref, ip), |st.log|;
    assert now.log <= next.log;
    forall r | 0 <= r < |st.heap|
      ensures next.heap[r] == st.heap[r] || (next.heap[r].ip == ip && RegisteredSince(next.log, n, next.heap[r]))
    {
      if next.heap[r] != now.heap[r] {
        var last := |next.log| - 1;
        assert r == ref && next.log[last].op == Register && next.log[last].service == next.heap[r];
      } else if now.heap[r] != st.heap[r] {
        RegisteredStill(now.log, next.log, n, now.heap[r]);
      }
    }
  }

  lemma {:induction false} LoopMoves(st: State, now: State, ok: Outcomes, c: string, refs: seq<Ref>, ip: string)
    requires LoopOk(st, now, ip) && ValidRefs(refs, |now.heap|)
    requires forall r :: r in refs ==> InEntry(st.services, c, r)
    ensures LoopOk(st, ReregisterAll(now, ok, refs, ip), ip)
  {
    if refs != [] {
      LoopMoves(st, now, ok, c, refs[..|refs| - 1], ip);
      LoopMove(st, ReregisterAll(now, ok, refs[..|refs| - 1], ip), ok, c, refs[|refs| - 1], ip);
    }
  }

  lemma {:induction false} LoopKeepsOk(st: State, ok: Outcomes, listing: seq<string>, ip: string)
    requires Valid(st)
    ensures LoopOk(st, SyncListed(st, ok, listing, ip), ip)
  {
    if listing != [] {
      var front, c := listing[..|listing| - 1], listing[|listing| - 1];
      LoopKeepsOk(st, ok, front, ip);
      var now := SyncListed(st, ok, front, ip);
      if Tracked(now, c) != [] {
        LoopMoves(st, now, ok, c, Tracked(now, c), ip);
      }
    }
  }

  /** A whole sync: the cleanup adds only calls without an object. */
  lemma SyncOk(cfg: Config, st: State, ok: Outcomes, ip: string, answers: SyncAnswers)
    requires Valid(st)
    ensures LoopOk(st, Sync(cfg, st, ok, ip, answers), ip)
  {
    if answers.listing.Some? {
      LoopKeepsOk(st, ok, answers.listing.value, ip);
      var a := SyncListed(st, ok, answers.listing.value, ip);
      if cfg.cleanup && answers.nonExited.Some? && answers.ext.Some? {
        var b := SpawnRemovals(a, answers.order, answers.nonExited.value);
        CleanupOnly(cfg, b, ok, answers.ext.value);
        LoopOkCleaned(st, b, Cleanup(cfg, b, ok, answers.ext.value), ip);
      }
    }
  }

  lemma LoopOkCleaned(st: State, now: State, r: State, ip: string)
    requires LoopOk(st, now, ip) && r.heap == now.heap && r.services == now.services && now.log <= r.log
    requires forall n :: |now.log| <= n < |r.log| ==> r.log[n].ref == None
    ensures LoopOk(st, r, ip)
  {
    forall x | 0 <= x < |st.heap|
      ensures r.heap[x] == st.heap[x] || (r.heap[x].ip == ip && RegisteredSince(r.log, |st.log|, r.heap[x]))
    {
      if r.heap[x] != st.heap[x] {
        RegisteredStill(now.log, r.log, |st.log|, r.heap[x]);
      }
    }
  }

  // ---------------------------------------------------------------- all steps

  lemma SyncStepOnlyHeld(cfg: Config, ok: Outcomes, st: State, i: nat, answers: SyncAnswers)
    requires Valid(st) && i < |st.tasks| && st.tasks[i].SyncStart?
    ensures OnlyHeldGo(st, SyncStep(cfg, ok, st, i, answers).log, |st.log|)
  {
    var log := SyncStep(cfg, ok, st, i, answers).log;
    SyncOk(cfg, st, ok, st.tasks[i].ip, answers);
    forall m | |st.log| <= m < |log| && log[m].op == Deregister && log[m].ref.Some?
      ensures Held(st, log[m].ref.value)
    {
      var c :| InEntry(st.services, c, log[m].ref.value);
      assert Goes(st, c, log[m].ref.value);
    }
  }

  /** Besides the calls of a cleanup, a step deregisters only what the bridge holds, as it holds it. */
  lemma StepOnlyHeld(cfg: Config, ok: Outcomes, st: State, e: Event)
    requires Valid(st) && Enabled(st, e)
    ensures st.log <= Step(cfg, ok, st, e).log && OnlyHeldGo(st, Step(cfg, ok, st, e).log, |st.log|)
  {
    if e.Run? && st.tasks[e.i].SyncStart? {
      SyncStepOnlyHeld(cfg, ok, st, e.i, e.answer.answers);
      SyncOk(cfg, st, ok, st.tasks[e.i].ip, e.answer.answers);
    } else if e.Run? && st.tasks[e.i].RemoveLocked? {
      RemoveOnlyHeld(cfg, ok, st, st.tasks[e.i].c, st.tasks[e.i].deregister);
      RemoveShape(cfg, st, ok, st.tasks[e.i].c, st.tasks[e.i].deregister);
    }
  }

  lemma SyncHeldOrNew(cfg: Config, ok: Outcomes, st: State, i: nat, answers: SyncAnswers, ref: Ref)
    requires Inv(cfg, st) && Valid(st) && i < |st.tasks| && st.tasks[i].SyncStart?
    requires Held(SyncStep(cfg, ok, st, i, answers), ref)
    ensures HeldOrNew(st, SyncStep(cfg, ok, st, i, answers), |st.log|, ref)
  {
    HeldAfterSync(cfg, ok, st, i, answers, ref);
    HeldValid(cfg, st, ref);
    SyncOk(cfg, st, ok, st.tasks[i].ip, answers);
  }

  lemma RegisterHeldOrNew(cfg: Config, ok: Outcomes, st: State, e: Event, ref: Ref)
    requires Inv(cfg, st) && Registers(st, e) && Held(RegisterStep(ok, st, e.i), ref)
    ensures HeldOrNew(st, RegisterStep(ok, st, e.i), |st.log|, ref)
  {
    var st', n := RegisterStep(ok, st, e.i), |st.log|;
    HeldAfterRegister(ok, st, e, ref);
    if Held(st, ref) {
      HeldValid(cfg, st, ref);
    } else {
      assert st'.log[n].op == Register && st'.log[n].service == st'.heap[ref];
    }
  }

  /** What a step leaves held was held and is unchanged, or the step registered it as it is. */
  lemma StepHeldOrNew(cfg: Config, ok: Outcomes, st: State, e: Event, ref: Ref)
    requires Inv(cfg, st) && Valid(st) && Enabled(st, e) && Held(Step(cfg, ok, st, e), ref)
    ensures HeldOrNew(st, Step(cfg, ok, st, e), |st.log|, ref)
  {
    if Registers(st, e) {
      RegisterHeldOrNew(cfg, ok, st, e, ref);
    } else if e.Run? && st.tasks[e.i].SyncStart? {
      SyncHeldOrNew(cfg, ok, st, e.i, e.answer.answers, ref);
    } else {
      HeldBefore(cfg, ok, st, e, ref);
      HeldValid(cfg, st, ref);
      HeapKept(cfg, ok, st, e);
    }
  }

  lemma {:induction false} EntryStays(key: KeyOf, log: seq<Call>, log': seq<Call>, k: string)
    requires log <= log' && k in Renewed(key, log)
    requires forall m :: |log| <= m < |log'| && log'[m].op == Deregister ==> key(log'[m].service) != k
    ensures k in Renewed(key, log')
  {
    if |log'| == |log| {
      assert log' == log;
    } else {
      EntryStays(key, log, log'[..|log'| - 1], k);
    }
  }

  lemma OrphanStep(key: KeyOf, cfg: Config, ok: Outcomes, st: State, e: Event, k: string)
    requires Inv(cfg, st) && Valid(st) && Enabled(st, e) && Orphan(key, st, k)
    requires LeftAlone(key, Step(cfg, ok, st, e).log, |st.log|, k)
    ensures Orphan(key, Step(cfg, ok, st, e), k)
  {
    var st', n := Step(cfg, ok, st, e), |st.log|;
    StepOnlyHeld(cfg, ok, st, e);
    forall m | n <= m < |st'.log| && st'.log[m].op == Deregister
      ensures key(st'.log[m].service) != k
    {
      if st'.log[m].ref.Some? {
        assert !HasKey(key, st, st'.log[m].ref.value, k);
      }
    }
    EntryStays(key, st.log, st'.log, k);
    forall ref: Ref
      ensures !HasKey(key, st', ref, k)
    {
      if Held(st', ref) && ref < |st'.heap| {
        StepHeldOrNew(cfg, ok, st, e, ref);
        assert !HasKey(key, st, ref, k);
      }
    }
  }

  /** From one state to the next the log grows, and an orphan that is left alone stays. */
  ghost predicate Keeps(key: KeyOf, st: State, st': State, k: string)
  {
    && st.log <= st'.log
    && (Orphan(key, st, k) && LeftAlone(key, st'.log, |st.log|, k) ==> Orphan(key, st', k))
  }

  lemma RunKeeps(key: KeyOf, cfg: Config, ok: Outcomes, states: seq<State>, events: seq<Event>, i: nat, k: string)
    requires IsRun(cfg, ok, states, events) && i < |events|
    ensures Keeps(key, states[i], states[i + 1], k)
  {
    RunInv(cfg, ok, states, events, i);
    var st, e := states[i], events[i];
    StepOnlyHeld(cfg, ok, st, e);
    if Orphan(key, st, k) && LeftAlone(key, states[i + 1].log, |st.log|, k) {
      OrphanStep(key, cfg, ok, st, e, k);
    }
  }

  lemma {:induction false} KeepsAlong(key: KeyOf, states: seq<State>, j: nat, m: nat, k: string)
    requires j <= m < |states| && forall i :: j <= i < m ==> Keeps(key, states[i], states[i + 1], k)
    ensures states[j].log <= states[m].log
    ensures Orphan(key, states[j], k) && LeftAlone(key, states[m].log, |states[j].log|, k) ==> Orphan(key, states[m], k)
    decreases m - j
  {
    if j < m {
      KeepsAlong(key, states, j, m - 1, k);
      assert Keeps(key, states[m - 1], states[m - 1 + 1], k);
    }
  }

  /** In every run an orphan stays: nothing the bridge does removes it, unless a service is registered anew under
      its key or a cleanup that gets reports deregisters it. */
  lemma OrphanForGood(key: KeyOf, cfg: Config, ok: Outcomes, states: seq<State>, events: seq<Event>,
                      j: nat, m: nat, k: string)
    requires IsRun(cfg, ok, states, events) && j <= m < |states| && Orphan(key, states[j], k)
    requires LeftAlone(key, states[m].log, |states[j].log|, k)
    ensures Orphan(key, states[m], k)
  {
    forall i | j <= i < m
      ensures Keeps(key, states[i], states[i + 1], k)
    {
      RunKeeps(key, cfg, ok, states, events, i, k);
    }
    KeepsAlong(key, states, j, m, k);
  }

  // ---------------------------------------------------------------- a run that makes an orphan

  /** A container is tracked, and a refresh has made its copy. */
  function Copied(s: Service): State
  {
    Spawned(AfterOneAdd(s), RefreshLoop([s]))
  }

  lemma CopiedReachable(cfg: Config, ok: Outcomes, s: Service)
    requires NoFaults(ok)
    ensures Reachable(cfg, ok, Copied(s))
  {
    var c, before := s.origin.containerID, Spawned(AfterOneAdd(s), RefreshCopy);
    OneAddReachable(cfg, ok, s);
    Reach(cfg, ok, AfterOneAdd(s), Spawn(RefreshCopy));
    Reach(cfg, ok, before, Run(1, Iteration([c])));
    assert [c][..0] == [] && Copies(before, [c]) == [s];
    assert Step(cfg, ok, before, Run(1, Iteration([c]))) == Copied(s);
  }

  /** The container has been removed meanwhile. */
  function Removed(s: Service): State
  {
    State(map[], map[], [s], [Call(Register, Some(0), s, true), Call(Deregister, Some(0), s, true)], false,
          [AddLoop(s.origin.containerID, []), RefreshLoop([s]), Done])
  }

  lemma RemovedReachable(cfg: Config, ok: Outcomes, s: Service)
    requires NoFaults(ok)
    ensures Reachable(cfg, ok, Removed(s))
  {
    var c := s.origin.containerID;
    var started, locked := Spawned(Copied(s), RemoveStart(c)), Spawned(Copied(s), RemoveLocked(c, true));
    CopiedReachable(cfg, ok, s);
    Reach(cfg, ok, Copied(s), Spawn(RemoveStart(c)));
    Reach(cfg, ok, started, Run(2, Examined(NoSuchContainer)));
    assert Step(cfg, ok, started, Run(2, Examined(NoSuchContainer))) == locked;
    Reach(cfg, ok, locked, Run(2, Nothing));
    RemovedState(cfg, ok, s);
  }

  lemma RemovedState(cfg: Config, ok: Outcomes, s: Service)
    requires NoFaults(ok)
    ensures var locked := Spawned(Copied(s), RemoveLocked(s.origin.containerID, true));
            Valid(locked) && RemoveStep(cfg, ok, locked, 2) == Removed(s)
  {
    var c, locked := s.origin.containerID, Spawned(Copied(s), RemoveLocked(s.origin.containerID, true));
    RemoveShape(cfg, locked, ok, c, true);
    RemoveOne(cfg, locked, ok, c);
    assert ok(1);
    assert RemoveStep(cfg, ok, locked, 2).tasks == Removed(s).tasks;
  }

  /** A remove between the copying and the refresh: the refresh registers again what was just deregistered, and
      the bridge holds nothing that stands for it. */
  lemma RefreshRevives(key: KeyOf, cfg: Config, ok: Outcomes, s: Service) returns (st: State)
    requires NoFaults(ok)
    ensures Reachable(cfg, ok, st) && Orphan(key, st, key(s)) && forall ref: Ref :: !Held(st, ref)
  {
    RemovedReachable(cfg, ok, s);
    Reach(cfg, ok, Removed(s), Run(1, Nothing));
    st := RefreshStep(ok, Removed(s), 1);
    assert ok(2);
    var last := |st.log| - 1;
    assert st.log[last] == Call(Refresh, None, s, true);
    assert forall ref: Ref, c :: !Goes(st, c, ref);
    assert forall ref: Ref, i :: 0 <= i < |st.tasks| ==> !Holds(st.tasks[i], ref);
  }
}
