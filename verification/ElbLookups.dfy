/** Register and heartbeat calls that share the cache: a container's data is asked for, looked up and stored
    in separate steps with no lock around them, and a lookup takes seconds (aws/cache.go, aws/elb.go).
  */
module ElbLookups {
  import opened Options
  import opened ElbCache

  /** The ELB attributes of each container, and the parser of its port. */
  datatype Env = Env(atoi: Atoi, explicit: string -> Option<Explicit>)

  /** A register or heartbeat call: before it asks the cache, between its miss and its store, and at its end. */
  datatype Task =
    | Asking(c: string, port: int)
    | LookingUp(c: string, port: int)
    | Finished(c: string, result: Option<LbInfo>)

  datatype State = State(cache: Contents, tasks: seq<Task>)

  /** A run of a task comes with what a lookup finds. */
  datatype Event =
    | Spawn(c: string, port: int)
    | Run(i: nat, lookup: Option<LbInfo>)
    | Deregister(c: string)
    | StoreOther(key: string, result: int, deadline: int)
    | Pass(seconds: nat)

  predicate Enabled(st: State, ev: Event)
  {
    match ev
    case Run(i, _) => i < |st.tasks| && !st.tasks[i].Finished?
    case StoreOther(key, _, _) => IsApiKey(key)
    case _ => true
  }

  function Ask(env: Env, st: State, i: nat): State
    requires i < |st.tasks| && st.tasks[i].Asking?
  {
    var c, port := st.tasks[i].c, st.tasks[i].port;
    if env.explicit(c).Some? then
      var info := ExplicitInfo(env.atoi, env.explicit(c).value);
      State(Put(st.cache, ContainerKey(c), Entry(LoadBalancer(info), None)), st.tasks[i := Finished(c, Some(info))])
    else
      match Lookup(st.cache, ContainerKey(c))
      case Some(LoadBalancer(info)) => st.(tasks := st.tasks[i := Finished(c, Some(Completed(info)))])
      case Some(Other(_)) => st.(tasks := st.tasks[i := Finished(c, None)])
      case None => st.(tasks := st.tasks[i := LookingUp(c, port)])
  }

  function Store(st: State, i: nat, lookup: Option<LbInfo>): State
    requires i < |st.tasks| && st.tasks[i].LookingUp?
  {
    var c := st.tasks[i].c;
    if lookup.None? then st.(tasks := st.tasks[i := Finished(c, None)])
    else State(Put(st.cache, ContainerKey(c), Entry(LoadBalancer(lookup.value), None)),
               st.tasks[i := Finished(c, Some(Completed(lookup.value)))])
  }

  function Step(env: Env, st: State, ev: Event): State
    requires Enabled(st, ev)
  {
    match ev
    case Spawn(c, port) => st.(tasks := st.tasks + [Asking(c, port)])
    case Run(i, lookup) => if st.tasks[i].Asking? then Ask(env, st, i) else Store(st, i, lookup)
    case Deregister(c) => st.(cache := Forgotten(st.cache, c))
    case StoreOther(key, result, deadline) => st.(cache := Put(st.cache, key, Entry(Other(result), Some(deadline))))
    case Pass(seconds) => st.(cache := st.cache.(now := st.cache.now + seconds))
  }

  const Initial: State := State(Contents(map[], 0), [])

  ghost predicate IsTrace(env: Env, states: seq<State>, events: seq<Event>)
  {
    && |states| == |events| + 1
    && forall k :: 0 <= k < |events| ==>
         Enabled(states[k], events[k]) && states[k + 1] == Step(env, states[k], events[k])
  }

  ghost predicate IsRun(env: Env, states: seq<State>, events: seq<Event>)
  {
    IsTrace(env, states, events) && states[0] == Initial
  }

  /** A call that nothing overlaps does what `getELBMetadata` does. */
  lemma AloneIsResolved(env: Env, st: State, i: nat, lookup: Option<LbInfo>)
    requires i < |st.tasks| && st.tasks[i].Asking?
    ensures var c, st1 := st.tasks[i].c, Ask(env, st, i);
            var st2 := if st1.tasks[i].LookingUp? then Store(st1, i, lookup) else st1;
            var (cache, result) := Resolved(env.atoi, st.cache, c, env.explicit(c), lookup);
            st2 == State(cache, st.tasks[i := Finished(c, result)])
  {
    var c, st1 := st.tasks[i].c, Ask(env, st, i);
    if st1.tasks[i].LookingUp? {
      var last := Store(st1, i, lookup).tasks[i];
      assert st1.tasks[i := last] == st.tasks[i := last];
    }
  }

  // ---------------------------------------------------------------- one step

  /** The container's data is settled: whatever port is passed in, a call that asks now gets `info`. */
  ghost predicate Settled(env: Env, st: State, c: string, info: LbInfo)
  {
    if env.explicit(c).Some? then info == ExplicitInfo(env.atoi, env.explicit(c).value)
    else
      var key := ContainerKey(c);
      && key in st.cache.entries && st.cache.entries[key].deadline.None?
      && st.cache.entries[key].value.LoadBalancer? && info == Completed(st.cache.entries[key].value.info)
  }

  /** The step stores what a lookup of `c` found, and it is not `info`. */
  predicate StoresOther(st: State, ev: Event, c: string, info: LbInfo)
  {
    && ev.Run? && ev.i < |st.tasks| && st.tasks[ev.i].LookingUp? && st.tasks[ev.i].c == c
    && ev.lookup.Some? && Completed(ev.lookup.value) != info
  }

  /** Settled data changes exactly when a pending lookup stores other data, or the container is deregistered. */
  lemma SettledChangesIff(env: Env, st: State, ev: Event, c: string, info: LbInfo)
    requires Enabled(st, ev) && Settled(env, st, c, info)
    ensures Settled(env, Step(env, st, ev), c, info) <==>
            env.explicit(c).Some? || !(StoresOther(st, ev, c, info) || ev == Deregister(c))
  {
    match ev
    case Spawn(_, _) =>
    case Run(i, _) => ContainerKeysApart(c, st.tasks[i].c, "tg");
    case Deregister(d) => ContainerKeysApart(c, d, "tg");
    case StoreOther(key, _, _) => ContainerKeysApart(c, c, key);
    case Pass(_) =>
  }

  /** A container's key comes up exactly when a lookup is stored, or explicit data is. */
  lemma KeyAppearsIff(env: Env, st: State, ev: Event, c: string)
    requires Enabled(st, ev) && ContainerKey(c) !in st.cache.entries
    ensures ContainerKey(c) in Step(env, st, ev).cache.entries <==>
            && ev.Run? && st.tasks[ev.i].c == c
            && (if st.tasks[ev.i].Asking? then env.explicit(c).Some? else ev.lookup.Some?)
  {
    match ev
    case Spawn(_, _) =>
    case Run(i, _) => ContainerKeysApart(c, st.tasks[i].c, "tg");
    case Deregister(d) => ContainerKeysApart(c, d, "tg");
    case StoreOther(key, _, _) => ContainerKeysApart(c, c, key);
    case Pass(_) =>
  }

  // ---------------------------------------------------------------- runs

  /** The step starts a lookup of `c`. */
  predicate Misses(env: Env, st: State, ev: Event, c: string)
  {
    && ev.Run? && ev.i < |st.tasks| && st.tasks[ev.i].Asking? && st.tasks[ev.i].c == c
    && env.explicit(c).None? && Lookup(st.cache, ContainerKey(c)).None?
  }

  predicate Looks(t: Task, c: string) { t.LookingUp? && t.c == c }

  /** The step starts a lookup of `c` while another one is under way. */
  predicate Overlaps(env: Env, st: State, ev: Event, c: string)
  {
    Misses(env, st, ev, c) && exists j :: 0 <= j < |st.tasks| && Looks(st.tasks[j], c)
  }

  /** Container keys are only ever written without a deadline and with load balancer data. */
  ghost predicate KeyOk(st: State, c: string)
  {
    ContainerKey(c) in st.cache.entries ==>
      && st.cache.entries[ContainerKey(c)].deadline.None?
      && st.cache.entries[ContainerKey(c)].value.LoadBalancer?
  }

  lemma KeyOkStep(env: Env, st: State, ev: Event, c: string)
    requires Enabled(st, ev) && KeyOk(st, c)
    ensures KeyOk(Step(env, st, ev), c)
  {
    match ev
    case Spawn(_, _) =>
    case Run(i, _) => ContainerKeysApart(c, st.tasks[i].c, "tg");
    case Deregister(d) => ContainerKeysApart(c, d, "tg");
    case StoreOther(key, _, _) => ContainerKeysApart(c, c, key);
    case Pass(_) =>
  }

  /** There is one lookup of `c` at most, and while it is under way `c` has no entry. */
  ghost predicate OneLookup(env: Env, st: State, c: string)
  {
    && KeyOk(st, c)
    && (forall i :: 0 <= i < |st.tasks| && Looks(st.tasks[i], c) ==>
          env.explicit(c).None? && ContainerKey(c) !in st.cache.entries)
    && (forall i, j :: 0 <= i < j < |st.tasks| ==> !(Looks(st.tasks[i], c) && Looks(st.tasks[j], c)))
  }

  lemma OneLookupStep(env: Env, st: State, ev: Event, c: string)
    requires Enabled(st, ev) && OneLookup(env, st, c) && !Overlaps(env, st, ev, c)
    ensures OneLookup(env, Step(env, st, ev), c)
  {
    var st' := Step(env, st, ev);
    KeyOkStep(env, st, ev, c);
    if ev.Run? {
      assert forall j :: 0 <= j < |st.tasks| && j != ev.i ==> st'.tasks[j] == st.tasks[j];
      assert Looks(st'.tasks[ev.i], c) ==> Misses(env, st, ev, c);
    }
    if ContainerKey(c) !in st.cache.entries {
      KeyAppearsIff(env, st, ev, c);
    }
  }

  lemma {:induction false} RunOneLookup(env: Env, states: seq<State>, events: seq<Event>, k: nat, c: string)
    requires IsRun(env, states, events) && k < |states|
    requires forall i :: 0 <= i < k ==> !Overlaps(env, states[i], events[i], c)
    ensures OneLookup(env, states[k], c)
  {
    if k > 0 {
      RunOneLookup(env, states, events, k - 1, c);
      OneLookupStep(env, states[k - 1], events[k - 1], c);
    }
  }

  /** The data of `c` is settled and no lookup of it is under way. */
  ghost predicate Quiet(env: Env, st: State, c: string, info: LbInfo)
  {
    Settled(env, st, c, info) && forall i :: 0 <= i < |st.tasks| ==> !Looks(st.tasks[i], c)
  }

  lemma QuietStep(env: Env, st: State, ev: Event, c: string, info: LbInfo)
    requires Enabled(st, ev) && Quiet(env, st, c, info) && ev != Deregister(c)
    ensures Quiet(env, Step(env, st, ev), c, info)
    ensures ev.Run? && st.tasks[ev.i].c == c ==> Step(env, st, ev).tasks[ev.i] == Finished(c, Some(info))
  {
    SettledChangesIff(env, st, ev, c, info);
    if ev.Run? {
      var st' := Step(env, st, ev);
      assert forall j :: 0 <= j < |st.tasks| && j != ev.i ==> st'.tasks[j] == st.tasks[j];
    }
  }

  /** A call that yields data leaves it settled, unless another lookup is under way. */
  lemma YieldSettles(env: Env, st: State, ev: Event, c: string, info: LbInfo)
    requires Enabled(st, ev) && ev.Run? && OneLookup(env, st, c)
    requires Step(env, st, ev).tasks[ev.i] == Finished(c, Some(info))
    ensures Quiet(env, Step(env, st, ev), c, info)
  {
    var st' := Step(env, st, ev);
    assert forall j :: 0 <= j < |st.tasks| && j != ev.i ==> st'.tasks[j] == st.tasks[j];
  }

  lemma {:induction false} StaysQuiet(env: Env, states: seq<State>, events: seq<Event>, j: nat, k: nat, c: string,
                                      info: LbInfo)
    requires IsTrace(env, states, events) && j <= k < |states| && Quiet(env, states[j], c, info)
    requires forall i :: j <= i < k ==> events[i] != Deregister(c)
    ensures Quiet(env, states[k], c, info)
    decreases k - j
  {
    if j < k {
      StaysQuiet(env, states, events, j, k - 1, c, info);
      QuietStep(env, states[k - 1], events[k - 1], c, info);
    }
  }

  /** In every run in which no two lookups of `c` overlap before its data is first obtained, every later
      register or heartbeat of `c` gets the same data, whatever port it passes, whatever a lookup would now find,
      however much time passes and whatever else is cached, until `c` is deregistered. */
  lemma ResolvedOnceForAll(env: Env, states: seq<State>, events: seq<Event>, j: nat, k: nat, c: string, info: LbInfo)
    requires IsRun(env, states, events) && j < k < |events|
    requires forall i :: 0 <= i < j ==> !Overlaps(env, states[i], events[i], c)
    requires events[j].Run? && states[j + 1].tasks[events[j].i] == Finished(c, Some(info))
    requires forall i :: j < i < k ==> events[i] != Deregister(c)
    requires events[k].Run? && states[k].tasks[events[k].i].c == c
    ensures states[k + 1].tasks[events[k].i] == Finished(c, Some(info))
  {
    RunOneLookup(env, states, events, j, c);
    YieldSettles(env, states[j], events[j], c, info);
    StaysQuiet(env, states, events, j + 1, k, c, info);
    QuietStep(env, states[k], events[k], c, info);
  }

  // ---------------------------------------------------------------- overlapping lookups

  ghost predicate Reachable(env: Env, st: State)
  {
    exists states, events :: IsRun(env, states, events) && states[|events|] == st
  }

  lemma ReachInitial(env: Env)
    ensures Reachable(env, Initial)
  {
    assert IsRun(env, [Initial], []);
  }

  lemma Reach(env: Env, st: State, ev: Event, st': State)
    requires Reachable(env, st) && Enabled(st, ev) && st' == Step(env, st, ev)
    ensures Reachable(env, st')
  {
    var states, events :| IsRun(env, states, events) && states[|events|] == st;
    var longer, all := states + [st'], events + [ev];
    forall k | 0 <= k < |all|
      ensures Enabled(longer[k], all[k]) && longer[k + 1] == Step(env, longer[k], all[k])
    {
      assert k < |events| ==> longer[k] == states[k] && longer[k + 1] == states[k + 1] && all[k] == events[k];
    }
    assert IsRun(env, longer, all) && longer[|all|] == st';
  }

  /** Two calls for one container, both past their miss. */
  lemma OverlapReachable(env: Env, c: string, port: int, port': int)
    requires env.explicit(c).None?
    ensures Reachable(env, Initial.(tasks := [LookingUp(c, port), LookingUp(c, port')]))
  {
    var empty := Initial.cache;
    ReachInitial(env);
    Reach(env, Initial, Spawn(c, port), State(empty, [Asking(c, port)]));
    Reach(env, State(empty, [Asking(c, port)]), Run(0, None), State(empty, [LookingUp(c, port)]));
    Reach(env, State(empty, [LookingUp(c, port)]), Spawn(c, port'),
          State(empty, [LookingUp(c, port), Asking(c, port')]));
    Reach(env, State(empty, [LookingUp(c, port), Asking(c, port')]), Run(1, None),
          State(empty, [LookingUp(c, port), LookingUp(c, port')]));
  }

  /** Overlapping lookups do change settled data: one call has registered `first` when the other stores `second`,
      which is what every later call gets. */
  lemma OverlapChangesData(env: Env, c: string, first: LbInfo, second: LbInfo) returns (st: State, ev: Event)
    requires env.explicit(c).None? && Completed(first) != Completed(second)
    ensures Reachable(env, st) && Enabled(st, ev)
    ensures Finished(c, Some(Completed(first))) in st.tasks && Settled(env, st, c, Completed(first))
    ensures Settled(env, Step(env, st, ev), c, Completed(second))
  {
    OverlapReachable(env, c, 80, 81);
    var cache := Put(Initial.cache, ContainerKey(c), Entry(LoadBalancer(first), None));
    st := State(cache, [Finished(c, Some(Completed(first))), LookingUp(c, 81)]);
    ev := Run(1, Some(second));
    Reach(env, Initial.(tasks := [LookingUp(c, 80), LookingUp(c, 81)]), Run(0, Some(first)), st);
  }

  /** A Deregister that falls between a miss and its store leaves the container's data behind. */
  lemma DeregisterUndone(env: Env, c: string, info: LbInfo) returns (st: State, late: Event)
    requires env.explicit(c).None?
    ensures Reachable(env, st) && Enabled(Step(env, st, Deregister(c)), late)
    ensures var after := Step(env, Step(env, st, Deregister(c)), late);
            Settled(env, after, c, Completed(info)) && forall i :: 0 <= i < |after.tasks| ==> after.tasks[i].Finished?
  {
    ReachInitial(env);
    var asking := Initial.(tasks := [Asking(c, 80)]);
    st, late := Initial.(tasks := [LookingUp(c, 80)]), Run(0, Some(info));
    Reach(env, Initial, Spawn(c, 80), asking);
    Reach(env, asking, Run(0, None), st);
  }
}
