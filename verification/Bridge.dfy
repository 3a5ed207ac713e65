/** The bridge object: the lock regions as methods that update its fields in place
    (bridge/bridge.go, bridge/servicesync.go).  Each is proved to have the effect that
    the transition system uses.
  */
module BridgeObject {
  import opened Options
  import opened ServiceId
  import opened BridgeState
  import opened Lifecycle
  import opened Copying

  // ---------------------------------------------------------------- add without interleaving

  /** One service of `add`: the object is made, registered and, if accepted, appended. */
  function AddOne(st: State, ok: Outcomes, id: string, service: Service): State
  {
    var st1 := CallRegistry(st.(heap := st.heap + [service]), ok, Register, Some(|st.heap|), service);
    if ok(|st.log|) then Append(st1, id, |st.heap|) else st1
  }

  function AddAll(st: State, ok: Outcomes, id: string, all: seq<Service>): State
  {
    if all == [] then st else AddOne(AddAll(st, ok, id, all[..|all| - 1]), ok, id, all[|all| - 1])
  }

  /** `add` when nothing else runs. */
  function AddAlone(st: State, ok: Outcomes, c: string, container: Option<Container>): State
  {
    var st1 := DeleteDead(st, c);
    if Tracked(st1, c) != [] then st1.(locked := true)
    else if container.None? then st1
    else AddAll(st1, ok, container.value.id, NewServices(container.value))
  }

  /** The first of `count` calls from log position `n` on that succeeds, or `count`. */
  function FirstAccepted(ok: Outcomes, n: nat, count: nat): (k: nat)
    ensures k <= count
    ensures k < count ==> ok(n + k)
    ensures forall j :: n <= j < n + k ==> !ok(j)
  {
    if count == 0 then 0
    else
      var k := FirstAccepted(ok, n, count - 1);
      if k < count - 1 then k else if ok(n + count - 1) then count - 1 else count
  }

  lemma {:induction false} AddAllSizes(st: State, ok: Outcomes, id: string, all: seq<Service>)
    ensures var r := AddAll(st, ok, id, all);
            && r == st.(heap := st.heap + all, log := r.log, services := r.services)
            && |r.log| == |st.log| + |all| && st.log <= r.log
  {
    if all == [] {
      assert st.heap + all == st.heap;
    } else {
      AddAllSizes(st, ok, id, all[..|all| - 1]);
      assert st.heap + all == st.heap + all[..|all| - 1] + [all[|all| - 1]];
    }
  }

  /** Every service of the container is registered, in order, whatever became of the others. */
  lemma {:induction false} AllAreRegistered(st: State, ok: Outcomes, id: string, all: seq<Service>, i: nat)
    requires i < |all|
    ensures var r, n := AddAll(st, ok, id, all), |st.log|;
            n + i < |r.log| && r.log[n + i] == Call(Register, Some(|st.heap| + i), all[i], ok(n + i))
  {
    var front := all[..|all| - 1];
    AddAllSizes(st, ok, id, front);
    AddAllSizes(st, ok, id, all);
    if i < |front| {
      AllAreRegistered(st, ok, id, front, i);
    }
  }

  /** Of the accepted services only the first is ever tracked: the others stay registered with nothing in
      the bridge to deregister them. */
  lemma {:induction false} OnlyFirstAcceptedIsTracked(st: State, ok: Outcomes, id: string, all: seq<Service>)
    requires Tracked(st, id) == []
    ensures var k := FirstAccepted(ok, |st.log|, |all|);
            AddAll(st, ok, id, all).services == if k < |all| then st.services[id := [|st.heap| + k]] else st.services
  {
    if all != [] {
      var front := all[..|all| - 1];
      OnlyFirstAcceptedIsTracked(st, ok, id, front);
      AddAllSizes(st, ok, id, front);
      var ref := |st.heap| + |front|;
      assert [] + [ref] == [ref];
      assert AddAll(st, ok, id, front).services == st.services ==> Tracked(AddAll(st, ok, id, front), id) == [];
    }
  }

  class Bridge {
    const cfg: Config
    /** The registry's behaviour: the outcome of its n-th call. */
    const ok: Outcomes

    var services: map<string, seq<Ref>>
    var deadContainers: map<string, DeadContainer>
    var heap: seq<Service>
    var log: seq<Call>
    var locked: bool
    var tasks: seq<Task>

    function St(): State
      reads this
    {
      State(services, deadContainers, heap, log, locked, tasks)
    }

    constructor (cfg: Config, ok: Outcomes)
      ensures this.cfg == cfg && this.ok == ok
      ensures St() == State(map[], map[], [], [], false, [])
    {
      this.cfg, this.ok := cfg, ok;
      services, deadContainers, heap, log, locked, tasks := map[], map[], [], [], false, [];
    }

    method CallRegistry(op: Op, ref: Option<Ref>, service: Service) returns (success: bool)
      modifies this`log
      ensures St() == BridgeState.CallRegistry(old(St()), ok, op, ref, service)
      ensures success == ok(|old(log)|)
    {
      success := ok(|log|);
      log := log + [Call(op, ref, service, success)];
    }

    method Go(task: Task)
      modifies this`tasks
      ensures St() == Spawned(old(St()), task)
    {
      tasks := tasks + [task];
    }

    method DeleteDeadContainer(c: string)
      modifies this`services, this`deadContainers
      ensures St() == DeleteDead(old(St()), c)
    {
      if c in deadContainers {
        services := services[c := deadContainers[c].services];
        deadContainers := deadContainers - {c};
      }
    }

    method AppendService(c: string, ref: Ref)
      modifies this`services
      ensures St() == Append(old(St()), c, ref)
    {
      if Tracked(St(), c) != [] {
        return;
      }
      services := services[c := Tracked(St(), c) + [ref]];
    }

    /** The second check of `add`: on finding the container it returns without unlocking. */
    method CheckUntracked(c: string) returns (proceed: bool)
      requires !locked
      modifies this`locked
      ensures proceed <==> Tracked(old(St()), c) == []
      ensures St() == old(St()).(locked := !proceed)
    {
      locked := true;
      if Tracked(St(), c) != [] {
        return false;
      }
      locked := false;
      return true;
    }

    method AddService(id: string, service: Service)
      modifies this`services, this`heap, this`log
      ensures St() == AddOne(old(St()), ok, id, service)
    {
      var ref := |heap|;
      heap := heap + [service];
      var success := CallRegistry(Register, Some(ref), service);
      if !success {
        return;
      }
      AppendService(id, ref);
    }

    /** `add`, when nothing else runs. */
    method Add(c: string, container: Option<Container>)
      requires !locked
      modifies this`services, this`deadContainers, this`heap, this`log, this`locked
      ensures St() == AddAlone(old(St()), ok, c, container)
    {
      DeleteDeadContainer(c);
      var proceed := CheckUntracked(c);
      if !proceed || container.None? {
        return;
      }
      var all := NewServices(container.value);
      ghost var before := St();
      for i := 0 to |all|
        invariant St() == AddAll(before, ok, container.value.id, all[..i])
      {
        assert all[..i + 1][..i] == all[..i];
        AddService(container.value.id, all[i]);
      }
      assert all[..|all|] == all;
    }

    method DeregisterList(refs: seq<Ref>)
      requires ValidRefs(refs, |heap|)
      modifies this`log
      ensures St() == DeregisterAll(old(St()), ok, refs)
    {
      for i := 0 to |refs|
        invariant St() == DeregisterAll(old(St()), ok, refs[..i])
      {
        var _ := CallRegistry(Deregister, Some(refs[i]), heap[refs[i]]);
        assert refs[..i + 1][..i] == refs[..i];
      }
      assert refs[..|refs|] == refs;
    }

    method RemoveContainer(c: string, deregister: bool)
      requires Valid(St())
      modifies this`services, this`deadContainers, this`log
      ensures St() == Remove(cfg, old(St()), ok, c, deregister)
    {
      if deregister {
        DeregisterList(Tracked(St(), c));
        if c in deadContainers {
          DeregisterList(deadContainers[c].services);
          deadContainers := deadContainers - {c};
        }
      } else if cfg.refreshTtl != 0 && Tracked(St(), c) != [] {
        deadContainers := deadContainers[c := DeadContainer(cfg.refreshTtl, Tracked(St(), c))];
      }
      services := services - {c};
    }

    /** Ranges over the map in any order, ageing records and deleting the expired ones on the way. */
    method PruneDeadContainers()
      modifies this`deadContainers
      ensures St() == Prune(cfg, old(St()))
    {
      ghost var was := deadContainers;
      var todo := deadContainers.Keys;
      while todo != {}
        invariant todo <= was.Keys
        invariant forall c :: c in todo ==> c in deadContainers && deadContainers[c] == was[c]
        invariant forall c :: c in deadContainers && c !in todo ==> c in Pruned(cfg, was)
        invariant forall c :: c in Pruned(cfg, was) && c !in todo ==>
                    c in deadContainers && deadContainers[c] == Pruned(cfg, was)[c]
        decreases todo
      {
        var c :| c in todo;
        todo := todo - {c};
        var record := deadContainers[c];
        deadContainers := deadContainers[c := record.(ttl := record.ttl - cfg.refreshInterval)];
        if deadContainers[c].ttl <= 0 {
          deadContainers := deadContainers - {c};
        }
      }
      assert deadContainers == Pruned(cfg, was);
    }

    /** The inner loop: the services of one container. */
    method CopyList(list: seq<Ref>) returns (c: seq<Service>)
      requires ValidRefs(list, |heap|)
      ensures |c| == |list| && forall k :: 0 <= k < |list| ==> c[k] == heap[list[k]]
    {
      c := [];
      for j := 0 to |list|
        invariant |c| == j && forall k :: 0 <= k < j ==> c[k] == heap[list[k]]
      {
        c := c + [heap[list[j]]];
      }
    }

    /** Copies every tracked service, container by container. */
    method GetServicesCopy(order: seq<string>) returns (copies: seq<Service>)
      requires Valid(St()) && IsIteration(order, services.Keys)
      ensures copies == Copies(St(), order)
      ensures forall s :: s in copies <==>
                exists c, i :: c in services && 0 <= i < |services[c]| && s == heap[services[c][i]]
    {
      copies := [];
      for i := 0 to |order|
        invariant copies == Copies(St(), order[..i])
      {
        var c := CopyList(Tracked(St(), order[i]));
        copies := copies + c;
        assert order[..i + 1][..i] == order[..i];
      }
      assert order[..|order|] == order;
      forall s
        ensures s in copies <==> exists c, i :: c in services && 0 <= i < |services[c]| && s == heap[services[c][i]]
      {
        CopiesAreTracked(St(), order, s);
      }
    }

    method ReregisterService(ref: Ref, newIP: string)
      requires ref < |heap|
      modifies this`heap, this`log
      ensures St() == Reregister(old(St()), ok, ref, newIP)
    {
      if newIP != "" {
        if heap[ref].ip == newIP {
          return;
        }
        var success := CallRegistry(Deregister, Some(ref), heap[ref]);
        if !success {
          return;
        }
        heap := heap[ref := heap[ref].(ip := newIP)];
        heap := heap[ref := heap[ref].(origin := heap[ref].origin.(hostIP := newIP))];
        success := CallRegistry(Register, Some(ref), heap[ref]);
        return;
      }
      var _ := CallRegistry(Register, Some(ref), heap[ref]);
    }

    /** Deregisters exactly the dangling services among those the registry reports, in order. */
    method CleanupServices(ext: seq<Service>)
      requires Valid(St())
      modifies this`log
      ensures St() == Cleanup(cfg, old(St()), ok, ext)
    {
      label Outer: for n := 0 to |ext|
        invariant St() == Cleanup(cfg, old(St()), ok, ext[..n])
      {
        assert ext[..n + 1][..n] == ext[..n];
        var parts := ParseId(ext[n].id);
        if parts.None? {
          continue Outer;
        }
        if parts.value.host != cfg.hostname {
          continue Outer;
        }
        var todo := services.Keys;
        while todo != {}
          invariant todo <= services.Keys
          invariant forall c :: c in services && c !in todo ==>
                      !AcknowledgedIn(St(), services[c], ext[n].name, parts.value.name)
          invariant St() == Cleanup(cfg, old(St()), ok, ext[..n])
          decreases todo
        {
          var c :| c in todo;
          todo := todo - {c};
          var listing := services[c];
          for i := 0 to |listing|
            invariant forall j :: 0 <= j < i ==>
                        !(heap[listing[j]].name == ext[n].name && ContainerName(heap[listing[j]]) == parts.value.name)
            invariant St() == Cleanup(cfg, old(St()), ok, ext[..n])
          {
            var service := heap[listing[i]];
            if service.name == ext[n].name && parts.value.name == ContainerName(service) {
              assert AcknowledgedIn(St(), services[c], ext[n].name, parts.value.name);
              continue Outer;
            }
          }
        }
        assert Dangling(cfg, old(St()), ext[n]);
        var _ := CallRegistry(Deregister, None, ext[n]);
      }
      assert ext[..|ext|] == ext;
    }

    /** The inner loop: the services of one container. */
    method ReregisterList(list: seq<Ref>, newIP: string)
      requires ValidRefs(list, |heap|)
      modifies this`heap, this`log
      ensures St() == ReregisterAll(old(St()), ok, list, newIP)
    {
      for i := 0 to |list|
        invariant St() == ReregisterAll(old(St()), ok, list[..i], newIP)
      {
        assert list[..i + 1][..i] == list[..i];
        ReregisterService(list[i], newIP);
      }
      assert list[..|list|] == list;
    }

    method SyncListedContainers(listing: seq<string>, newIP: string)
      requires Valid(St())
      modifies this`heap, this`log, this`tasks
      ensures St() == SyncListed(old(St()), ok, listing, newIP)
    {
      for n := 0 to |listing|
        invariant St() == SyncListed(old(St()), ok, listing[..n], newIP)
      {
        assert listing[..n + 1][..n] == listing[..n];
        var list := Tracked(St(), listing[n]);
        if list == [] {
          Go(AddStart(listing[n], newIP));
        } else {
          ReregisterList(list, newIP);
        }
      }
      assert listing[..|listing|] == listing;
    }

    method SpawnStaleRemovals(order: seq<string>, nonExited: seq<string>)
      modifies this`tasks
      ensures St() == SpawnRemovals(old(St()), order, nonExited)
    {
      for n := 0 to |order|
        invariant St() == SpawnRemovals(old(St()), order[..n], nonExited)
      {
        assert order[..n + 1][..n] == order[..n];
        var found := false;
        for i := 0 to |nonExited|
          invariant !found && order[n] !in nonExited[..i]
        {
          if order[n] == nonExited[i] {
            found := true;
            break;
          }
        }
        if !found {
          Go(RemoveStart(order[n]));
        }
      }
      assert order[..|order|] == order;
    }

    method ServiceSync(newIP: string, answers: SyncAnswers)
      requires Valid(St())
      modifies this`heap, this`log, this`tasks
      ensures St() == Sync(cfg, old(St()), ok, newIP, answers)
    {
      if answers.listing.None? {
        return;
      }
      SyncListedContainers(answers.listing.value, newIP);
      if cfg.cleanup {
        if answers.nonExited.None? {
          return;
        }
        SpawnStaleRemovals(answers.order, answers.nonExited.value);
        if answers.ext.None? {
          return;
        }
        CleanupServices(answers.ext.value);
      }
    }
  }
}
