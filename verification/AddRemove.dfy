/** What remove undoes of add, and how the uninterrupted `add` relates to the steps of its goroutine
    (bridge/bridge.go).
  */
module AddRemove {
  import opened Options
  import opened BridgeState
  import opened Lifecycle
  import opened BridgeObject
  import opened KeyedRegistry

  // ---------------------------------------------------------------- add, step by step

  /** The last loop of add, taken step by step by goroutine `i` with no other step in between. */
  function LoopAlone(ok: Outcomes, st: State, i: nat): State
    requires i < |st.tasks| && st.tasks[i].AddLoop?
    decreases |st.tasks[i].todo|
  {
    var st1 := RegisterStep(ok, st, i);
    if st.tasks[i].todo == [] then st1
    else if st1.tasks[i].AddAppend? then LoopAlone(ok, AppendStep(st1, i), i)
    else LoopAlone(ok, st1, i)
  }

  lemma {:induction false} AddAllCons(st: State, ok: Outcomes, id: string, first: Service, rest: seq<Service>)
    ensures AddAll(st, ok, id, [first] + rest) == AddAll(AddOne(st, ok, id, first), ok, id, rest)
  {
    var all := [first] + rest;
    if rest == [] {
      assert all == [first] && all[..0] == [];
    } else {
      var front := rest[..|rest| - 1];
      AddAllCons(st, ok, id, first, front);
      assert all[..|all| - 1] == [first] + front && all[|all| - 1] == rest[|rest| - 1];
    }
  }

  /** One iteration, in one step or two, is `AddOne`. */
  lemma IterationAlone(ok: Outcomes, st: State, i: nat)
    requires i < |st.tasks| && st.tasks[i].AddLoop? && st.tasks[i].todo != []
    ensures var t, st1 := st.tasks[i], RegisterStep(ok, st, i);
            var st2 := if st1.tasks[i].AddAppend? then AppendStep(st1, i) else st1;
            st2 == SetTask(AddOne(st, ok, t.c, t.todo[0]), i, AddLoop(t.c, t.todo[1..]))
  {
    var t, st1 := st.tasks[i], RegisterStep(ok, st, i);
    assert st.tasks[i := AddAppend(t.c, |st.heap|, t.todo[1..])][i := AddLoop(t.c, t.todo[1..])]
        == st.tasks[i := AddLoop(t.c, t.todo[1..])];
  }

  lemma AddOneTask(st: State, ok: Outcomes, id: string, s: Service, i: nat, t: Task)
    requires i < |st.tasks|
    ensures AddOne(SetTask(st, i, t), ok, id, s) == SetTask(AddOne(st, ok, id, s), i, t)
  {
  }

  lemma {:induction false} AddAllTask(st: State, ok: Outcomes, id: string, all: seq<Service>, i: nat, t: Task)
    requires i < |st.tasks|
    ensures |AddAll(st, ok, id, all).tasks| == |st.tasks|
    ensures AddAll(SetTask(st, i, t), ok, id, all) == SetTask(AddAll(st, ok, id, all), i, t)
  {
    AddAllSizes(st, ok, id, all);
    if all != [] {
      AddAllTask(st, ok, id, all[..|all| - 1], i, t);
      AddOneTask(AddAll(st, ok, id, all[..|all| - 1]), ok, id, all[|all| - 1], i, t);
    }
  }

  lemma SetTaskTwice(st: State, i: nat, t: Task, u: Task)
    requires i < |st.tasks|
    ensures SetTask(SetTask(st, i, t), i, u) == SetTask(st, i, u)
  {
    assert st.tasks[i := t][i := u] == st.tasks[i := u];
  }

  /** The goroutine's own steps, uninterrupted, do what the loop of `add` does. */
  lemma {:induction false} LoopAloneIsAddAll(ok: Outcomes, st: State, i: nat)
    requires i < |st.tasks| && st.tasks[i].AddLoop?
    ensures |AddAll(st, ok, st.tasks[i].c, st.tasks[i].todo).tasks| == |st.tasks|
    ensures LoopAlone(ok, st, i) == SetTask(AddAll(st, ok, st.tasks[i].c, st.tasks[i].todo), i, Done)
    decreases |st.tasks[i].todo|
  {
    var c, todo := st.tasks[i].c, st.tasks[i].todo;
    AddAllSizes(st, ok, c, todo);
    if todo != [] {
      IterationAlone(ok, st, i);
      var one := AddOne(st, ok, c, todo[0]);
      var next := SetTask(one, i, AddLoop(c, todo[1..]));
      LoopAloneIsAddAll(ok, next, i);
      AddAllTask(one, ok, c, todo[1..], i, AddLoop(c, todo[1..]));
      SetTaskTwice(AddAll(one, ok, c, todo[1..]), i, AddLoop(c, todo[1..]), Done);
      assert todo == [todo[0]] + todo[1..];
      AddAllCons(st, ok, c, todo[0], todo[1..]);
    }
  }

  /** All of an add, step by step, by goroutine `i` with no other step in between. */
  function StepsAlone(cfg: Config, ok: Outcomes, st: State, i: nat, container: Option<Container>): State
    requires Valid(st) && !st.locked && i < |st.tasks| && st.tasks[i].AddStart?
  {
    var st1 := Step(cfg, ok, st, Run(i, Nothing));
    var st2 := CheckStep(st1, i);
    if st2.tasks[i].Done? then st2
    else
      var st3 := InspectStep(st2, i, container);
      if st3.tasks[i].Done? then st3 else LoopAlone(ok, st3, i)
  }

  /** The goroutine's steps, uninterrupted, do what `add` does. */
  lemma StepsAloneIsAdd(cfg: Config, ok: Outcomes, st: State, i: nat, container: Option<Container>)
    requires Valid(st) && !st.locked && i < |st.tasks| && st.tasks[i].AddStart?
    ensures var after := AddAlone(st, ok, st.tasks[i].c, container);
            |after.tasks| == |st.tasks| && StepsAlone(cfg, ok, st, i, container) == SetTask(after, i, Done)
  {
    var c := st.tasks[i].c;
    var start := DeleteDead(st, c);
    var st1 := Step(cfg, ok, st, Run(i, Nothing));
    var st2 := CheckStep(st1, i);
    SetTaskTwice(start, i, st1.tasks[i], st2.tasks[i]);
    if Tracked(start, c) == [] {
      var st3 := InspectStep(st2, i, container);
      SetTaskTwice(start, i, st2.tasks[i], st3.tasks[i]);
      if container.Some? {
        var id, all := container.value.id, NewServices(container.value);
        LoopAloneIsAddAll(ok, st3, i);
        AddAllTask(start, ok, id, all, i, AddLoop(id, all));
        SetTaskTwice(AddAll(start, ok, id, all), i, AddLoop(id, all), Done);
      }
    }
  }

  // ---------------------------------------------------------------- a container that has stopped

  /** A RemoveOnExit without interruption: its two steps are a remove that deregisters if the bridge always does, if
      the container is gone, or if it stopped with success or by a signal. */
  lemma RemoveOnExitAlone(cfg: Config, ok: Outcomes, st: State, i: nat, inspection: Inspection)
    requires Valid(st) && !st.locked && i < |st.tasks| && st.tasks[i].RemoveStart?
    ensures var c, st1 := st.tasks[i].c, Step(cfg, ok, st, Run(i, Examined(inspection)));
            && Valid(st1) && Enabled(st1, Run(i, Nothing))
            && var r, all := Step(cfg, ok, st1, Run(i, Nothing)), Remove(cfg, st, ok, c, true);
               if || cfg.always || inspection.NoSuchContainer?
                  || (inspection.Status? && !inspection.running
                      && (inspection.exitCode == 0 || (inspection.exitCode / 128) % 2 == 1))
               then r == SetTask(st, i, Done).(services := all.services, dead := all.dead, log := all.log)
               else r.log == st.log && c !in r.services
                    && r.dead == if cfg.refreshTtl != 0 && Tracked(st, c) != []
                                 then st.dead[c := DeadContainer(cfg.refreshTtl, Tracked(st, c))] else st.dead
  {
    var c, st1 := st.tasks[i].c, Step(cfg, ok, st, Run(i, Examined(inspection)));
    RemoveShape(cfg, st, ok, c, true);
    RemoveShape(cfg, st1, ok, c, ShouldRemove(cfg.always, inspection));
    assert st1.tasks[i := Done] == st.tasks[i := Done];
    if ShouldRemove(cfg.always, inspection) {
      RemoveSameLog(cfg, st, st1, ok, c);
    }
  }

  lemma {:induction false} DeregisterAllSame(st: State, st': State, ok: Outcomes, refs: seq<Ref>)
    requires ValidRefs(refs, |st.heap|) && st'.heap == st.heap && st'.log == st.log
    ensures DeregisterAll(st, ok, refs).log == DeregisterAll(st', ok, refs).log
  {
    if refs != [] {
      DeregisterAllSame(st, st', ok, refs[..|refs| - 1]);
    }
  }

  lemma RemoveSameLog(cfg: Config, st: State, st': State, ok: Outcomes, c: string)
    requires Valid(st) && st' == st.(tasks := st'.tasks)
    ensures Valid(st') && Remove(cfg, st, ok, c, true).log == Remove(cfg, st', ok, c, true).log
  {
    DeregisterAllSame(st, st', ok, Tracked(st, c));
    if c in st.dead {
      DeregisterAllSame(DeregisterAll(st, ok, Tracked(st, c)), DeregisterAll(st', ok, Tracked(st, c)), ok,
                        st.dead[c].services);
    }
  }

  // ---------------------------------------------------------------- the calls of remove

  lemma {:induction false} DeregisterAllCalls(st: State, ok: Outcomes, refs: seq<Ref>, i: nat)
    requires ValidRefs(refs, |st.heap|)
    ensures var r, n := DeregisterAll(st, ok, refs), |st.log|;
            && |r.log| == n + |refs| && st.log <= r.log
            && (i < |refs| ==> r.log[n + i] == Call(Deregister, Some(refs[i]), st.heap[refs[i]], ok(n + i)))
  {
    if refs != [] {
      DeregisterAllCalls(st, ok, refs[..|refs| - 1], i);
    }
  }

  /** A remove that deregisters calls Deregister once for every live and then for every dead service of the
      container, whatever fails on the way; one that does not makes no call. */
  lemma RemoveCalls(cfg: Config, st: State, ok: Outcomes, c: string, deregister: bool, i: nat)
    requires Valid(st)
    ensures var r, n := Remove(cfg, st, ok, c, deregister), |st.log|;
            var refs := Tracked(st, c) + if c in st.dead then st.dead[c].services else [];
            if deregister then
              && |r.log| == n + |refs| && st.log <= r.log
              && (i < |refs| ==> r.log[n + i] == Call(Deregister, Some(refs[i]), st.heap[refs[i]], ok(n + i)))
            else r.log == st.log
  {
    var live := Tracked(st, c);
    DeregisterAllCalls(st, ok, live, i);
    if c in st.dead {
      var a := DeregisterAll(st, ok, live);
      DeregisterAllCalls(a, ok, st.dead[c].services, if i < |live| then 0 else i - |live|);
    }
  }

  // ---------------------------------------------------------------- add, then remove

  lemma SameLogSameRegistry(key: KeyOf, reg: Registry, n: nat, a: State, b: State)
    requires a.log == b.log && n <= |a.log|
    ensures RegistryOf(key, reg, n, a) == RegistryOf(key, reg, n, b)
  {
  }

  lemma RegistryAfterAddOne(key: KeyOf, reg: Registry, n: nat, st: State, ok: Outcomes, id: string, s: Service)
    requires NoFaults(ok) && n <= |st.log|
    ensures RegistryOf(key, reg, n, AddOne(st, ok, id, s)) == RegistryOf(key, reg, n, st)[key(s) := s]
  {
    var made := st.(heap := st.heap + [s]);
    SameLogSameRegistry(key, reg, n, made, st);
    RegistryCall(key, reg, n, made, ok, Register, Some(|st.heap|), s);
    SameLogSameRegistry(key, reg, n, AddOne(st, ok, id, s), CallRegistry(made, ok, Register, Some(|st.heap|), s));
  }

  lemma {:induction false} RegistryAfterAdd(key: KeyOf, reg: Registry, st: State, ok: Outcomes, id: string,
                                            all: seq<Service>, k: string)
    requires NoFaults(ok)
    ensures var r := AddAll(st, ok, id, all);
            && |st.log| <= |r.log|
            && var after := RegistryOf(key, reg, |st.log|, r);
               && (k in after <==> k in reg || exists i :: 0 <= i < |all| && key(all[i]) == k)
               && (k in reg && (forall i :: 0 <= i < |all| ==> key(all[i]) != k) ==> after[k] == reg[k])
  {
    var n := |st.log|;
    if all == [] {
      assert RegistryOf(key, reg, n, st) == reg;
    } else {
      var front, s := all[..|all| - 1], all[|all| - 1];
      RegistryAfterAdd(key, reg, st, ok, id, front, k);
      RegistryAfterAddOne(key, reg, n, AddAll(st, ok, id, front), ok, id, s);
      assert forall i :: 0 <= i < |front| ==> front[i] == all[i];
    }
  }

  lemma ValidAfterAdd(st: State, ok: Outcomes, id: string, all: seq<Service>)
    requires Valid(st) && Tracked(st, id) == [] && id !in st.dead
    ensures Valid(AddAll(st, ok, id, all)) && id !in AddAll(st, ok, id, all).dead
  {
    AddAllSizes(st, ok, id, all);
    OnlyFirstAcceptedIsTracked(st, ok, id, all);
  }

  /** The removal of a container that is not dead, with at most one service. */
  lemma RemoveOne(cfg: Config, st: State, ok: Outcomes, c: string)
    requires Valid(st) && c !in st.dead && |Tracked(st, c)| <= 1
    ensures var r := Remove(cfg, st, ok, c, true);
            if Tracked(st, c) == [] then r.log == st.log
            else var ref := Tracked(st, c)[0]; r.log == CallRegistry(st, ok, Deregister, Some(ref), st.heap[ref]).log
  {
    var refs := Tracked(st, c);
    if refs != [] {
      assert refs[..0] == [] && DeregisterAll(st, ok, refs[..0]) == st;
    }
  }

  /** The entry of `id` after its uninterrupted add, without faults: its first service. */
  lemma TrackedAfterAdd(st: State, ok: Outcomes, id: string, all: seq<Service>)
    requires Tracked(st, id) == [] && NoFaults(ok)
    ensures var r := AddAll(st, ok, id, all);
            if all == [] then Tracked(r, id) == []
            else Tracked(r, id) == [|st.heap|] && |st.heap| < |r.heap| && r.heap[|st.heap|] == all[0]
  {
    AddAllSizes(st, ok, id, all);
    OnlyFirstAcceptedIsTracked(st, ok, id, all);
    assert ok(|st.log|);
  }

  /** The remove after an add of `id`: it deregisters the first of its services and no other. */
  lemma RemoveAfterAdd(cfg: Config, key: KeyOf, reg: Registry, st: State, ok: Outcomes, id: string, all: seq<Service>)
    requires Valid(st) && Tracked(st, id) == [] && id !in st.dead && NoFaults(ok)
    ensures var r := AddAll(st, ok, id, all);
            && Valid(r) && |st.log| <= |r.log|
            && var gone := Remove(cfg, r, ok, id, true);
            && |st.log| <= |gone.log|
            && var between := RegistryOf(key, reg, |st.log|, r);
               RegistryOf(key, reg, |st.log|, gone) == if all == [] then between else between - {key(all[0])}
  {
    var n, r := |st.log|, AddAll(st, ok, id, all);
    AddAllSizes(st, ok, id, all);
    ValidAfterAdd(st, ok, id, all);
    TrackedAfterAdd(st, ok, id, all);
    RemoveOne(cfg, r, ok, id);
    var gone := Remove(cfg, r, ok, id, true);
    if all == [] {
      SameLogSameRegistry(key, reg, n, gone, r);
    } else {
      var called := CallRegistry(r, ok, Deregister, Some(|st.heap|), all[0]);
      SameLogSameRegistry(key, reg, n, gone, called);
      RegistryCall(key, reg, n, r, ok, Deregister, Some(|st.heap|), all[0]);
    }
  }

  /** Adding services under fresh, distinct keys and dropping the first key restores the registry exactly
      when there is at most one of them. */
  lemma DroppingFirstRestoresIff(key: KeyOf, reg: Registry, st: State, ok: Outcomes, id: string, all: seq<Service>)
    requires NoFaults(ok) && all != []
    requires forall i :: 0 <= i < |all| ==> key(all[i]) !in reg
    requires forall i, j :: 0 <= i < j < |all| ==> key(all[i]) != key(all[j])
    ensures |st.log| <= |AddAll(st, ok, id, all).log|
    ensures RegistryOf(key, reg, |st.log|, AddAll(st, ok, id, all)) - {key(all[0])} == reg <==> |all| == 1
  {
    AddAllSizes(st, ok, id, all);
    var between := RegistryOf(key, reg, |st.log|, AddAll(st, ok, id, all));
    if |all| == 1 {
      forall k
        ensures k in between <==> k in reg || k == key(all[0])
        ensures k in reg ==> between[k] == reg[k]
      {
        RegistryAfterAdd(key, reg, st, ok, id, all, k);
      }
      assert between - {key(all[0])} == reg;
    } else {
      RegistryAfterAdd(key, reg, st, ok, id, all, key(all[1]));
      assert key(all[1]) in between - {key(all[0])};
    }
  }

  /** Without faults, adding a container and removing it leaves the registry as it was exactly when the
      container has at most one service: of several, remove knows only the first. */
  lemma AddThenRemoveRestoresIff(cfg: Config, key: KeyOf, reg: Registry, st: State, ok: Outcomes, id: string,
                                 all: seq<Service>)
    requires Valid(st) && Tracked(st, id) == [] && id !in st.dead && NoFaults(ok)
    requires forall i :: 0 <= i < |all| ==> key(all[i]) !in reg
    requires forall i, j :: 0 <= i < j < |all| ==> key(all[i]) != key(all[j])
    ensures Valid(AddAll(st, ok, id, all))
    ensures var gone := Remove(cfg, AddAll(st, ok, id, all), ok, id, true);
            |st.log| <= |gone.log| && (RegistryOf(key, reg, |st.log|, gone) == reg <==> |all| <= 1)
  {
    RemoveAfterAdd(cfg, key, reg, st, ok, id, all);
    if all == [] {
      assert st.log[|st.log|..] == [];
    } else {
      DroppingFirstRestoresIff(key, reg, st, ok, id, all);
    }
  }
}
