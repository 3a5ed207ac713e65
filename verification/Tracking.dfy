/** Whether a tracked service is registered, over all interleavings and against a registry that files services
    under their IDs and does not fail (bridge/bridge.go, bridge/servicesync.go).
  */
module Tracking {
  import opened Options
  import opened ServiceId
  import opened BridgeState
  import opened Lifecycle
  import opened KeyedRegistry
  import opened CleanupSafety

  /** The registry has an entry under this ID. */
  ghost predicate Filed(st: State, id: string)
  {
    id in RegistryOf(Id, map[], 0, st)
  }

  lemma FiledCall(st: State, ok: Outcomes, op: Op, ref: Option<Ref>, s: Service, id: string)
    requires NoFaults(ok)
    ensures Filed(CallRegistry(st, ok, op, ref, s), id) <==>
            match op
            case Register => id == s.id || Filed(st, id)
            case Deregister => id != s.id && Filed(st, id)
            case Refresh => Filed(st, id)
  {
    RegistryCall(Id, map[], 0, st, ok, op, ref, s);
  }

  lemma FiledSame(st: State, st': State, id: string)
    requires st'.log == st.log
    ensures Filed(st', id) <==> Filed(st, id)
  {
  }

  // ---------------------------------------------------------------- who holds a service

  predicate InEntry(entries: map<string, seq<Ref>>, c: string, ref: Ref)
  {
    c in entries && ref in entries[c]
  }

  predicate InDead(dead: map<string, DeadContainer>, c: string, ref: Ref)
  {
    c in dead && ref in dead[c].services
  }

  /** The task has registered the object and is about to append it. */
  predicate Holds(t: Task, ref: Ref)
  {
    t.AddAppend? && t.ref == ref
  }

  /** Some entry other than those of `but` holds the object, or some task does. */
  ghost predicate HeldBeside(st: State, but: string, ref: Ref)
  {
    || (exists c :: c != but && Goes(st, c, ref))
    || (exists i :: 0 <= i < |st.tasks| && Holds(st.tasks[i], ref))
  }

  ghost predicate Held(st: State, ref: Ref)
  {
    || (exists c :: Goes(st, c, ref))
    || (exists i :: 0 <= i < |st.tasks| && Holds(st.tasks[i], ref))
  }

  /** Every service that is tracked, dead or about to be tracked is registered. */
  ghost predicate AllFiled(st: State)
  {
    forall ref: Ref :: Held(st, ref) && ref < |st.heap| ==> Filed(st, st.heap[ref].id)
  }

  /** The object is among those that a remove of `c` deregisters. */
  predicate Goes(st: State, c: string, ref: Ref)
  {
    InEntry(st.services, c, ref) || InDead(st.dead, c, ref)
  }

  /** The step deregisters an ID that something goes on holding: it removes a container while another container,
      or an add between its Register and its append, has a service with that ID; or its cleanup takes the
      report of a service that is held for dangling. */
  ghost predicate Strands(cfg: Config, st: State, e: Event)
    requires Valid(st) && Enabled(st, e)
  {
    && e.Run?
    && match st.tasks[e.i]
       case RemoveLocked(c, deregister) => deregister && StrandedByRemove(st, c)
       case SyncStart(_, _) => StrandedByCleanup(cfg, st, e.answer.answers)
       case _ => false
  }

  ghost predicate StrandedByRemove(st: State, c: string)
  {
    exists ref: Ref :: HeldBeside(st, c, ref) && Removed(st, c, ref)
  }

  /** A remove of `c` deregisters the ID of this object. */
  ghost predicate Removed(st: State, c: string, ref: Ref)
  {
    exists r: Ref :: Goes(st, c, r) && SameId(st, ref, r)
  }

  predicate SameId(st: State, ref: Ref, r: Ref)
  {
    ref < |st.heap| && r < |st.heap| && st.heap[ref].id == st.heap[r].id
  }

  /** The sync gets as far as its cleanup. */
  predicate Swept(cfg: Config, answers: SyncAnswers)
  {
    cfg.cleanup && answers.listing.Some? && answers.nonExited.Some? && answers.ext.Some?
  }

  ghost predicate StrandedByCleanup(cfg: Config, st: State, answers: SyncAnswers)
    requires Valid(st)
  {
    && Swept(cfg, answers)
    && exists ref: Ref :: Held(st, ref) && ref < |st.heap| && Sweeps(cfg, st, answers.ext.value, st.heap[ref].id)
  }

  /** Cleanup deregisters this ID. */
  ghost predicate Sweeps(cfg: Config, st: State, ext: seq<Service>, id: string)
    requires Valid(st)
  {
    exists x :: x in ext && x.id == id && Dangling(cfg, st, x)
  }

  // ---------------------------------------------------------------- what a step holds was held before

  lemma HeldValid(cfg: Config, st: State, ref: Ref)
    requires Inv(cfg, st) && Held(st, ref)
    ensures ref < |st.heap|
  {
    if i :| 0 <= i < |st.tasks| && Holds(st.tasks[i], ref) {
      assert TaskOk(st, st.tasks[i]);
    } else {
      var c :| Goes(st, c, ref);
      OwnerOf(cfg, st, c, ref);
    }
  }

  lemma OwnerOf(cfg: Config, st: State, c: string, ref: Ref)
    requires Inv(cfg, st) && Goes(st, c, ref)
    ensures ref < |st.heap| && st.heap[ref].origin.containerID == c
  {
    if InEntry(st.services, c, ref) {
      assert EntryOk(st, c, st.services[c]);
    } else {
      assert EntryOk(st, c, st.dead[c].services);
    }
  }

  /** Every object in the maps of `st'` is in those of `st` or held by task `i` there, which now holds nothing. */
  lemma HeldAfter(st: State, st': State, i: nat, t: Task, ref: Ref)
    requires i < |st.tasks| && st'.tasks == st.tasks[i := t] && !t.AddAppend? && Held(st', ref)
    requires forall c :: Goes(st', c, ref) ==> Goes(st, c, ref) || Holds(st.tasks[i], ref)
    ensures Held(st, ref)
  {
    if j :| 0 <= j < |st'.tasks| && Holds(st'.tasks[j], ref) {
      assert j != i && st.tasks[j] == st'.tasks[j];
    } else {
      var c :| Goes(st', c, ref);
    }
  }

  lemma HeldBeforeSpawn(st: State, t: Task, ref: Ref)
    requires !t.AddAppend? && Held(Spawned(st, t), ref)
    ensures Held(st, ref)
  {
    var st' := Spawned(st, t);
    if j :| 0 <= j < |st'.tasks| && Holds(st'.tasks[j], ref) {
      assert st.tasks[j] == st'.tasks[j];
    } else {
      var c :| Goes(st', c, ref);
      assert Goes(st, c, ref);
    }
  }

  /** An add has made and registered an object. */
  predicate Registers(st: State, e: Event)
  {
    e.Run? && e.i < |st.tasks| && st.tasks[e.i].AddLoop? && st.tasks[e.i].todo != []
  }

  /** The steps of adds and removes; an object that Register makes is no object of before. */
  lemma HeldBeforeRun(cfg: Config, ok: Outcomes, st: State, e: Event, ref: Ref)
    requires Valid(st) && Enabled(st, e) && e.Run? && !st.tasks[e.i].SyncStart? && !Registers(st, e)
    requires Held(Step(cfg, ok, st, e), ref)
    ensures Held(st, ref)
  {
    var t, st' := st.tasks[e.i], Step(cfg, ok, st, e);
    if t.RemoveLocked? {
      HeldBeforeRemove(cfg, ok, st, e.i, ref);
    } else if t.AddStart? {
      HeldBeforeStart(st, e.i, ref);
    } else if t.AddAppend? {
      HeldBeforeAppend(st, e.i, ref);
    } else {
      RemainingMaps(cfg, ok, st, e);
      var t' := RemainingTasks(cfg, ok, st, e);
      HeldBeforeOther(cfg, st, st', e.i, t', ref);
    }
  }

  /** The remaining steps leave the live entries alone, and the dead ones unless they prune. */
  predicate Remaining(st: State, e: Event)
  {
    && e.Run? && e.i < |st.tasks| && !Registers(st, e)
    && var t := st.tasks[e.i]; !t.AddStart? && !t.AddAppend? && !t.RemoveLocked? && !t.SyncStart?
  }

  lemma RemainingMaps(cfg: Config, ok: Outcomes, st: State, e: Event)
    requires Valid(st) && Enabled(st, e) && Remaining(st, e)
    ensures var st' := Step(cfg, ok, st, e);
            st'.services == st.services && (st'.dead == st.dead || st'.dead == Pruned(cfg, st.dead))
  {
  }

  lemma RemainingTasks(cfg: Config, ok: Outcomes, st: State, e: Event) returns (t: Task)
    requires Valid(st) && Enabled(st, e) && Remaining(st, e)
    ensures Step(cfg, ok, st, e).tasks == st.tasks[e.i := t] && !t.AddAppend?
  {
    var now := st.tasks[e.i];
    if now.AddCheck? {
      t := if Tracked(st, now.c) != [] then Done else AddInspect(now.c, now.ip);
    } else if now.AddInspect? {
      t := InspectStep(st, e.i, e.answer.container).tasks[e.i];
    } else if now.RemoveStart? {
      t := RemoveLocked(now.c, ShouldRemove(cfg.always, e.answer.inspection));
    } else if now.RefreshCopy? {
      t := RefreshLoop(Copies(st, e.answer.order));
    } else if now.RefreshLoop? && now.copies != [] {
      t := RefreshLoop(now.copies[1..]);
    } else {
      t := Done;
    }
  }

  lemma HeldBeforeOther(cfg: Config, st: State, st': State, i: nat, t: Task, ref: Ref)
    requires st'.services == st.services && (st'.dead == st.dead || st'.dead == Pruned(cfg, st.dead))
    requires i < |st.tasks| && st'.tasks == st.tasks[i := t] && !t.AddAppend? && Held(st', ref)
    ensures Held(st, ref)
  {
    HeldAfter(st, st', i, t, ref);
  }

  lemma HeldBeforeStart(st: State, i: nat, ref: Ref)
    requires i < |st.tasks| && st.tasks[i].AddStart?
    requires Held(SetTask(DeleteDead(st, st.tasks[i].c), i, AddCheck(st.tasks[i].c, st.tasks[i].ip)), ref)
    ensures Held(st, ref)
  {
    var t := AddCheck(st.tasks[i].c, st.tasks[i].ip);
    HeldAfter(st, SetTask(DeleteDead(st, st.tasks[i].c), i, t), i, t, ref);
  }

  lemma HeldBeforeAppend(st: State, i: nat, ref: Ref)
    requires i < |st.tasks| && st.tasks[i].AddAppend? && Held(AppendStep(st, i), ref)
    ensures Held(st, ref)
  {
    HeldAfter(st, AppendStep(st, i), i, AppendStep(st, i).tasks[i], ref);
  }

  lemma HeldBeforeRemove(cfg: Config, ok: Outcomes, st: State, i: nat, ref: Ref)
    requires Valid(st) && i < |st.tasks| && st.tasks[i].RemoveLocked? && Held(RemoveStep(cfg, ok, st, i), ref)
    ensures Held(st, ref)
  {
    RemoveShape(cfg, st, ok, st.tasks[i].c, st.tasks[i].deregister);
    HeldAfter(st, RemoveStep(cfg, ok, st, i), i, Done, ref);
  }

  lemma HeldAfterSync(cfg: Config, ok: Outcomes, st: State, i: nat, answers: SyncAnswers, ref: Ref)
    requires Valid(st) && i < |st.tasks| && st.tasks[i].SyncStart?
    ensures Held(SyncStep(cfg, ok, st, i, answers), ref) <==> Held(st, ref)
  {
    SyncExtends(cfg, st, ok, st.tasks[i].ip, answers);
    var st' := SyncStep(cfg, ok, st, i, answers);
    assert forall j :: 0 <= j < |st.tasks| ==> (Holds(st'.tasks[j], ref) <==> Holds(st.tasks[j], ref));
    assert forall j :: |st.tasks| <= j < |st'.tasks| ==> !Holds(st'.tasks[j], ref);
    assert forall c :: Goes(st', c, ref) <==> Goes(st, c, ref);
  }

  /** Only a Register makes a step hold what was not held before. */
  lemma HeldBefore(cfg: Config, ok: Outcomes, st: State, e: Event, ref: Ref)
    requires Valid(st) && Enabled(st, e) && !Registers(st, e) && Held(Step(cfg, ok, st, e), ref)
    ensures Held(st, ref)
  {
    if e.Spawn? {
      HeldBeforeSpawn(st, e.task, ref);
    } else if st.tasks[e.i].SyncStart? {
      HeldAfterSync(cfg, ok, st, e.i, e.answer.answers, ref);
    } else {
      HeldBeforeRun(cfg, ok, st, e, ref);
    }
  }

  lemma HeldAfterRegister(ok: Outcomes, st: State, e: Event, ref: Ref)
    requires Registers(st, e)
    ensures Held(RegisterStep(ok, st, e.i), ref) <==> Held(st, ref) || (ok(|st.log|) && ref == |st.heap|)
  {
    var st' := RegisterStep(ok, st, e.i);
    assert ok(|st.log|) ==> Holds(st'.tasks[e.i], |st.heap|);
    assert forall j :: 0 <= j < |st.tasks| && j != e.i ==> st'.tasks[j] == st.tasks[j];
    assert forall c :: Goes(st', c, ref) <==> Goes(st, c, ref);
  }

  // ---------------------------------------------------------------- steps that strand nothing

  /** Steps that make neither a Register nor a Deregister call. */
  predicate Calm(st: State, e: Event)
  {
    && !Registers(st, e)
    && (e.Run? && e.i < |st.tasks| ==>
          !st.tasks[e.i].SyncStart? && !(st.tasks[e.i].RemoveLocked? && st.tasks[e.i].deregister))
  }

  /** The steps that are neither a sync nor a Register leave the objects as they are. */
  lemma HeapKept(cfg: Config, ok: Outcomes, st: State, e: Event)
    requires Valid(st) && Enabled(st, e) && !Registers(st, e) && !(e.Run? && st.tasks[e.i].SyncStart?)
    ensures Step(cfg, ok, st, e).heap == st.heap
  {
    if e.Run? && st.tasks[e.i].RemoveLocked? {
      RemoveShape(cfg, st, ok, st.tasks[e.i].c, st.tasks[e.i].deregister);
    }
  }

  /** A calm step makes no call, or one refresh. */
  lemma CalmLog(cfg: Config, ok: Outcomes, st: State, e: Event)
    requires Valid(st) && Enabled(st, e) && Calm(st, e)
    ensures var log := Step(cfg, ok, st, e).log;
            || log == st.log
            || exists s :: log == CallRegistry(st, ok, Refresh, None, s).log
  {
    if e.Run? && st.tasks[e.i].RefreshLoop? && st.tasks[e.i].copies != [] {
      var s := st.tasks[e.i].copies[0];
      assert Step(cfg, ok, st, e).log == CallRegistry(st, ok, Refresh, None, s).log;
    } else {
      assert Step(cfg, ok, st, e).log == st.log;
    }
  }

  lemma RefreshedSame(st: State, st': State, ok: Outcomes, s: Service)
    requires st'.log == CallRegistry(st, ok, Refresh, None, s).log
    ensures RegistryOf(Id, map[], 0, st') == RegistryOf(Id, map[], 0, st)
  {
    RegistryCall(Id, map[], 0, st, ok, Refresh, None, s);
  }

  lemma CalmStep(cfg: Config, ok: Outcomes, st: State, e: Event)
    requires Valid(st) && Enabled(st, e) && Calm(st, e)
    ensures Step(cfg, ok, st, e).heap == st.heap
    ensures RegistryOf(Id, map[], 0, Step(cfg, ok, st, e)) == RegistryOf(Id, map[], 0, st)
  {
    HeapKept(cfg, ok, st, e);
    CalmLog(cfg, ok, st, e);
    if Step(cfg, ok, st, e).log != st.log {
      var s :| Step(cfg, ok, st, e).log == CallRegistry(st, ok, Refresh, None, s).log;
      RefreshedSame(st, Step(cfg, ok, st, e), ok, s);
    }
  }

  lemma CalmFiled(cfg: Config, ok: Outcomes, st: State, e: Event)
    requires Inv(cfg, st) && Valid(st) && Enabled(st, e) && Calm(st, e) && AllFiled(st) && NoFaults(ok)
    ensures AllFiled(Step(cfg, ok, st, e))
  {
    CalmStep(cfg, ok, st, e);
    forall ref: Ref | Held(Step(cfg, ok, st, e), ref)
      ensures Held(st, ref)
    {
      HeldBefore(cfg, ok, st, e, ref);
    }
  }

  lemma RegisterFiled(cfg: Config, ok: Outcomes, st: State, e: Event)
    requires Inv(cfg, st) && AllFiled(st) && NoFaults(ok) && Registers(st, e)
    ensures AllFiled(RegisterStep(ok, st, e.i))
  {
    var s, st' := st.tasks[e.i].todo[0], RegisterStep(ok, st, e.i);
    var made := st.(heap := st.heap + [s]);
    forall ref: Ref | Held(st', ref) && ref < |st'.heap|
      ensures Filed(st', st'.heap[ref].id)
    {
      HeldAfterRegister(ok, st, e, ref);
      FiledCall(made, ok, Register, Some(|st.heap|), s, st'.heap[ref].id);
      FiledSame(CallRegistry(made, ok, Register, Some(|st.heap|), s), st', st'.heap[ref].id);
      FiledSame(st, made, st'.heap[ref].id);
      if ref < |st.heap| {
        assert Held(st, ref) && st'.heap[ref] == st.heap[ref];
      }
    }
  }

  // ---------------------------------------------------------------- remove

  lemma {:induction false} DeregisterAllFiled(st: State, ok: Outcomes, refs: seq<Ref>, id: string)
    requires ValidRefs(refs, |st.heap|) && NoFaults(ok)
    ensures Filed(DeregisterAll(st, ok, refs), id) <==>
            Filed(st, id) && forall r :: 0 <= r < |refs| ==> st.heap[refs[r]].id != id
  {
    if refs != [] {
      var front, last := refs[..|refs| - 1], refs[|refs| - 1];
      DeregisterAllFiled(st, ok, front, id);
      FiledCall(DeregisterAll(st, ok, front), ok, Deregister, Some(last), st.heap[last], id);
      assert forall r :: 0 <= r < |front| ==> front[r] == refs[r];
    }
  }

  predicate Listed(st: State, refs: seq<Ref>, id: string)
    requires ValidRefs(refs, |st.heap|)
  {
    exists r :: 0 <= r < |refs| && st.heap[refs[r]].id == id
  }

  lemma RemoveLeaves(cfg: Config, st: State, ok: Outcomes, c: string, id: string)
    requires Valid(st) && NoFaults(ok)
    ensures Filed(Remove(cfg, st, ok, c, true), id) <==>
            Filed(st, id) && !Listed(st, Tracked(st, c), id) && !(c in st.dead && Listed(st, st.dead[c].services, id))
  {
    var live := DeregisterAll(st, ok, Tracked(st, c));
    DeregisterAllFiled(st, ok, Tracked(st, c), id);
    if c in st.dead {
      var both := DeregisterAll(live, ok, st.dead[c].services);
      DeregisterAllFiled(live, ok, st.dead[c].services, id);
      FiledSame(both, Remove(cfg, st, ok, c, true), id);
    } else {
      FiledSame(live, Remove(cfg, st, ok, c, true), id);
    }
  }

  /** Which IDs a remove of `c` deregisters. */
  lemma GoesIff(st: State, c: string, id: string)
    requires Valid(st)
    ensures (Listed(st, Tracked(st, c), id) || (c in st.dead && Listed(st, st.dead[c].services, id))) <==>
            exists r: Ref :: Goes(st, c, r) && r < |st.heap| && st.heap[r].id == id
  {
    if Listed(st, Tracked(st, c), id) {
      var r :| 0 <= r < |Tracked(st, c)| && st.heap[Tracked(st, c)[r]].id == id;
      assert Goes(st, c, Tracked(st, c)[r]);
    }
    if c in st.dead && Listed(st, st.dead[c].services, id) {
      var r :| 0 <= r < |st.dead[c].services| && st.heap[st.dead[c].services[r]].id == id;
      assert Goes(st, c, st.dead[c].services[r]);
    }
  }

  lemma HeldAfterRemove(cfg: Config, ok: Outcomes, st: State, i: nat, ref: Ref)
    requires Valid(st) && i < |st.tasks| && st.tasks[i].RemoveLocked? && st.tasks[i].deregister
    ensures Held(RemoveStep(cfg, ok, st, i), ref) <==> HeldBeside(st, st.tasks[i].c, ref)
  {
    var c, st' := st.tasks[i].c, RemoveStep(cfg, ok, st, i);
    RemoveShape(cfg, st, ok, c, true);
    assert forall d :: Goes(st', d, ref) <==> d != c && Goes(st, d, ref);
    assert forall j :: 0 <= j < |st.tasks| ==> (Holds(st'.tasks[j], ref) <==> Holds(st.tasks[j], ref));
  }

  lemma BesideIsHeld(cfg: Config, st: State, c: string, ref: Ref)
    requires Inv(cfg, st) && HeldBeside(st, c, ref)
    ensures Held(st, ref) && ref < |st.heap|
  {
    HeldValid(cfg, st, ref);
  }

  /** A remove keeps everything that is still held registered exactly when it strands nothing. */
  lemma RemoveStrandsIff(cfg: Config, ok: Outcomes, st: State, i: nat)
    requires Inv(cfg, st) && Valid(st) && AllFiled(st) && NoFaults(ok)
    requires i < |st.tasks| && st.tasks[i].RemoveLocked? && st.tasks[i].deregister
    ensures AllFiled(RemoveStep(cfg, ok, st, i)) <==> !StrandedByRemove(st, st.tasks[i].c)
  {
    var c, st' := st.tasks[i].c, RemoveStep(cfg, ok, st, i);
    RemoveShape(cfg, st, ok, c, true);
    forall ref: Ref
      ensures Held(st', ref) <==> HeldBeside(st, c, ref)
      ensures HeldBeside(st, c, ref) ==> ref < |st.heap| && (Filed(st', st.heap[ref].id) <==> !Removed(st, c, ref))
    {
      HeldAfterRemove(cfg, ok, st, i, ref);
      if HeldBeside(st, c, ref) {
        BesideIsHeld(cfg, st, c, ref);
        RemoveLeaves(cfg, st, ok, c, st.heap[ref].id);
        GoesIff(st, c, st.heap[ref].id);
        FiledSame(Remove(cfg, st, ok, c, true), st', st.heap[ref].id);
        RemovedIff(st, c, ref);
      }
    }
    if StrandedByRemove(st, c) {
      var ref: Ref :| HeldBeside(st, c, ref) && Removed(st, c, ref);
      assert Held(st', ref);
    }
  }

  lemma RemovedIff(st: State, c: string, ref: Ref)
    requires ref < |st.heap|
    ensures Removed(st, c, ref) <==>
              exists r: Ref :: Goes(st, c, r) && r < |st.heap| && st.heap[r].id == st.heap[ref].id
  {
    if Removed(st, c, ref) {
      var r: Ref :| Goes(st, c, r) && SameId(st, ref, r);
      assert r < |st.heap| && st.heap[r].id == st.heap[ref].id;
    }
    if r: Ref :| Goes(st, c, r) && r < |st.heap| && st.heap[r].id == st.heap[ref].id {
      assert SameId(st, ref, r);
    }
  }

  // ---------------------------------------------------------------- sync

  /** What a sync's moves leave as it was: IDs, names and containers. */
  predicate SameFace(s: Service, t: Service)
  {
    s.id == t.id && s.name == t.name && s.origin.containerName == t.origin.containerName
  }

  ghost predicate SameFaces(st: State, st': State)
  {
    && st'.services == st.services && st'.dead == st.dead && |st'.heap| == |st.heap|
    && forall r :: 0 <= r < |st.heap| ==> SameFace(st.heap[r], st'.heap[r])
  }

  lemma ReregisterFiled(st: State, ok: Outcomes, ref: Ref, ip: string)
    requires ref < |st.heap| && NoFaults(ok)
    ensures var r := Reregister(st, ok, ref, ip);
            SameFaces(st, r) && forall id :: Filed(st, id) ==> Filed(r, id)
  {
    var s, t := st.heap[ref], WithIP(st.heap[ref], ip);
    var st1 := CallRegistry(st, ok, Deregister, Some(ref), s);
    var st2 := st1.(heap := st1.heap[ref := t]);
    forall id | Filed(st, id)
      ensures Filed(Reregister(st, ok, ref, ip), id)
    {
      FiledCall(st, ok, Register, Some(ref), s, id);
      FiledCall(st, ok, Deregister, Some(ref), s, id);
      FiledSame(st1, st2, id);
      FiledCall(st2, ok, Register, Some(ref), t, id);
    }
  }

  lemma {:induction false} ReregisterAllFiled(st: State, ok: Outcomes, refs: seq<Ref>, ip: string)
    requires ValidRefs(refs, |st.heap|) && NoFaults(ok)
    ensures var r := ReregisterAll(st, ok, refs, ip);
            SameFaces(st, r) && forall id :: Filed(st, id) ==> Filed(r, id)
  {
    if refs != [] {
      ReregisterAllFiled(st, ok, refs[..|refs| - 1], ip);
      ReregisterFiled(ReregisterAll(st, ok, refs[..|refs| - 1], ip), ok, refs[|refs| - 1], ip);
    }
  }

  lemma {:induction false} SyncListedFiled(st: State, ok: Outcomes, listing: seq<string>, ip: string)
    requires Valid(st) && NoFaults(ok)
    ensures var r := SyncListed(st, ok, listing, ip);
            SameFaces(st, r) && forall id :: Filed(st, id) ==> Filed(r, id)
  {
    if listing != [] {
      var front, c := listing[..|listing| - 1], listing[|listing| - 1];
      SyncListedFiled(st, ok, front, ip);
      var now := SyncListed(st, ok, front, ip);
      if Tracked(now, c) == [] {
        forall id
          ensures Filed(Spawned(now, AddStart(c, ip)), id) <==> Filed(now, id)
        {
          FiledSame(now, Spawned(now, AddStart(c, ip)), id);
        }
      } else {
        ReregisterAllFiled(now, ok, Tracked(now, c), ip);
      }
    }
  }

  lemma SameDangling(cfg: Config, st: State, st': State, x: Service)
    requires Valid(st) && Valid(st') && SameFaces(st, st')
    ensures Dangling(cfg, st', x) <==> Dangling(cfg, st, x)
  {
    forall c, name, containerName | c in st.services
      ensures AcknowledgedIn(st', st.services[c], name, containerName) <==>
              AcknowledgedIn(st, st.services[c], name, containerName)
    {
      var refs := st.services[c];
      assert forall i :: 0 <= i < |refs| ==> SameFace(st.heap[refs[i]], st'.heap[refs[i]]);
    }
  }

  lemma {:induction false} CleanupFiled(cfg: Config, st: State, ok: Outcomes, ext: seq<Service>, id: string)
    requires Valid(st) && NoFaults(ok)
    ensures Filed(Cleanup(cfg, st, ok, ext), id) <==> Filed(st, id) && !Sweeps(cfg, st, ext, id)
  {
    if ext != [] {
      var front, last := ext[..|ext| - 1], ext[|ext| - 1];
      CleanupFiled(cfg, st, ok, front, id);
      FiledCall(Cleanup(cfg, st, ok, front), ok, Deregister, None, last, id);
      assert ext == front + [last];
      if Sweeps(cfg, st, front, id) {
        var x :| x in front && x.id == id && Dangling(cfg, st, x);
        assert x in ext;
      }
      if Sweeps(cfg, st, ext, id) {
        var x :| x in ext && x.id == id && Dangling(cfg, st, x);
        assert x in front || x == last;
      }
      if last.id == id && Dangling(cfg, st, last) {
        assert last in ext;
      }
    }
  }

  /** A registered ID is registered after a sync exactly unless its cleanup sweeps it. */
  lemma SyncFiled(cfg: Config, st: State, ok: Outcomes, ip: string, answers: SyncAnswers, id: string)
    requires Valid(st) && NoFaults(ok) && Filed(st, id)
    ensures SameFaces(st, Sync(cfg, st, ok, ip, answers))
    ensures Filed(Sync(cfg, st, ok, ip, answers), id) <==>
            !(Swept(cfg, answers) && Sweeps(cfg, st, answers.ext.value, id))
  {
    if answers.listing.Some? {
      SyncListedFiled(st, ok, answers.listing.value, ip);
      var st1 := SyncListed(st, ok, answers.listing.value, ip);
      if cfg.cleanup && answers.nonExited.Some? {
        var st2 := SpawnRemovals(st1, answers.order, answers.nonExited.value);
        FiledSame(st1, st2, id);
        if answers.ext.Some? {
          CleanupFiled(cfg, st2, ok, answers.ext.value, id);
          SweepsSame(cfg, st, st2, answers.ext.value, id);
        }
      }
    }
  }

  lemma SweepsSame(cfg: Config, st: State, st': State, ext: seq<Service>, id: string)
    requires Valid(st) && Valid(st') && SameFaces(st, st')
    ensures Sweeps(cfg, st', ext, id) <==> Sweeps(cfg, st, ext, id)
  {
    forall x | x in ext
      ensures Dangling(cfg, st', x) <==> Dangling(cfg, st, x)
    {
      SameDangling(cfg, st, st', x);
    }
  }

  /** A sync keeps everything that is held registered exactly when its cleanup strands nothing. */
  lemma SyncStrandsIff(cfg: Config, ok: Outcomes, st: State, i: nat, answers: SyncAnswers)
    requires Inv(cfg, st) && Valid(st) && AllFiled(st) && NoFaults(ok) && i < |st.tasks| && st.tasks[i].SyncStart?
    ensures AllFiled(SyncStep(cfg, ok, st, i, answers)) <==> !StrandedByCleanup(cfg, st, answers)
  {
    var after, st' := Sync(cfg, st, ok, st.tasks[i].ip, answers), SyncStep(cfg, ok, st, i, answers);
    forall ref: Ref
      ensures Held(st', ref) <==> Held(st, ref)
      ensures Held(st, ref) ==> ref < |st.heap| && st'.heap[ref].id == st.heap[ref].id
      ensures Held(st, ref) ==>
                (Filed(st', st.heap[ref].id) <==>
                 !(Swept(cfg, answers) && Sweeps(cfg, st, answers.ext.value, st.heap[ref].id)))
    {
      HeldAfterSync(cfg, ok, st, i, answers, ref);
      if Held(st, ref) {
        HeldValid(cfg, st, ref);
        SyncFiled(cfg, st, ok, st.tasks[i].ip, answers, st.heap[ref].id);
        assert SameFace(st.heap[ref], after.heap[ref]);
        FiledSame(after, st', st.heap[ref].id);
      }
    }
  }

  // ---------------------------------------------------------------- all steps, all runs

  /** A step keeps every held service registered if and only if it strands none. */
  lemma StepStrandsIff(cfg: Config, ok: Outcomes, st: State, e: Event)
    requires Inv(cfg, st) && Valid(st) && Enabled(st, e) && AllFiled(st) && NoFaults(ok)
    ensures AllFiled(Step(cfg, ok, st, e)) <==> !Strands(cfg, st, e)
  {
    if Registers(st, e) {
      RegisterFiled(cfg, ok, st, e);
    } else if Calm(st, e) {
      CalmFiled(cfg, ok, st, e);
    } else if st.tasks[e.i].SyncStart? {
      SyncStrandsIff(cfg, ok, st, e.i, e.answer.answers);
    } else {
      RemoveStrandsIff(cfg, ok, st, e.i);
    }
  }

  /** In every fault-free run, as long as no step strands a service, every service that is tracked, dead or
      about to be tracked is registered. */
  lemma {:induction false} HeldIsRegistered(cfg: Config, ok: Outcomes, states: seq<State>, events: seq<Event>, k: nat)
    requires IsRun(cfg, ok, states, events) && k < |states| && NoFaults(ok)
    requires forall j :: 0 <= j < k ==> !Strands(cfg, states[j], events[j])
    ensures AllFiled(states[k])
  {
    if k > 0 {
      HeldIsRegistered(cfg, ok, states, events, k - 1);
      RunInv(cfg, ok, states, events, k - 1);
      StepStrandsIff(cfg, ok, states[k - 1], events[k - 1]);
    }
  }

  /** Held services with one ID are of one container. */
  ghost predicate NoSharing(st: State, ref: Ref, r: Ref)
  {
    Held(st, ref) && Held(st, r) && SameId(st, ref, r) ==>
      st.heap[ref].origin.containerID == st.heap[r].origin.containerID
  }

  /** Without ID clashes, a remove strands a service only if an add of the same container is between its
      Register and its append. */
  lemma RemoveStrandsOnlyAdds(cfg: Config, st: State, c: string)
    requires Inv(cfg, st) && StrandedByRemove(st, c) && forall ref: Ref, r: Ref :: NoSharing(st, ref, r)
    ensures exists i :: 0 <= i < |st.tasks| && st.tasks[i].AddAppend? && st.tasks[i].c == c
  {
    var ref: Ref :| HeldBeside(st, c, ref) && Removed(st, c, ref);
    var r: Ref :| Goes(st, c, r) && SameId(st, ref, r);
    OwnerOf(cfg, st, c, r);
    assert NoSharing(st, ref, r);
    HolderIs(cfg, st, c, ref);
  }

  lemma HolderIs(cfg: Config, st: State, c: string, ref: Ref)
    requires Inv(cfg, st) && HeldBeside(st, c, ref) && ref < |st.heap| && st.heap[ref].origin.containerID == c
    ensures exists i :: 0 <= i < |st.tasks| && st.tasks[i].AddAppend? && st.tasks[i].c == c
  {
    if d :| d != c && Goes(st, d, ref) {
      OwnerOf(cfg, st, d, ref);
    } else {
      var i :| 0 <= i < |st.tasks| && Holds(st.tasks[i], ref);
      assert TaskOk(st, st.tasks[i]);
    }
  }

  // ---------------------------------------------------------------- runs that strand a service

  /** What the registry calls of two adds of a container leave: both registered, both about to append. */
  function TwoAdds(s: Service, t: Service): State
  {
    var c := s.origin.containerID;
    State(map[], map[], [s, t], [Call(Register, Some(0), s, true), Call(Register, Some(1), t, true)], false,
          [AddAppend(c, 0, []), AddAppend(c, 1, [])])
  }

  lemma TwoAddsReachable(cfg: Config, ok: Outcomes, s: Service, t: Service)
    requires NoFaults(ok) && s.origin.containerID == t.origin.containerID
    ensures Reachable(cfg, ok, TwoAdds(s, t))
  {
    var k, k' := OneContainer(s), OneContainer(t);
    assert NewServices(k) == [s] && NewServices(k') == [t];
    var one := Initial.(tasks := [AddLoop(k.id, [s])]);
    var two := Initial.(tasks := [AddLoop(k.id, [s]), AddLoop(k.id, [t])]);
    ReachInitial(cfg, ok);
    ReachLoop(cfg, ok, Initial, k);
    assert Initial.tasks + [AddLoop(k.id, [s])] == one.tasks;
    ReachLoop(cfg, ok, one, k');
    assert one.tasks + [AddLoop(k.id, [t])] == two.tasks;
    ReachRegister(cfg, ok, two, 0);
    TwoAddsState(ok, s, t);
    ReachRegister(cfg, ok, RegisterStep(ok, two, 0), 1);
  }

  lemma TwoAddsState(ok: Outcomes, s: Service, t: Service)
    requires NoFaults(ok)
    ensures var c := s.origin.containerID;
            var st := RegisterStep(ok, Initial.(tasks := [AddLoop(c, [s]), AddLoop(c, [t])]), 0);
            st.tasks[1].AddLoop? && RegisterStep(ok, st, 1) == TwoAdds(s, t)
  {
    var c := s.origin.containerID;
    var st := RegisterStep(ok, Initial.(tasks := [AddLoop(c, [s]), AddLoop(c, [t])]), 0);
    assert ok(0) && ok(1) && [s][1..] == [] && [t][1..] == [];
    assert st == AboutToAppend(s).(tasks := [AddAppend(c, 0, []), AddLoop(c, [t])]);
  }

  /** The first of the two has appended. */
  function OneAppended(s: Service, t: Service): State
  {
    var c := s.origin.containerID;
    TwoAdds(s, t).(services := map[c := [0]], tasks := [AddLoop(c, []), AddAppend(c, 1, [])])
  }

  lemma OneAppendedReachable(cfg: Config, ok: Outcomes, s: Service, t: Service)
    requires NoFaults(ok) && s.origin.containerID == t.origin.containerID
    ensures Reachable(cfg, ok, OneAppended(s, t))
  {
    TwoAddsReachable(cfg, ok, s, t);
    ReachAppend(cfg, ok, TwoAdds(s, t), 0);
    assert [] + [0] == [0];
    assert AppendStep(TwoAdds(s, t), 0) == OneAppended(s, t);
  }

  /** Then a removal of the container is about to run. */
  function AboutToRemove(s: Service): State
  {
    Spawned(OneAppended(s, s), RemoveLocked(s.origin.containerID, true))
  }

  lemma AboutToRemoveReachable(cfg: Config, ok: Outcomes, s: Service)
    requires NoFaults(ok)
    ensures Reachable(cfg, ok, AboutToRemove(s))
  {
    var c := s.origin.containerID;
    var started := Spawned(OneAppended(s, s), RemoveStart(c));
    OneAppendedReachable(cfg, ok, s, s);
    Reach(cfg, ok, OneAppended(s, s), Spawn(RemoveStart(c)));
    Reach(cfg, ok, started, Run(2, Examined(NoSuchContainer)));
    assert Step(cfg, ok, started, Run(2, Examined(NoSuchContainer))) == AboutToRemove(s);
  }

  /** What the removal leaves to the second add. */
  lemma AfterRemoval(cfg: Config, ok: Outcomes, s: Service)
    ensures var c, removed := s.origin.containerID, RemoveStep(cfg, ok, AboutToRemove(s), 2);
            && removed.tasks == [AddLoop(c, []), AddAppend(c, 1, []), Done]
            && removed.heap == [s, s] && !removed.locked && removed.services == map[]
  {
    RemoveShape(cfg, AboutToRemove(s), ok, s.origin.containerID, true);
  }

  lemma RemovalDeregisters(cfg: Config, ok: Outcomes, st: State, i: nat, c: string, ref: Ref)
    requires Valid(st) && NoFaults(ok) && i < |st.tasks| && st.tasks[i] == RemoveLocked(c, true)
    requires Tracked(st, c) == [ref] && ref < |st.heap|
    ensures !Filed(RemoveStep(cfg, ok, st, i), st.heap[ref].id)
  {
    var id := st.heap[ref].id;
    RemoveLeaves(cfg, st, ok, c, id);
    assert Listed(st, [ref], id) by { assert st.heap[[ref][0]].id == id; }
    FiledSame(Remove(cfg, st, ok, c, true), RemoveStep(cfg, ok, st, i), id);
  }

  /** Two adds of a container, and its removal between the appends, leave it tracked and not registered, although
      no registry call fails. */
  lemma TrackedButNotRegistered(cfg: Config, ok: Outcomes, s: Service) returns (st: State)
    requires NoFaults(ok)
    ensures Reachable(cfg, ok, st) && Tracked(st, s.origin.containerID) == [1] && st.heap == [s, s]
    ensures !Filed(st, s.id) && !st.locked
  {
    AboutToRemoveReachable(cfg, ok, s);
    Reach(cfg, ok, AboutToRemove(s), Run(2, Nothing));
    var removed := RemoveStep(cfg, ok, AboutToRemove(s), 2);
    AfterRemoval(cfg, ok, s);
    RemovalDeregisters(cfg, ok, AboutToRemove(s), 2, s.origin.containerID, 0);
    ReachAppend(cfg, ok, removed, 1);
    st := AppendStep(removed, 1);
    assert [] + [1] == [1];
    FiledSame(removed, st, s.id);
  }

  /** A sync that gets the report of a service which its add has not yet appended. */
  function Reported(s: Service): SyncAnswers
  {
    SyncAnswers(Some([]), Some([]), [], Some([s]))
  }

  lemma ReportedSweeps(cfg: Config, ok: Outcomes, s: Service, name: string)
    requires NoFaults(ok) && cfg.cleanup && Matches(s.id, Parts(cfg.hostname, name))
    ensures var st := Spawned(AboutToAppend(s), SyncStart(true, ""));
            && Valid(st) && Enabled(st, Run(1, SyncReply(Reported(s))))
            && !Filed(SyncStep(cfg, ok, st, 1, Reported(s)), s.id)
  {
    var st := Spawned(AboutToAppend(s), SyncStart(true, ""));
    ParseIdExact(s.id, Parts(cfg.hostname, name));
    assert Dangling(cfg, st, s) && s in [s];
    FiledCall(Initial, ok, Register, Some(0), s, s.id);
    FiledSame(CallRegistry(Initial, ok, Register, Some(0), s), st, s.id);
    SyncFiled(cfg, st, ok, "", Reported(s), s.id);
    FiledSame(Sync(cfg, st, ok, "", Reported(s)), SyncStep(cfg, ok, st, 1, Reported(s)), s.id);
  }

  /** A cleanup that falls between an add's Register and its append has the same effect, even for a generated ID. */
  lemma CleanupStrandsAdd(cfg: Config, ok: Outcomes, s: Service, name: string) returns (st: State)
    requires NoFaults(ok) && cfg.cleanup && Matches(s.id, Parts(cfg.hostname, name))
    ensures Reachable(cfg, ok, st) && Tracked(st, s.origin.containerID) == [0] && st.heap == [s]
    ensures !Filed(st, s.id) && !st.locked
  {
    var c, before := s.origin.containerID, Spawned(AboutToAppend(s), SyncStart(true, ""));
    AboutToAppendReachable(cfg, ok, s);
    Reach(cfg, ok, AboutToAppend(s), Spawn(SyncStart(true, "")));
    ReportedSweeps(cfg, ok, s, name);
    Reach(cfg, ok, before, Run(1, SyncReply(Reported(s))));
    var swept := SyncStep(cfg, ok, before, 1, Reported(s));
    SyncShape(cfg, ok, before, s);
    ReachAppend(cfg, ok, swept, 0);
    st := AppendStep(swept, 0);
    assert [] + [0] == [0];
    FiledSame(swept, st, s.id);
  }

  lemma SyncShape(cfg: Config, ok: Outcomes, st: State, s: Service)
    requires Valid(st) && |st.tasks| == 2 && st.tasks[0].AddAppend? && st.tasks[1].SyncStart?
    ensures var st' := SyncStep(cfg, ok, st, 1, Reported(s));
            && st'.services == st.services && st'.heap == st.heap && st'.locked == st.locked
            && st'.tasks[0] == st.tasks[0]
  {
  }
}
