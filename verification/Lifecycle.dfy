/** The bridge as a transition system: any number of goroutines, each lock region and each
    registry or Docker call one atomic step, all interleavings (bridge/bridge.go).
  */
module Lifecycle {
  import opened Options
  import opened BridgeState

  /** What `newService` derives for one port; its origin is filled from the container. */
  datatype Draft = Draft(id: string, name: string, ip: string, port: int, hostIP: string)

  /** An inspected container with the drafts of its ports, in Go's iteration order. */
  datatype Container = Container(id: string, name: string, drafts: seq<Draft>)

  function NewService(k: Container, d: Draft): Service
  {
    Service(d.id, d.name, d.ip, d.port, Origin(k.id, k.name, d.hostIP))
  }

  function NewServices(k: Container): (r: seq<Service>)
    ensures |r| == |k.drafts|
    ensures forall i :: 0 <= i < |r| ==> r[i] == NewService(k, k.drafts[i])
  {
    seq(|k.drafts|, i requires 0 <= i < |k.drafts| => NewService(k, k.drafts[i]))
  }

  /** What the environment answers to the step a task is about to take. */
  datatype Answer =
    | Nothing
    | Inspected(container: Option<Container>)
    | Examined(inspection: Inspection)
    | Iteration(order: seq<string>)
    | SyncReply(answers: SyncAnswers)

  datatype Event = Spawn(task: Task) | Run(i: nat, answer: Answer)

  /** Tasks whose next step is a lock region. */
  predicate NeedsLock(t: Task)
  {
    t.AddStart? || t.AddCheck? || t.AddAppend? || t.RemoveLocked? || t.PruneStart? || t.RefreshCopy? || t.SyncStart?
  }

  /** Docker events and timers start these. */
  predicate IsEntryPoint(t: Task)
  {
    t.AddStart? || t.RemoveStart? || t.PruneStart? || t.RefreshCopy? || t.SyncStart?
  }

  predicate FitsAnswer(st: State, t: Task, a: Answer)
  {
    match t
    case AddInspect(_, _) => a.Inspected?
    case RemoveStart(_) => a.Examined?
    case RefreshCopy => a.Iteration? && IsIteration(a.order, st.services.Keys)
    case SyncStart(quiet, _) =>
      a.SyncReply? && IsIteration(a.answers.order, st.services.Keys) && (quiet || a.answers.listing.Some?)
    case _ => a.Nothing?
  }

  predicate Enabled(st: State, e: Event)
  {
    match e
    case Spawn(t) => IsEntryPoint(t)
    case Run(i, a) =>
      && i < |st.tasks|
      && !st.tasks[i].Done?
      && (NeedsLock(st.tasks[i]) ==> !st.locked)
      && FitsAnswer(st, st.tasks[i], a)
  }

  function SetTask(st: State, i: nat, t: Task): State
    requires i < |st.tasks|
  {
    st.(tasks := st.tasks[i := t])
  }

  /** The second check of add: on finding its container it returns without unlocking. */
  function CheckStep(st: State, i: nat): State
    requires i < |st.tasks| && st.tasks[i].AddCheck?
  {
    var t := st.tasks[i];
    if Tracked(st, t.c) != [] then SetTask(st, i, Done).(locked := true) else SetTask(st, i, AddInspect(t.c, t.ip))
  }

  function InspectStep(st: State, i: nat, container: Option<Container>): State
    requires i < |st.tasks| && st.tasks[i].AddInspect?
  {
    SetTask(st, i, if container.None? then Done else AddLoop(container.value.id, NewServices(container.value)))
  }

  /** One iteration of add's last loop, up to the outcome of Register. */
  function RegisterStep(ok: Outcomes, st: State, i: nat): State
    requires i < |st.tasks| && st.tasks[i].AddLoop?
  {
    var t := st.tasks[i];
    if t.todo == [] then SetTask(st, i, Done)
    else
      var ref := |st.heap|;
      var st1 := CallRegistry(st.(heap := st.heap + [t.todo[0]]), ok, Register, Some(ref), t.todo[0]);
      SetTask(st1, i, if ok(|st.log|) then AddAppend(t.c, ref, t.todo[1..]) else AddLoop(t.c, t.todo[1..]))
  }

  function AppendStep(st: State, i: nat): State
    requires i < |st.tasks| && st.tasks[i].AddAppend?
  {
    SetTask(Append(st, st.tasks[i].c, st.tasks[i].ref), i, AddLoop(st.tasks[i].c, st.tasks[i].todo))
  }

  function RemoveStep(cfg: Config, ok: Outcomes, st: State, i: nat): State
    requires Valid(st) && i < |st.tasks| && st.tasks[i].RemoveLocked?
  {
    SetTask(Remove(cfg, st, ok, st.tasks[i].c, st.tasks[i].deregister), i, Done)
  }

  function RefreshStep(ok: Outcomes, st: State, i: nat): State
    requires i < |st.tasks| && st.tasks[i].RefreshLoop?
  {
    var copies := st.tasks[i].copies;
    if copies == [] then SetTask(st, i, Done)
    else SetTask(CallRegistry(st, ok, Refresh, None, copies[0]), i, RefreshLoop(copies[1..]))
  }

  function SyncStep(cfg: Config, ok: Outcomes, st: State, i: nat, answers: SyncAnswers): State
    requires Valid(st) && i < |st.tasks| && st.tasks[i].SyncStart?
  {
    SetTask(Sync(cfg, st, ok, st.tasks[i].ip, answers), i, Done)
  }

  function Step(cfg: Config, ok: Outcomes, st: State, e: Event): State
    requires Valid(st) && Enabled(st, e)
  {
    match e
    case Spawn(t) => Spawned(st, t)
    case Run(i, a) =>
      match st.tasks[i]
      case AddStart(c, ip) => SetTask(DeleteDead(st, c), i, AddCheck(c, ip))
      case AddCheck(_, _) => CheckStep(st, i)
      case AddInspect(_, _) => InspectStep(st, i, a.container)
      case AddLoop(_, _) => RegisterStep(ok, st, i)
      case AddAppend(_, _, _) => AppendStep(st, i)
      case RemoveStart(c) => SetTask(st, i, RemoveLocked(c, ShouldRemove(cfg.always, a.inspection)))
      case RemoveLocked(_, _) => RemoveStep(cfg, ok, st, i)
      case PruneStart => SetTask(Prune(cfg, st), i, Done)
      case RefreshCopy => SetTask(st, i, RefreshLoop(Copies(st, a.order)))
      case RefreshLoop(_) => RefreshStep(ok, st, i)
      case SyncStart(_, _) => SyncStep(cfg, ok, st, i, a.answers)
  }

  // ---------------------------------------------------------------- what can happen

  /** Calls of every kind can arrive at any time, held mutex or not. */
  lemma AnythingMayArrive(st: State, c: string, ip: string, quiet: bool)
    ensures Enabled(st, Spawn(AddStart(c, ip))) && Enabled(st, Spawn(RemoveStart(c)))
    ensures Enabled(st, Spawn(PruneStart)) && Enabled(st, Spawn(RefreshCopy))
    ensures Enabled(st, Spawn(SyncStart(quiet, ip)))
  {
  }

  /** Go can range over any map. */
  lemma {:induction false} Enumerated(keys: set<string>) returns (order: seq<string>)
    ensures IsIteration(order, keys)
  {
    if keys == {} {
      order := [];
    } else {
      var c :| c in keys;
      var rest := Enumerated(keys - {c});
      order := rest + [c];
      assert forall i :: 0 <= i < |rest| ==> rest[i] in rest;
    }
  }

  /** The task stands between lock regions: before an inspection, a Register or a refresh call, or the end of one. */
  predicate OutsideLock(t: Task)
  {
    t.AddInspect? || t.AddLoop? || t.RemoveStart? || t.RefreshLoop?
  }

  /** A goroutine can go on if and only if it is not done and the mutex is free or it stands between lock regions. */
  lemma GoesOnIff(st: State, i: nat)
    requires i < |st.tasks|
    ensures (exists a :: Enabled(st, Run(i, a))) <==>
            !st.tasks[i].Done? && (!st.locked || OutsideLock(st.tasks[i]))
  {
    var t := st.tasks[i];
    if !t.Done? && (!st.locked || OutsideLock(t)) {
      var order := Enumerated(st.services.Keys);
      var a := if t.AddInspect? then Inspected(None)
               else if t.RemoveStart? then Examined(NoSuchContainer)
               else if t.RefreshCopy? then Iteration(order)
               else if t.SyncStart? then SyncReply(SyncAnswers(Some([]), None, order, None))
               else Nothing;
      assert Enabled(st, Run(i, a));
    }
  }

  /** A sync takes any answers, in any order of its map; but a failed first listing only if it is quiet. */
  lemma AnyAnswers(st: State, i: nat, answers: SyncAnswers)
    requires i < |st.tasks| && st.tasks[i].SyncStart? && !st.locked && IsIteration(answers.order, st.services.Keys)
    ensures Enabled(st, Run(i, SyncReply(answers))) <==> st.tasks[i].quiet || answers.listing.Some?
  {
  }

  const Initial: State := State(map[], map[], [], [], false, [])

  /** Consecutive states of an execution. */
  ghost predicate IsTrace(cfg: Config, ok: Outcomes, states: seq<State>, events: seq<Event>)
  {
    && |states| == |events| + 1
    && forall k :: 0 <= k < |events| ==>
         Valid(states[k]) && Enabled(states[k], events[k]) && states[k + 1] == Step(cfg, ok, states[k], events[k])
  }

  ghost predicate IsRun(cfg: Config, ok: Outcomes, states: seq<State>, events: seq<Event>)
  {
    IsTrace(cfg, ok, states, events) && states[0] == Initial
  }

  // ---------------------------------------------------------------- what every step keeps

  /** A successful Register of this object has been made. */
  ghost predicate Registered(log: seq<Call>, ref: Ref)
  {
    exists k :: 0 <= k < |log| && log[k].op == Register && log[k].ref == Some(ref) && log[k].ok
  }

  /** An object of container `c` that the registry accepted. */
  ghost predicate Accepted(st: State, c: string, ref: Ref)
  {
    ref < |st.heap| && st.heap[ref].origin.containerID == c && Registered(st.log, ref)
  }

  ghost predicate EntryOk(st: State, c: string, refs: seq<Ref>)
  {
    |refs| == 1 && Accepted(st, c, refs[0])
  }

  predicate TtlOk(cfg: Config, ttl: int)
  {
    0 < cfg.refreshInterval < cfg.refreshTtl ==> 0 < ttl <= cfg.refreshTtl
  }

  ghost predicate TaskOk(st: State, t: Task)
  {
    match t
    case AddLoop(c, todo) => forall i :: 0 <= i < |todo| ==> todo[i].origin.containerID == c
    case AddAppend(c, ref, todo) =>
      && (forall i :: 0 <= i < |todo| ==> todo[i].origin.containerID == c)
      && Accepted(st, c, ref)
      && (c in st.services ==> ref !in st.services[c])
      && (c in st.dead ==> ref !in st.dead[c].services)
    case _ => true
  }

  ghost predicate Inv(cfg: Config, st: State)
  {
    && (forall c :: c in st.services ==> EntryOk(st, c, st.services[c]))
    && (forall c :: c in st.dead ==> EntryOk(st, c, st.dead[c].services) && TtlOk(cfg, st.dead[c].ttl))
    && (forall c :: c in st.services && c in st.dead ==> st.services[c] != st.dead[c].services)
    && (forall i :: 0 <= i < |st.tasks| ==> TaskOk(st, st.tasks[i]))
    && (forall i, j :: 0 <= i < j < |st.tasks| && st.tasks[i].AddAppend? && st.tasks[j].AddAppend? ==>
          st.tasks[i].ref != st.tasks[j].ref)
  }

  lemma InvValid(cfg: Config, st: State)
    requires Inv(cfg, st)
    ensures Valid(st)
  {
  }

  /** Objects keep their container and the log only grows. */
  ghost predicate Extends(st: State, st': State)
  {
    && st.log <= st'.log
    && |st.heap| <= |st'.heap|
    && forall r :: 0 <= r < |st.heap| ==> st'.heap[r].origin.containerID == st.heap[r].origin.containerID
  }

  lemma AcceptedExtends(st: State, st': State, c: string, ref: Ref)
    requires Extends(st, st') && Accepted(st, c, ref)
    ensures Accepted(st', c, ref)
  {
    var k :| 0 <= k < |st.log| && st.log[k].op == Register && st.log[k].ref == Some(ref) && st.log[k].ok;
    assert st'.log[k] == st.log[k];
  }

  lemma {:induction false} DeregisterAllExtends(st: State, ok: Outcomes, refs: seq<Ref>)
    requires ValidRefs(refs, |st.heap|)
    ensures Extends(st, DeregisterAll(st, ok, refs))
  {
    if refs != [] {
      DeregisterAllExtends(st, ok, refs[..|refs| - 1]);
    }
  }

  lemma {:induction false} ReregisterAllExtends(st: State, ok: Outcomes, refs: seq<Ref>, ip: string)
    requires ValidRefs(refs, |st.heap|)
    ensures Extends(st, ReregisterAll(st, ok, refs, ip))
  {
    if refs != [] {
      ReregisterAllExtends(st, ok, refs[..|refs| - 1], ip);
    }
  }

  /** `st'` has the tasks of `st` followed by spawned adds and removes. */
  ghost predicate OnlySpawns(st: State, st': State)
  {
    && st.tasks <= st'.tasks
    && forall i :: |st.tasks| <= i < |st'.tasks| ==> st'.tasks[i].AddStart? || st'.tasks[i].RemoveStart?
  }

  lemma {:induction false} SyncListedExtends(st: State, ok: Outcomes, listing: seq<string>, ip: string)
    requires Valid(st)
    ensures Extends(st, SyncListed(st, ok, listing, ip)) && OnlySpawns(st, SyncListed(st, ok, listing, ip))
  {
    if listing != [] {
      var front, c := listing[..|listing| - 1], listing[|listing| - 1];
      SyncListedExtends(st, ok, front, ip);
      var st1 := SyncListed(st, ok, front, ip);
      ReregisterAllExtends(st1, ok, Tracked(st1, c), ip);
    }
  }

  lemma {:induction false} SpawnRemovalsExtends(st: State, order: seq<string>, nonExited: seq<string>)
    ensures OnlySpawns(st, SpawnRemovals(st, order, nonExited))
  {
    if order != [] {
      SpawnRemovalsExtends(st, order[..|order| - 1], nonExited);
    }
  }

  lemma {:induction false} CleanupExtends(cfg: Config, st: State, ok: Outcomes, ext: seq<Service>)
    requires Valid(st)
    ensures Extends(st, Cleanup(cfg, st, ok, ext))
  {
    if ext != [] {
      CleanupExtends(cfg, st, ok, ext[..|ext| - 1]);
    }
  }

  lemma SyncExtends(cfg: Config, st: State, ok: Outcomes, ip: string, answers: SyncAnswers)
    requires Valid(st)
    ensures Extends(st, Sync(cfg, st, ok, ip, answers)) && OnlySpawns(st, Sync(cfg, st, ok, ip, answers))
  {
    if answers.listing.Some? {
      SyncListedExtends(st, ok, answers.listing.value, ip);
      var st1 := SyncListed(st, ok, answers.listing.value, ip);
      if cfg.cleanup && answers.nonExited.Some? {
        SpawnRemovalsExtends(st1, answers.order, answers.nonExited.value);
        var st2 := SpawnRemovals(st1, answers.order, answers.nonExited.value);
        if answers.ext.Some? {
          CleanupExtends(cfg, st2, ok, answers.ext.value);
        }
      }
    }
  }

  /** Steps that leave both maps alone, and only rewrite or spawn tasks that hold no object. */
  lemma InvQuiet(cfg: Config, st: State, st': State)
    requires Inv(cfg, st) && Extends(st, st') && st'.services == st.services && st'.dead == st.dead
    requires |st.tasks| <= |st'.tasks|
    requires forall i :: 0 <= i < |st'.tasks| ==>
               || (i < |st.tasks| && st'.tasks[i] == st.tasks[i])
               || (!st'.tasks[i].AddAppend? && TaskOk(st', st'.tasks[i]))
    ensures Inv(cfg, st')
  {
    forall c | c in st.services
      ensures EntryOk(st', c, st.services[c])
    {
      AcceptedExtends(st, st', c, st.services[c][0]);
    }
    forall c | c in st.dead
      ensures EntryOk(st', c, st.dead[c].services)
    {
      AcceptedExtends(st, st', c, st.dead[c].services[0]);
    }
    forall i | 0 <= i < |st'.tasks|
      ensures TaskOk(st', st'.tasks[i])
    {
      if i < |st.tasks| && st'.tasks[i] == st.tasks[i] && st.tasks[i].AddAppend? {
        AcceptedExtends(st, st', st.tasks[i].c, st.tasks[i].ref);
      }
    }
  }

  /** A task goes on to a state that holds no object, and the maps stay. */
  lemma InvSetTask(cfg: Config, st: State, st': State, i: nat, t: Task)
    requires Inv(cfg, st) && i < |st.tasks| && Extends(st, st')
    requires st'.services == st.services && st'.dead == st.dead && st'.tasks == st.tasks[i := t]
    requires !t.AddAppend? && TaskOk(st', t)
    ensures Inv(cfg, st')
  {
    InvQuiet(cfg, st, st');
  }

  /** A dead container's record becomes its live entry. */
  lemma InvRevived(cfg: Config, st: State, c: string)
    requires Inv(cfg, st) && c in st.dead
    ensures Inv(cfg, st.(services := st.services[c := st.dead[c].services], dead := st.dead - {c}))
  {
    var st' := st.(services := st.services[c := st.dead[c].services], dead := st.dead - {c});
    assert EntryOk(st', c, st'.services[c]) by { assert EntryOk(st, c, st.dead[c].services); }
    forall j | 0 <= j < |st'.tasks|
      ensures TaskOk(st', st'.tasks[j])
    {
      assert TaskOk(st, st.tasks[j]);
    }
  }

  lemma InvDeleteDead(cfg: Config, st: State, c: string)
    requires Inv(cfg, st)
    ensures Inv(cfg, DeleteDead(st, c))
  {
    if c in st.dead {
      InvRevived(cfg, st, c);
    }
  }

  lemma StepAddStart(cfg: Config, ok: Outcomes, st: State, i: nat, a: Answer)
    requires Inv(cfg, st) && Valid(st) && Enabled(st, Run(i, a)) && st.tasks[i].AddStart?
    ensures Inv(cfg, Step(cfg, ok, st, Run(i, a)))
  {
    var t := st.tasks[i];
    InvDeleteDead(cfg, st, t.c);
    InvSetTask(cfg, DeleteDead(st, t.c), Step(cfg, ok, st, Run(i, a)), i, AddCheck(t.c, t.ip));
  }

  /** A task takes hold of an object that no entry and no other task holds. */
  lemma InvHold(cfg: Config, st: State, st': State, i: nat, t: Task)
    requires Inv(cfg, st) && i < |st.tasks| && Extends(st, st')
    requires st'.services == st.services && st'.dead == st.dead && st'.tasks == st.tasks[i := t]
    requires t.AddAppend? && TaskOk(st', t)
    requires forall j :: 0 <= j < |st.tasks| && j != i && st.tasks[j].AddAppend? ==> st.tasks[j].ref != t.ref
    ensures Inv(cfg, st')
  {
    var plain := SetTask(st', i, Done);
    InvSetTask(cfg, st, plain, i, Done);
    forall j | 0 <= j < |st'.tasks| && j != i
      ensures TaskOk(st', st'.tasks[j])
    {
      assert TaskOk(plain, plain.tasks[j]);
    }
  }

  /** The object just made for a task is accepted, and nothing else holds it. */
  lemma FreshObject(cfg: Config, st: State, st': State, c: string, todo: seq<Service>)
    requires Inv(cfg, st) && todo != [] && TaskOk(st, AddLoop(c, todo))
    requires st'.heap == st.heap + [todo[0]] && st'.log == st.log + [Call(Register, Some(|st.heap|), todo[0], true)]
    requires st'.services == st.services && st'.dead == st.dead
    ensures TaskOk(st', AddAppend(c, |st.heap|, todo[1..]))
  {
    assert st'.log[|st.log|] == Call(Register, Some(|st.heap|), todo[0], true);
    assert c in st.services ==> EntryOk(st, c, st.services[c]);
    assert c in st.dead ==> EntryOk(st, c, st.dead[c].services);
  }

  lemma InvRegister(cfg: Config, ok: Outcomes, st: State, i: nat)
    requires Inv(cfg, st) && i < |st.tasks| && st.tasks[i].AddLoop? && st.tasks[i].todo != []
    ensures Inv(cfg, RegisterStep(ok, st, i))
  {
    var t, st' := st.tasks[i], RegisterStep(ok, st, i);
    assert TaskOk(st, t);
    if ok(|st.log|) {
      FreshObject(cfg, st, st', t.c, t.todo);
      forall j | 0 <= j < |st.tasks| && st.tasks[j].AddAppend?
        ensures st.tasks[j].ref != |st.heap|
      {
        assert TaskOk(st, st.tasks[j]);
      }
      InvHold(cfg, st, st', i, AddAppend(t.c, |st.heap|, t.todo[1..]));
    } else {
      InvSetTask(cfg, st, st', i, AddLoop(t.c, t.todo[1..]));
    }
  }

  /** The object a task holds becomes the entry of a container that has none. */
  lemma InvFiled(cfg: Config, st: State, i: nat)
    requires Inv(cfg, st) && i < |st.tasks| && st.tasks[i].AddAppend? && Tracked(st, st.tasks[i].c) == []
    ensures var t := st.tasks[i];
            Inv(cfg, SetTask(st.(services := st.services[t.c := [t.ref]]), i, AddLoop(t.c, t.todo)))
  {
    var t := st.tasks[i];
    var st' := SetTask(st.(services := st.services[t.c := [t.ref]]), i, AddLoop(t.c, t.todo));
    assert TaskOk(st, t);
    forall j | 0 <= j < |st'.tasks|
      ensures TaskOk(st', st'.tasks[j])
    {
      assert TaskOk(st, st.tasks[j]);
    }
  }

  lemma InvAppend(cfg: Config, st: State, i: nat)
    requires Inv(cfg, st) && i < |st.tasks| && st.tasks[i].AddAppend?
    ensures Inv(cfg, AppendStep(st, i))
  {
    var t := st.tasks[i];
    if Tracked(st, t.c) == [] {
      assert [] + [t.ref] == [t.ref];
      InvFiled(cfg, st, i);
    } else {
      assert TaskOk(st, t);
      InvSetTask(cfg, st, AppendStep(st, i), i, AddLoop(t.c, t.todo));
    }
  }

  lemma RemoveShape(cfg: Config, st: State, ok: Outcomes, c: string, deregister: bool)
    requires Valid(st)
    ensures var st' := Remove(cfg, st, ok, c, deregister);
            && Extends(st, st') && st'.heap == st.heap && st'.tasks == st.tasks && st'.locked == st.locked
            && st'.services == st.services - {c}
            && st'.dead == if deregister then st.dead - {c}
                           else if cfg.refreshTtl != 0 && Tracked(st, c) != []
                           then st.dead[c := DeadContainer(cfg.refreshTtl, st.services[c])]
                           else st.dead
  {
    DeregisterAllExtends(st, ok, Tracked(st, c));
    var a1 := DeregisterAll(st, ok, Tracked(st, c));
    if c in st.dead {
      DeregisterAllExtends(a1, ok, st.dead[c].services);
    } else {
      assert st.dead - {c} == st.dead;
    }
  }

  /** The record of a removed container may move to the dead ones, or be dropped. */
  lemma InvRemoved(cfg: Config, st: State, c: string, dead: map<string, DeadContainer>)
    requires Inv(cfg, st)
    requires dead == st.dead || dead == st.dead - {c}
             || (c in st.services && dead == st.dead[c := DeadContainer(cfg.refreshTtl, st.services[c])])
    ensures Inv(cfg, st.(services := st.services - {c}, dead := dead))
  {
    var st' := st.(services := st.services - {c}, dead := dead);
    forall j | 0 <= j < |st'.tasks|
      ensures TaskOk(st', st'.tasks[j])
    {
      assert TaskOk(st, st.tasks[j]);
    }
  }

  lemma InvRemove(cfg: Config, ok: Outcomes, st: State, i: nat)
    requires Inv(cfg, st) && Valid(st) && i < |st.tasks| && st.tasks[i].RemoveLocked?
    ensures Inv(cfg, RemoveStep(cfg, ok, st, i))
  {
    var c, st' := st.tasks[i].c, RemoveStep(cfg, ok, st, i);
    RemoveShape(cfg, st, ok, c, st.tasks[i].deregister);
    var plain := SetTask(st.(log := st'.log), i, Done);
    InvSetTask(cfg, st, plain, i, Done);
    InvRemoved(cfg, plain, c, st'.dead);
    assert st' == plain.(services := plain.services - {c}, dead := st'.dead);
  }

  lemma InvPrune(cfg: Config, st: State)
    requires Inv(cfg, st)
    ensures Inv(cfg, Prune(cfg, st))
  {
    var st' := Prune(cfg, st);
    forall j | 0 <= j < |st'.tasks|
      ensures TaskOk(st', st'.tasks[j])
    {
      assert TaskOk(st, st.tasks[j]);
    }
  }

  lemma StepPrune(cfg: Config, ok: Outcomes, st: State, i: nat, a: Answer)
    requires Inv(cfg, st) && Valid(st) && Enabled(st, Run(i, a)) && st.tasks[i].PruneStart?
    ensures Inv(cfg, Step(cfg, ok, st, Run(i, a)))
  {
    InvPrune(cfg, st);
    InvSetTask(cfg, Prune(cfg, st), Step(cfg, ok, st, Run(i, a)), i, Done);
  }

  lemma InvCheck(cfg: Config, st: State, i: nat)
    requires Inv(cfg, st) && i < |st.tasks| && st.tasks[i].AddCheck?
    ensures Inv(cfg, CheckStep(st, i))
  {
    InvSetTask(cfg, st, CheckStep(st, i), i, CheckStep(st, i).tasks[i]);
  }

  lemma InvInspect(cfg: Config, st: State, i: nat, container: Option<Container>)
    requires Inv(cfg, st) && i < |st.tasks| && st.tasks[i].AddInspect?
    ensures Inv(cfg, InspectStep(st, i, container))
  {
    InvSetTask(cfg, st, InspectStep(st, i, container), i, InspectStep(st, i, container).tasks[i]);
  }

  lemma InvRefresh(cfg: Config, ok: Outcomes, st: State, i: nat)
    requires Inv(cfg, st) && i < |st.tasks| && st.tasks[i].RefreshLoop?
    ensures Inv(cfg, RefreshStep(ok, st, i))
  {
    InvSetTask(cfg, st, RefreshStep(ok, st, i), i, RefreshStep(ok, st, i).tasks[i]);
  }

  lemma InvSync(cfg: Config, ok: Outcomes, st: State, i: nat, answers: SyncAnswers)
    requires Inv(cfg, st) && Valid(st) && i < |st.tasks| && st.tasks[i].SyncStart?
    ensures Inv(cfg, SyncStep(cfg, ok, st, i, answers))
  {
    SyncExtends(cfg, st, ok, st.tasks[i].ip, answers);
    InvQuiet(cfg, st, SyncStep(cfg, ok, st, i, answers));
  }

  lemma StepKeepsInv(cfg: Config, ok: Outcomes, st: State, e: Event)
    requires Inv(cfg, st) && Valid(st) && Enabled(st, e)
    ensures Inv(cfg, Step(cfg, ok, st, e))
  {
    if e.Spawn? {
      InvQuiet(cfg, st, Spawned(st, e.task));
    } else {
      var i, t := e.i, st.tasks[e.i];
      match t
      case AddStart(_, _) => StepAddStart(cfg, ok, st, i, e.answer);
      case AddCheck(_, _) => InvCheck(cfg, st, i);
      case AddInspect(_, _) => InvInspect(cfg, st, i, e.answer.container);
      case AddLoop(_, todo) =>
        if todo == [] {
          InvSetTask(cfg, st, SetTask(st, i, Done), i, Done);
        } else {
          InvRegister(cfg, ok, st, i);
        }
      case AddAppend(_, _, _) => InvAppend(cfg, st, i);
      case RemoveStart(c) =>
        InvSetTask(cfg, st, Step(cfg, ok, st, e), i, RemoveLocked(c, ShouldRemove(cfg.always, e.answer.inspection)));
      case RemoveLocked(_, _) => InvRemove(cfg, ok, st, i);
      case PruneStart => StepPrune(cfg, ok, st, i, e.answer);
      case RefreshCopy => InvSetTask(cfg, st, Step(cfg, ok, st, e), i, RefreshLoop(Copies(st, e.answer.order)));
      case RefreshLoop(_) => InvRefresh(cfg, ok, st, i);
      case SyncStart(_, _) => InvSync(cfg, ok, st, i, e.answer.answers);
    }
  }

  /** Every state of every run satisfies the invariant. */
  lemma {:induction false} RunInv(cfg: Config, ok: Outcomes, states: seq<State>, events: seq<Event>, k: nat)
    requires IsRun(cfg, ok, states, events) && k < |states|
    ensures Inv(cfg, states[k])
  {
    if k > 0 {
      RunInv(cfg, ok, states, events, k - 1);
      StepKeepsInv(cfg, ok, states[k - 1], events[k - 1]);
    }
  }

  // ---------------------------------------------------------------- reachable states

  ghost predicate Reachable(cfg: Config, ok: Outcomes, st: State)
  {
    exists states, events :: IsRun(cfg, ok, states, events) && states[|events|] == st
  }

  lemma ReachInitial(cfg: Config, ok: Outcomes)
    ensures Reachable(cfg, ok, Initial)
  {
    assert IsRun(cfg, ok, [Initial], []);
  }

  lemma ReachableInv(cfg: Config, ok: Outcomes, st: State)
    requires Reachable(cfg, ok, st)
    ensures Inv(cfg, st) && Valid(st)
  {
    var states, events :| IsRun(cfg, ok, states, events) && states[|events|] == st;
    RunInv(cfg, ok, states, events, |events|);
    InvValid(cfg, st);
  }

  lemma TraceSnoc(cfg: Config, ok: Outcomes, states: seq<State>, events: seq<Event>, e: Event)
    requires IsTrace(cfg, ok, states, events) && Valid(states[|events|]) && Enabled(states[|events|], e)
    ensures IsTrace(cfg, ok, states + [Step(cfg, ok, states[|events|], e)], events + [e])
  {
    var longer, all := states + [Step(cfg, ok, states[|events|], e)], events + [e];
    forall k | 0 <= k < |all|
      ensures Valid(longer[k]) && Enabled(longer[k], all[k]) && longer[k + 1] == Step(cfg, ok, longer[k], all[k])
    {
      assert k < |events| ==> longer[k] == states[k] && longer[k + 1] == states[k + 1] && all[k] == events[k];
    }
  }

  lemma Reach(cfg: Config, ok: Outcomes, st: State, e: Event)
    requires Reachable(cfg, ok, st) && Enabled(st, e)
    ensures Valid(st) && Reachable(cfg, ok, Step(cfg, ok, st, e))
  {
    ReachableInv(cfg, ok, st);
    var states, events :| IsRun(cfg, ok, states, events) && states[|events|] == st;
    TraceSnoc(cfg, ok, states, events, e);
    var longer := states + [Step(cfg, ok, st, e)];
    assert IsRun(cfg, ok, longer, events + [e]) && longer[|events| + 1] == Step(cfg, ok, st, e);
  }

  /** A further add of an unknown container can get as far as its last loop. */
  lemma ReachLoop(cfg: Config, ok: Outcomes, st: State, k: Container)
    requires Reachable(cfg, ok, st) && !st.locked && Tracked(st, k.id) == [] && k.id !in st.dead
    ensures Reachable(cfg, ok, st.(tasks := st.tasks + [AddLoop(k.id, NewServices(k))]))
  {
    var i := |st.tasks|;
    var start, check := st.(tasks := st.tasks + [AddStart(k.id, "")]), st.(tasks := st.tasks + [AddCheck(k.id, "")]);
    var inspect := st.(tasks := st.tasks + [AddInspect(k.id, "")]);
    Reach(cfg, ok, st, Spawn(AddStart(k.id, "")));
    Reach(cfg, ok, start, Run(i, Nothing));
    assert Step(cfg, ok, start, Run(i, Nothing)) == check;
    Reach(cfg, ok, check, Run(i, Nothing));
    assert Step(cfg, ok, check, Run(i, Nothing)) == inspect;
    Reach(cfg, ok, inspect, Run(i, Inspected(Some(k))));
    assert Step(cfg, ok, inspect, Run(i, Inspected(Some(k)))).tasks == st.tasks + [AddLoop(k.id, NewServices(k))];
  }

  lemma ReachRegister(cfg: Config, ok: Outcomes, st: State, i: nat)
    requires Reachable(cfg, ok, st) && i < |st.tasks| && st.tasks[i].AddLoop?
    ensures Reachable(cfg, ok, RegisterStep(ok, st, i))
  {
    Reach(cfg, ok, st, Run(i, Nothing));
  }

  lemma ReachAppend(cfg: Config, ok: Outcomes, st: State, i: nat)
    requires Reachable(cfg, ok, st) && i < |st.tasks| && st.tasks[i].AddAppend? && !st.locked
    ensures Reachable(cfg, ok, AppendStep(st, i))
  {
    Reach(cfg, ok, st, Run(i, Nothing));
  }

  // ---------------------------------------------------------------- ownership

  /** A place where the bridge keeps services. */
  datatype Slot = Live(c: string) | Dead(c: string)

  predicate Occupied(st: State, slot: Slot)
  {
    match slot case Live(c) => c in st.services case Dead(c) => c in st.dead
  }

  function Contents(st: State, slot: Slot): seq<Ref>
    requires Occupied(st, slot)
  {
    match slot case Live(c) => st.services[c] case Dead(c) => st.dead[c].services
  }

  ghost predicate SoleOwner(cfg: Config, st: State, slot: Slot)
    requires Occupied(st, slot)
  {
    var refs := Contents(st, slot);
    && |refs| == 1 && refs[0] < |st.heap|
    && st.heap[refs[0]].origin.containerID == slot.c
    && Registered(st.log, refs[0])
    && (forall other :: other != slot && Occupied(st, other) ==> refs[0] !in Contents(st, other))
    && (slot.Dead? && 0 < cfg.refreshInterval < cfg.refreshTtl ==> 0 < st.dead[slot.c].ttl <= cfg.refreshTtl)
  }

  lemma InvOwnership(cfg: Config, st: State, slot: Slot)
    requires Inv(cfg, st) && Occupied(st, slot)
    ensures SoleOwner(cfg, st, slot)
  {
    assert EntryOk(st, slot.c, Contents(st, slot));
    forall other | other != slot && Occupied(st, other)
      ensures Contents(st, slot)[0] !in Contents(st, other)
    {
      assert EntryOk(st, other.c, Contents(st, other));
    }
  }

  /** Ownership over all interleavings: every tracked or dead list holds exactly one service, of the
      container it is filed under, accepted by the registry before, and held nowhere else. */
  lemma OwnershipInEveryRun(cfg: Config, ok: Outcomes, states: seq<State>, events: seq<Event>, k: nat, slot: Slot)
    requires IsRun(cfg, ok, states, events) && k < |states|
    requires Occupied(states[k], slot)
    ensures SoleOwner(cfg, states[k], slot)
  {
    RunInv(cfg, ok, states, events, k);
    InvOwnership(cfg, states[k], slot);
  }
}
