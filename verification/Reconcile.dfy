/** A sync and the goroutines it spawns bring the tracked containers in step with Docker,
    however those goroutines interleave (bridge/servicesync.go, bridge/bridge.go).
  */
module Reconcile {
  import opened Options
  import opened BridgeState
  import opened Lifecycle

  /** Docker's answer for a container, and the services the registry accepts. */
  type Inspect = string -> Option<Container>
  type Accepts = Service -> bool

  function Candidates(inspect: Inspect, c: string): seq<Service>
  {
    if inspect(c).None? then [] else NewServices(inspect(c).value)
  }

  predicate AnyAccepted(accepts: Accepts, candidates: seq<Service>)
  {
    exists i :: 0 <= i < |candidates| && accepts(candidates[i])
  }

  /** Docker returns the container it was asked for. */
  ghost predicate HonestInspect(inspect: Inspect)
  {
    forall c :: inspect(c).Some? ==> inspect(c).value.id == c
  }

  /** A step of an existing task, answered by this Docker and this registry. */
  predicate Faithful(ok: Outcomes, inspect: Inspect, accepts: Accepts, st: State, e: Event)
  {
    && e.Run? && e.i < |st.tasks|
    && (st.tasks[e.i].AddInspect? ==> e.answer == Inspected(inspect(st.tasks[e.i].c)))
    && (st.tasks[e.i].AddLoop? && st.tasks[e.i].todo != [] ==> ok(|st.log|) == accepts(st.tasks[e.i].todo[0]))
  }

  predicate AllDone(st: State)
  {
    forall i :: 0 <= i < |st.tasks| ==> st.tasks[i].Done?
  }

  // ---------------------------------------------------------------- what the sync spawns

  predicate Distinct(list: seq<string>)
  {
    forall i, j :: 0 <= i < j < |list| ==> list[i] != list[j]
  }

  /** From index `n` on: one add for each container of `listing` outside `keys`. */
  ghost predicate AddsFor(tasks: seq<Task>, n: nat, listing: seq<string>, keys: set<string>)
  {
    && n <= |tasks|
    && (forall i :: n <= i < |tasks| ==> tasks[i].AddStart? && tasks[i].c in listing && tasks[i].c !in keys)
    && (forall i, j :: n <= i < j < |tasks| ==> tasks[i].c != tasks[j].c)
    && (forall c :: c in listing && c !in keys ==> SpawnedFor(tasks, n, c))
  }

  /** Some task from index `n` on is for container `c`. */
  predicate SpawnedFor(tasks: seq<Task>, n: nat, c: string)
    requires forall i :: n <= i < |tasks| ==> tasks[i].AddStart? || tasks[i].RemoveStart?
  {
    exists i :: n <= i < |tasks| && tasks[i].c == c
  }

  lemma SpawnedForSnoc(tasks: seq<Task>, n: nat, t: Task, c: string)
    requires n <= |tasks| && (t.AddStart? || t.RemoveStart?)
    requires forall i :: n <= i < |tasks| ==> tasks[i].AddStart? || tasks[i].RemoveStart?
    ensures SpawnedFor(tasks + [t], n, c) <==> SpawnedFor(tasks, n, c) || t.c == c
  {
    if SpawnedFor(tasks, n, c) {
      var i :| n <= i < |tasks| && tasks[i].c == c;
      assert (tasks + [t])[i].c == c;
    }
    assert (tasks + [t])[|tasks|] == t;
  }

  lemma AddsForSnoc(tasks: seq<Task>, n: nat, front: seq<string>, keys: set<string>, c: string, ip: string)
    requires AddsFor(tasks, n, front, keys) && c !in front
    ensures AddsFor(if c in keys then tasks else tasks + [AddStart(c, ip)], n, front + [c], keys)
  {
    if c !in keys {
      forall d | d in front + [c] && d !in keys
        ensures SpawnedFor(tasks + [AddStart(c, ip)], n, d)
      {
        SpawnedForSnoc(tasks, n, AddStart(c, ip), d);
      }
    }
  }

  lemma ListedTasks(cfg: Config, st: State, ok: Outcomes, listing: seq<string>, ip: string)
    requires Inv(cfg, st) && Valid(st) && listing != []
    ensures var before, c := SyncListed(st, ok, listing[..|listing| - 1], ip).tasks, listing[|listing| - 1];
            SyncListed(st, ok, listing, ip).tasks == if c in st.services then before else before + [AddStart(c, ip)]
  {
    var c := listing[|listing| - 1];
    assert c in st.services ==> EntryOk(st, c, st.services[c]);
  }

  lemma {:induction false} ListedSpawns(cfg: Config, st: State, ok: Outcomes, listing: seq<string>, ip: string)
    requires Inv(cfg, st) && Valid(st) && Distinct(listing)
    ensures AddsFor(SyncListed(st, ok, listing, ip).tasks, |st.tasks|, listing, st.services.Keys)
  {
    if listing != [] {
      var front, c := listing[..|listing| - 1], listing[|listing| - 1];
      ListedSpawns(cfg, st, ok, front, ip);
      AddsForSnoc(SyncListed(st, ok, front, ip).tasks, |st.tasks|, front, st.services.Keys, c, ip);
      assert listing == front + [c];
      ListedTasks(cfg, st, ok, listing, ip);
    }
  }

  /** From index `n` on: one removal for each container of `order` outside `nonExited`. */
  ghost predicate RemovalsFor(tasks: seq<Task>, n: nat, order: seq<string>, nonExited: seq<string>)
  {
    && n <= |tasks|
    && (forall i :: n <= i < |tasks| ==> tasks[i].RemoveStart? && tasks[i].c in order && tasks[i].c !in nonExited)
    && (forall i, j :: n <= i < j < |tasks| ==> tasks[i].c != tasks[j].c)
    && (forall c :: c in order && c !in nonExited ==> SpawnedFor(tasks, n, c))
  }

  lemma RemovalsForSnoc(tasks: seq<Task>, n: nat, front: seq<string>, nonExited: seq<string>, c: string)
    requires RemovalsFor(tasks, n, front, nonExited) && c !in front
    ensures RemovalsFor(if c in nonExited then tasks else tasks + [RemoveStart(c)], n, front + [c], nonExited)
  {
    if c !in nonExited {
      forall d | d in front + [c] && d !in nonExited
        ensures SpawnedFor(tasks + [RemoveStart(c)], n, d)
      {
        SpawnedForSnoc(tasks, n, RemoveStart(c), d);
      }
    }
  }

  lemma RemovalTasks(st: State, order: seq<string>, nonExited: seq<string>)
    requires order != []
    ensures var before, c := SpawnRemovals(st, order[..|order| - 1], nonExited).tasks, order[|order| - 1];
            SpawnRemovals(st, order, nonExited).tasks == if c in nonExited then before else before + [RemoveStart(c)]
  {
  }

  lemma {:induction false} StaleSpawns(st: State, order: seq<string>, nonExited: seq<string>)
    requires Distinct(order)
    ensures RemovalsFor(SpawnRemovals(st, order, nonExited).tasks, |st.tasks|, order, nonExited)
  {
    if order != [] {
      var front, c := order[..|order| - 1], order[|order| - 1];
      StaleSpawns(st, front, nonExited);
      RemovalsForSnoc(SpawnRemovals(st, front, nonExited).tasks, |st.tasks|, front, nonExited, c);
      assert order == front + [c];
      RemovalTasks(st, order, nonExited);
    }
  }

  // ---------------------------------------------------------------- the spawned goroutines

  /** `plan[i]` says what goroutine `i` was spawned for; no two are for the same container. */
  ghost predicate IsPlan(plan: seq<Task>)
  {
    && (forall i :: 0 <= i < |plan| ==> plan[i].AddStart? || plan[i].RemoveStart? || plan[i].Done?)
    && (forall i, j :: 0 <= i < j < |plan| && !plan[i].Done? && !plan[j].Done? ==> plan[i].c != plan[j].c)
  }

  /** How far an add of `c` has come, and what that says about `c` being tracked. */
  ghost predicate AddProgress(inspect: Inspect, accepts: Accepts, st: State, c: string, t: Task)
  {
    var all := Candidates(inspect, c);
    && c !in st.dead
    && match t
       case AddStart(d, _) => d == c && c !in st.services
       case AddCheck(d, _) => d == c && c !in st.services
       case AddInspect(d, _) => d == c && c !in st.services
       case AddLoop(d, todo) =>
         && d == c && |todo| <= |all| && todo == all[|all| - |todo|..]
         && (c in st.services <==> AnyAccepted(accepts, all[..|all| - |todo|]))
       case AddAppend(d, _, todo) =>
         && d == c && |todo| < |all| && todo == all[|all| - |todo|..] && accepts(all[|all| - |todo| - 1])
       case Done => c in st.services <==> AnyAccepted(accepts, all)
       case _ => false
  }

  ghost predicate RemoveProgress(st: State, c: string, t: Task)
  {
    match t
    case RemoveStart(d) => d == c
    case RemoveLocked(d, _) => d == c
    case Done => c !in st.services
    case _ => false
  }

  ghost predicate Progress(inspect: Inspect, accepts: Accepts, st: State, planned: Task, t: Task)
  {
    match planned
    case AddStart(c, _) => AddProgress(inspect, accepts, st, c, t)
    case RemoveStart(c) => RemoveProgress(st, c, t)
    case _ => t.Done?
  }

  predicate Planned(plan: seq<Task>, c: string)
  {
    exists i :: 0 <= i < |plan| && (plan[i].AddStart? || plan[i].RemoveStart?) && plan[i].c == c
  }

  ghost predicate Underway(inspect: Inspect, accepts: Accepts, plan: seq<Task>, keys: set<string>, st: State)
  {
    && !st.locked && |st.tasks| == |plan|
    && (forall i :: 0 <= i < |plan| ==> Progress(inspect, accepts, st, plan[i], st.tasks[i]))
    && (forall c :: !Planned(plan, c) ==> (c in st.services <==> c in keys))
  }

  /** A step of goroutine `i` concerns the entries of its own container only. */
  ghost predicate Local(st: State, st': State, c: string)
  {
    && !st'.locked
    && st'.services - {c} == st.services - {c}
    && st'.dead - {c} == st.dead - {c}
  }

  lemma LocalKeys(st: State, st': State, c: string, d: string)
    requires Local(st, st', c) && d != c
    ensures d in st'.services <==> d in st.services
    ensures d in st'.dead <==> d in st.dead
  {
    assert d in st.services <==> d in st.services - {c};
    assert d in st'.services <==> d in st'.services - {c};
    assert d in st.dead <==> d in st.dead - {c};
    assert d in st'.dead <==> d in st'.dead - {c};
  }

  lemma AnyAcceptedSnoc(accepts: Accepts, all: seq<Service>, k: nat)
    requires k < |all|
    ensures AnyAccepted(accepts, all[..k + 1]) <==> AnyAccepted(accepts, all[..k]) || accepts(all[k])
  {
    if AnyAccepted(accepts, all[..k]) {
      var i :| 0 <= i < k && accepts(all[..k][i]);
      assert accepts(all[..k + 1][i]);
    }
    if accepts(all[k]) {
      assert accepts(all[..k + 1][k]);
    }
  }

  lemma AddStepEarly(cfg: Config, ok: Outcomes, inspect: Inspect, accepts: Accepts, st: State, e: Event, c: string)
    requires Valid(st) && Enabled(st, e) && HonestInspect(inspect)
    requires Faithful(ok, inspect, accepts, st, e) && !st.locked
    requires AddProgress(inspect, accepts, st, c, st.tasks[e.i])
    requires var t := st.tasks[e.i]; t.AddStart? || t.AddCheck? || t.AddInspect? || (t.AddLoop? && t.todo == [])
    ensures var st' := Step(cfg, ok, st, e);
            Local(st, st', c) && AddProgress(inspect, accepts, st', c, st'.tasks[e.i])
  {
    var all := Candidates(inspect, c);
    assert all[..0] == [] && all[0..] == all && all[..|all|] == all;
  }

  /** The loop's position, one service further. */
  lemma NextTodo(all: seq<Service>, todo: seq<Service>)
    requires 0 < |todo| <= |all| && todo == all[|all| - |todo|..]
    ensures todo[0] == all[|all| - |todo|] && |todo[1..]| == |todo| - 1 && todo[1..] == all[|all| - |todo| + 1..]
  {
  }

  /** Where a successful or failed Register takes the task. */
  lemma RegisterTask(ok: Outcomes, st: State, i: nat)
    requires i < |st.tasks| && st.tasks[i].AddLoop? && st.tasks[i].todo != []
    ensures var st', t := RegisterStep(ok, st, i), st.tasks[i];
            && st'.services == st.services && st'.dead == st.dead && st'.locked == st.locked
            && i < |st'.tasks|
            && st'.tasks[i] ==
               if ok(|st.log|) then AddAppend(t.c, |st.heap|, t.todo[1..]) else AddLoop(t.c, t.todo[1..])
  {
  }

  /** The progress of the task after a Register, from the position it had. */
  lemma ProgressAfterRegister(inspect: Inspect, accepts: Accepts, st: State, c: string, todo: seq<Service>, ref: Ref)
    requires todo != [] && AddProgress(inspect, accepts, st, c, AddLoop(c, todo))
    ensures accepts(todo[0]) ==> AddProgress(inspect, accepts, st, c, AddAppend(c, ref, todo[1..]))
    ensures !accepts(todo[0]) ==> AddProgress(inspect, accepts, st, c, AddLoop(c, todo[1..]))
  {
    var all := Candidates(inspect, c);
    NextTodo(all, todo);
    AnyAcceptedSnoc(accepts, all, |all| - |todo|);
  }

  lemma AddStepRegister(ok: Outcomes, inspect: Inspect, accepts: Accepts, st: State, i: nat, c: string)
    requires i < |st.tasks| && st.tasks[i].AddLoop? && st.tasks[i].todo != [] && !st.locked
    requires ok(|st.log|) == accepts(st.tasks[i].todo[0])
    requires AddProgress(inspect, accepts, st, c, st.tasks[i])
    ensures var st' := RegisterStep(ok, st, i);
            Local(st, st', c) && AddProgress(inspect, accepts, st', c, st'.tasks[i])
  {
    RegisterTask(ok, st, i);
    ProgressAfterRegister(inspect, accepts, st, c, st.tasks[i].todo, |st.heap|);
  }

  lemma AddStepAppend(cfg: Config, inspect: Inspect, accepts: Accepts, st: State, i: nat, c: string)
    requires Inv(cfg, st) && i < |st.tasks| && st.tasks[i].AddAppend? && !st.locked
    requires AddProgress(inspect, accepts, st, c, st.tasks[i])
    ensures var st' := AppendStep(st, i);
            Local(st, st', c) && AddProgress(inspect, accepts, st', c, st'.tasks[i])
  {
    var all, todo := Candidates(inspect, c), st.tasks[i].todo;
    AnyAcceptedSnoc(accepts, all, |all| - |todo| - 1);
    assert c in st.services ==> EntryOk(st, c, st.services[c]);
    assert AppendStep(st, i).services - {c} == st.services - {c};
  }

  /** The part of a step that its own goroutine depends on. */
  lemma AddStep(cfg: Config, ok: Outcomes, inspect: Inspect, accepts: Accepts, st: State, e: Event, c: string)
    requires Inv(cfg, st) && Valid(st) && Enabled(st, e) && HonestInspect(inspect)
    requires Faithful(ok, inspect, accepts, st, e) && !st.locked
    requires AddProgress(inspect, accepts, st, c, st.tasks[e.i])
    ensures var st' := Step(cfg, ok, st, e);
            Local(st, st', c) && e.i < |st'.tasks| && AddProgress(inspect, accepts, st', c, st'.tasks[e.i])
  {
    if st.tasks[e.i].AddAppend? {
      AddStepAppend(cfg, inspect, accepts, st, e.i, c);
    } else if st.tasks[e.i].AddLoop? && st.tasks[e.i].todo != [] {
      AddStepRegister(ok, inspect, accepts, st, e.i, c);
    } else {
      AddStepEarly(cfg, ok, inspect, accepts, st, e, c);
    }
  }

  lemma RemovalStep(cfg: Config, ok: Outcomes, st: State, e: Event, c: string)
    requires Valid(st) && Enabled(st, e) && e.Run? && !st.locked
    requires RemoveProgress(st, c, st.tasks[e.i])
    ensures var st' := Step(cfg, ok, st, e);
            |st'.tasks| == |st.tasks| && Local(st, st', c) && RemoveProgress(st', c, st'.tasks[e.i])
  {
    if st.tasks[e.i].RemoveLocked? {
      RemoveShape(cfg, st, ok, c, st.tasks[e.i].deregister);
    }
  }

  lemma StepTasks(cfg: Config, ok: Outcomes, st: State, e: Event)
    requires Valid(st) && Enabled(st, e) && e.Run? && !st.tasks[e.i].SyncStart?
    ensures var st' := Step(cfg, ok, st, e);
            |st'.tasks| == |st.tasks| && forall j :: 0 <= j < |st.tasks| && j != e.i ==> st'.tasks[j] == st.tasks[j]
  {
    if st.tasks[e.i].RemoveLocked? {
      RemoveShape(cfg, st, ok, st.tasks[e.i].c, st.tasks[e.i].deregister);
    }
  }

  /** Goroutines of other containers do not notice a local step. */
  lemma OthersUndisturbed(inspect: Inspect, accepts: Accepts, plan: seq<Task>, keys: set<string>, st: State,
                          st': State, i: nat)
    requires Underway(inspect, accepts, plan, keys, st) && IsPlan(plan) && i < |plan| && !plan[i].Done?
    requires Local(st, st', plan[i].c) && |st'.tasks| == |st.tasks|
    requires forall j :: 0 <= j < |st.tasks| && j != i ==> st'.tasks[j] == st.tasks[j]
    requires Progress(inspect, accepts, st', plan[i], st'.tasks[i])
    ensures Underway(inspect, accepts, plan, keys, st')
  {
    forall j | 0 <= j < |plan|
      ensures Progress(inspect, accepts, st', plan[j], st'.tasks[j])
    {
      if j != i && !plan[j].Done? {
        LocalKeys(st, st', plan[i].c, plan[j].c);
        assert Progress(inspect, accepts, st, plan[j], st.tasks[j]);
      }
    }
    forall c | !Planned(plan, c)
      ensures c in st'.services <==> c in keys
    {
      assert c != plan[i].c;
      LocalKeys(st, st', plan[i].c, c);
    }
  }

  lemma UnderwayStep(cfg: Config, ok: Outcomes, inspect: Inspect, accepts: Accepts, plan: seq<Task>, keys: set<string>,
                     st: State, e: Event)
    requires Inv(cfg, st) && Valid(st) && Enabled(st, e) && HonestInspect(inspect)
    requires Faithful(ok, inspect, accepts, st, e)
    requires IsPlan(plan) && Underway(inspect, accepts, plan, keys, st)
    ensures Underway(inspect, accepts, plan, keys, Step(cfg, ok, st, e))
  {
    var planned := plan[e.i];
    assert Progress(inspect, accepts, st, planned, st.tasks[e.i]);
    if planned.AddStart? {
      AddStep(cfg, ok, inspect, accepts, st, e, planned.c);
    } else {
      RemovalStep(cfg, ok, st, e, planned.c);
    }
    StepTasks(cfg, ok, st, e);
    OthersUndisturbed(inspect, accepts, plan, keys, st, Step(cfg, ok, st, e), e.i);
  }

  // ---------------------------------------------------------------- termination

  /** How many steps a goroutine may still take. */
  function Weight(inspect: Inspect, t: Task): nat
  {
    match t
    case AddStart(c, _) => 4 + 2 * |Candidates(inspect, c)|
    case AddCheck(c, _) => 3 + 2 * |Candidates(inspect, c)|
    case AddInspect(c, _) => 2 + 2 * |Candidates(inspect, c)|
    case AddLoop(_, todo) => 1 + 2 * |todo|
    case AddAppend(_, _, todo) => 2 + 2 * |todo|
    case RemoveStart(_) => 2
    case RemoveLocked(_, _) => 1
    case _ => 0
  }

  function Measure(inspect: Inspect, tasks: seq<Task>): nat
  {
    if tasks == [] then 0 else Measure(inspect, tasks[..|tasks| - 1]) + Weight(inspect, tasks[|tasks| - 1])
  }

  lemma {:induction false} MeasureUpdate(inspect: Inspect, tasks: seq<Task>, i: nat, t: Task)
    requires i < |tasks|
    ensures Measure(inspect, tasks[i := t]) == Measure(inspect, tasks) - Weight(inspect, tasks[i]) + Weight(inspect, t)
  {
    var n, updated := |tasks| - 1, tasks[i := t];
    var front := tasks[..n];
    assert Measure(inspect, tasks) == Measure(inspect, front) + Weight(inspect, tasks[n]);
    assert Measure(inspect, updated) == Measure(inspect, updated[..n]) + Weight(inspect, updated[n]);
    if i == n {
      assert updated[..n] == front;
    } else {
      assert updated[..n] == front[i := t];
      MeasureUpdate(inspect, front, i, t);
    }
  }

  /** The tasks a sync's goroutines go through. */
  predicate Weighs(t: Task)
  {
    t.AddStart? || t.AddCheck? || t.AddInspect? || t.AddLoop? || t.AddAppend? || t.RemoveStart? || t.RemoveLocked?
  }

  lemma ProgressWeighs(inspect: Inspect, accepts: Accepts, st: State, planned: Task, t: Task)
    requires Progress(inspect, accepts, st, planned, t) && !t.Done?
    ensures Weighs(t)
  {
  }

  lemma WeightStep(cfg: Config, ok: Outcomes, inspect: Inspect, accepts: Accepts, st: State, e: Event)
    requires Valid(st) && Enabled(st, e) && Faithful(ok, inspect, accepts, st, e) && Weighs(st.tasks[e.i])
    ensures e.i < |Step(cfg, ok, st, e).tasks|
    ensures Weight(inspect, Step(cfg, ok, st, e).tasks[e.i]) < Weight(inspect, st.tasks[e.i])
  {
    if st.tasks[e.i].RemoveLocked? {
      RemoveShape(cfg, st, ok, st.tasks[e.i].c, st.tasks[e.i].deregister);
    }
  }

  lemma MeasureStep(cfg: Config, ok: Outcomes, inspect: Inspect, accepts: Accepts, plan: seq<Task>, keys: set<string>,
                    st: State, e: Event)
    requires Valid(st) && Enabled(st, e) && Faithful(ok, inspect, accepts, st, e)
    requires Underway(inspect, accepts, plan, keys, st) && IsPlan(plan)
    ensures Measure(inspect, Step(cfg, ok, st, e).tasks) < Measure(inspect, st.tasks)
  {
    var after := Step(cfg, ok, st, e).tasks;
    assert Progress(inspect, accepts, st, plan[e.i], st.tasks[e.i]);
    ProgressWeighs(inspect, accepts, st, plan[e.i], st.tasks[e.i]);
    WeightStep(cfg, ok, inspect, accepts, st, e);
    StepTasks(cfg, ok, st, e);
    assert after == st.tasks[e.i := after[e.i]];
    MeasureUpdate(inspect, st.tasks, e.i, after[e.i]);
  }

  /** No spawned goroutine ever waits for the mutex: each unfinished one can take its next step. */
  lemma NeverBlocked(inspect: Inspect, accepts: Accepts, plan: seq<Task>, keys: set<string>, st: State, i: nat)
    requires Underway(inspect, accepts, plan, keys, st) && IsPlan(plan)
    requires i < |st.tasks| && !st.tasks[i].Done?
    ensures exists a :: Enabled(st, Run(i, a))
  {
    assert Progress(inspect, accepts, st, plan[i], st.tasks[i]);
    var a := if st.tasks[i].AddInspect? then Inspected(None)
             else if st.tasks[i].RemoveStart? then Examined(NoSuchContainer)
             else Nothing;
    assert Enabled(st, Run(i, a));
  }

  // ---------------------------------------------------------------- the theorem

  /** A sync about to run alone, with its first listing answered. */
  ghost predicate SyncAlone(cfg: Config, st: State, i: nat, answers: SyncAnswers)
  {
    && Inv(cfg, st) && !st.locked
    && i < |st.tasks| && st.tasks[i].SyncStart?
    && (forall j :: 0 <= j < |st.tasks| && j != i ==> st.tasks[j].Done?)
    && answers.listing.Some?
    && Distinct(answers.listing.value)
    && IsIteration(answers.order, st.services.Keys)
  }

  /** No container that the sync will add is dead. */
  predicate NoneDead(st: State, listing: seq<string>)
  {
    forall c :: c in listing && c !in st.services ==> c !in st.dead
  }

  /** Exited, as far as this sync looks: it does so only with cleanup on and its second listing answered. */
  predicate Stale(cfg: Config, answers: SyncAnswers, c: string)
  {
    cfg.cleanup && answers.nonExited.Some? && c !in answers.nonExited.value
  }

  /** Tracked before and not exited, or listed, new and with a service the registry accepts. */
  function Reconciled(cfg: Config, inspect: Inspect, accepts: Accepts, keys: set<string>, answers: SyncAnswers)
    : set<string>
    requires answers.listing.Some?
  {
    (set c | c in keys && !Stale(cfg, answers, c))
    + (set c | c in answers.listing.value && c !in keys && AnyAccepted(accepts, Candidates(inspect, c)))
  }

  /** What the spawned tasks amount to: an add for each new listed container, a removal for each stale one. */
  ghost predicate PlanFor(plan: seq<Task>, keys: set<string>, listing: seq<string>, nonExited: seq<string>)
  {
    && IsPlan(plan)
    && (forall j :: 0 <= j < |plan| && plan[j].AddStart? ==> plan[j].c in listing && plan[j].c !in keys)
    && (forall j :: 0 <= j < |plan| && plan[j].RemoveStart? ==> plan[j].c in keys && plan[j].c !in nonExited)
    && (forall c :: c in listing && c !in keys ==> Planned(plan, c))
    && (forall c :: c in keys && c !in nonExited ==> Planned(plan, c))
  }

  lemma SpawnedPlan(before: seq<Task>, adds: seq<Task>, all: seq<Task>, plan: seq<Task>, i: nat,
                    keys: set<string>, listing: seq<string>, order: seq<string>, nonExited: seq<string>)
    requires i < |before| && before <= adds <= all && plan == all[i := Done]
    requires forall j :: 0 <= j < |before| && j != i ==> before[j].Done?
    requires AddsFor(adds, |before|, listing, keys) && RemovalsFor(all, |adds|, order, nonExited)
    requires IsIteration(order, keys)
    ensures PlanFor(plan, keys, listing, nonExited)
  {
    var n, m := |before|, |adds|;
    assert forall j :: 0 <= j < n ==> plan[j].Done?;
    assert forall j :: n <= j < m ==> plan[j] == adds[j];
    assert forall j :: m <= j < |plan| ==> plan[j] == all[j];
    forall c | c in listing && c !in keys
      ensures Planned(plan, c)
    {
      assert SpawnedFor(adds, n, c);
      var j :| n <= j < m && adds[j].c == c;
      assert plan[j] == adds[j];
    }
    forall c | c in keys && c !in nonExited
      ensures Planned(plan, c)
    {
      assert SpawnedFor(all, m, c);
      var j :| m <= j < |all| && all[j].c == c;
      assert plan[j] == all[j];
    }
  }

  /** What the sync takes as not exited; without a second listing, all that is tracked. */
  function Present(cfg: Config, answers: SyncAnswers): seq<string>
  {
    if cfg.cleanup && answers.nonExited.Some? then answers.nonExited.value else answers.order
  }

  /** The removals of a sync, if it gets that far. */
  lemma SyncRemovals(cfg: Config, ok: Outcomes, st: State, ip: string, answers: SyncAnswers)
    requires Valid(st) && answers.listing.Some? && Distinct(answers.order)
    ensures var a, r := SyncListed(st, ok, answers.listing.value, ip), Sync(cfg, st, ok, ip, answers);
            a.tasks <= r.tasks && RemovalsFor(r.tasks, |a.tasks|, answers.order, Present(cfg, answers))
  {
    var a := SyncListed(st, ok, answers.listing.value, ip);
    if cfg.cleanup && answers.nonExited.Some? {
      StaleSpawns(a, answers.order, answers.nonExited.value);
    }
  }

  lemma SyncPlan(cfg: Config, ok: Outcomes, st: State, i: nat, answers: SyncAnswers)
    requires SyncAlone(cfg, st, i, answers) && Valid(st)
    ensures var st1 := Step(cfg, ok, st, Run(i, SyncReply(answers)));
            && st1.services == st.services && st1.dead == st.dead && !st1.locked
            && PlanFor(st1.tasks, st.services.Keys, answers.listing.value, Present(cfg, answers))
  {
    var st1, ip := Step(cfg, ok, st, Run(i, SyncReply(answers))), st.tasks[i].ip;
    var a, b := SyncListed(st, ok, answers.listing.value, ip), Sync(cfg, st, ok, ip, answers);
    ListedSpawns(cfg, st, ok, answers.listing.value, ip);
    SyncRemovals(cfg, ok, st, ip, answers);
    SpawnedPlan(st.tasks, a.tasks, b.tasks, st1.tasks, i, st.services.Keys,
                answers.listing.value, answers.order, Present(cfg, answers));
  }

  lemma PlanUnderway(inspect: Inspect, accepts: Accepts, st: State, keys: set<string>,
                     listing: seq<string>, nonExited: seq<string>)
    requires st.services.Keys == keys && !st.locked && PlanFor(st.tasks, keys, listing, nonExited)
    requires NoneDead(st, listing)
    ensures Underway(inspect, accepts, st.tasks, keys, st)
  {
  }

  lemma {:induction false} TraceUnderway(cfg: Config, ok: Outcomes, inspect: Inspect, accepts: Accepts,
                                         states: seq<State>, events: seq<Event>, keys: set<string>, k: nat)
    requires IsTrace(cfg, ok, states, events) && k < |states| && HonestInspect(inspect)
    requires Inv(cfg, states[0]) && IsPlan(states[0].tasks)
    requires Underway(inspect, accepts, states[0].tasks, keys, states[0])
    requires forall j :: 0 <= j < |events| ==> Faithful(ok, inspect, accepts, states[j], events[j])
    ensures Inv(cfg, states[k]) && Underway(inspect, accepts, states[0].tasks, keys, states[k])
    ensures k + Measure(inspect, states[k].tasks) <= Measure(inspect, states[0].tasks)
  {
    if k > 0 {
      TraceUnderway(cfg, ok, inspect, accepts, states, events, keys, k - 1);
      StepKeepsInv(cfg, ok, states[k - 1], events[k - 1]);
      UnderwayStep(cfg, ok, inspect, accepts, states[0].tasks, keys, states[k - 1], events[k - 1]);
      MeasureStep(cfg, ok, inspect, accepts, states[0].tasks, keys, states[k - 1], events[k - 1]);
    }
  }

  lemma FinishedKeys(cfg: Config, inspect: Inspect, accepts: Accepts, keys: set<string>, answers: SyncAnswers,
                     plan: seq<Task>, last: State)
    requires answers.listing.Some? && IsIteration(answers.order, keys)
    requires PlanFor(plan, keys, answers.listing.value, Present(cfg, answers))
    requires Underway(inspect, accepts, plan, keys, last) && AllDone(last)
    ensures last.services.Keys == Reconciled(cfg, inspect, accepts, keys, answers)
  {
    var target := Reconciled(cfg, inspect, accepts, keys, answers);
    assert forall c :: c in keys ==> (c in Present(cfg, answers) <==> !Stale(cfg, answers, c));
    forall c
      ensures c in last.services <==> c in target
    {
      if Planned(plan, c) {
        var j :| 0 <= j < |plan| && (plan[j].AddStart? || plan[j].RemoveStart?) && plan[j].c == c;
        assert Progress(inspect, accepts, last, plan[j], last.tasks[j]);
        assert last.tasks[j].Done?;
      }
    }
  }

  /** Whatever the interleaving of the goroutines a sync spawns, whatever the exit codes and the
      outcomes of Deregister: they never wait, they all finish, and then the tracked containers are
      exactly the reconciled ones. */
  lemma SyncReconciles(cfg: Config, ok: Outcomes, inspect: Inspect, accepts: Accepts, st: State, i: nat,
                       answers: SyncAnswers, states: seq<State>, events: seq<Event>)
    requires SyncAlone(cfg, st, i, answers) && Valid(st) && HonestInspect(inspect)
    requires NoneDead(st, answers.listing.value)
    requires IsTrace(cfg, ok, states, events) && states[0] == Step(cfg, ok, st, Run(i, SyncReply(answers)))
    requires forall j :: 0 <= j < |events| ==> Faithful(ok, inspect, accepts, states[j], events[j])
    ensures var last := states[|events|];
            && !last.locked && |events| <= Measure(inspect, states[0].tasks)
            && (AllDone(last) ==> last.services.Keys == Reconciled(cfg, inspect, accepts, st.services.Keys, answers))
            && (forall t :: 0 <= t < |last.tasks| && !last.tasks[t].Done? ==> exists a :: Enabled(last, Run(t, a)))
  {
    StepKeepsInv(cfg, ok, st, Run(i, SyncReply(answers)));
    SyncPlan(cfg, ok, st, i, answers);
    PlanUnderway(inspect, accepts, states[0], st.services.Keys, answers.listing.value, Present(cfg, answers));
    var plan, last := states[0].tasks, states[|events|];
    TraceUnderway(cfg, ok, inspect, accepts, states, events, st.services.Keys, |events|);
    if AllDone(last) {
      FinishedKeys(cfg, inspect, accepts, st.services.Keys, answers, plan, last);
    }
    forall t | 0 <= t < |last.tasks| && !last.tasks[t].Done?
      ensures exists a :: Enabled(last, Run(t, a))
    {
      NeverBlocked(inspect, accepts, plan, st.services.Keys, last, t);
    }
  }

  // ---------------------------------------------------------------- a listed container that is dead

  predicate Undisturbed(tasks: seq<Task>, c: string)
  {
    forall i :: 0 <= i < |tasks| ==>
      && !tasks[i].PruneStart? && !tasks[i].SyncStart?
      && !(tasks[i].RemoveStart? && tasks[i].c == c) && !(tasks[i].RemoveLocked? && tasks[i].c == c)
  }

  /** Goroutine `j` adds the dead container `c`: it will hold the mutex, or the mutex is held already. */
  predicate Doomed(st: State, j: nat, c: string)
  {
    && Undisturbed(st.tasks, c) && j < |st.tasks|
    && (st.locked
        || (st.tasks[j].AddStart? && st.tasks[j].c == c && (c in st.dead || Tracked(st, c) != []))
        || (st.tasks[j].AddCheck? && st.tasks[j].c == c && Tracked(st, c) != []))
  }

  lemma UndisturbedStep(cfg: Config, ok: Outcomes, st: State, e: Event, c: string)
    requires Valid(st) && Enabled(st, e) && e.Run? && Undisturbed(st.tasks, c)
    ensures Undisturbed(Step(cfg, ok, st, e).tasks, c)
  {
    StepTasks(cfg, ok, st, e);
    var after := Step(cfg, ok, st, e).tasks;
    assert forall i :: 0 <= i < |after| && i != e.i ==> after[i] == st.tasks[i];
    assert !after[e.i].PruneStart? && !after[e.i].SyncStart? && !after[e.i].RemoveStart?;
    assert after[e.i].RemoveLocked? ==> st.tasks[e.i].RemoveStart? && st.tasks[e.i].c == after[e.i].c;
  }

  /** A dead or tracked container stays so, and a tracked one stays tracked. */
  ghost predicate Known(st: State, st': State, c: string)
  {
    && (st.locked ==> st'.locked)
    && (Tracked(st, c) != [] ==> Tracked(st', c) != [])
    && (c in st.dead ==> c in st'.dead || Tracked(st', c) != [])
  }

  lemma RemovalKeepsKnown(cfg: Config, ok: Outcomes, st: State, i: nat, c: string)
    requires Valid(st) && i < |st.tasks| && st.tasks[i].RemoveLocked? && st.tasks[i].c != c
    ensures Known(st, Lifecycle.RemoveStep(cfg, ok, st, i), c)
  {
    RemoveShape(cfg, st, ok, st.tasks[i].c, st.tasks[i].deregister);
  }

  /** Most steps leave both maps alone. */
  lemma MapsUnchanged(cfg: Config, ok: Outcomes, st: State, e: Event)
    requires Valid(st) && Enabled(st, e) && e.Run?
    requires var t := st.tasks[e.i]; !t.AddStart? && !t.AddAppend? && !t.RemoveLocked? && !t.PruneStart?
    ensures var st' := Step(cfg, ok, st, e);
            st'.services == st.services && st'.dead == st.dead && (st.locked ==> st'.locked)
  {
  }

  lemma StaysKnown(cfg: Config, ok: Outcomes, st: State, e: Event, c: string)
    requires Inv(cfg, st) && Valid(st) && Enabled(st, e) && e.Run? && Undisturbed(st.tasks, c)
    ensures Known(st, Step(cfg, ok, st, e), c)
  {
    var t := st.tasks[e.i];
    if t.RemoveLocked? {
      RemovalKeepsKnown(cfg, ok, st, e.i, c);
    } else if t.AddStart? {
      assert Known(st, DeleteDead(st, t.c), c) by {
        assert c in st.dead ==> EntryOk(st, c, st.dead[c].services);
      }
    } else if t.AddAppend? {
      assert Known(st, AppendStep(st, e.i), c);
    } else {
      MapsUnchanged(cfg, ok, st, e);
    }
  }

  lemma DoomedStep(cfg: Config, ok: Outcomes, st: State, e: Event, j: nat, c: string)
    requires Inv(cfg, st) && Valid(st) && Enabled(st, e) && e.Run? && Doomed(st, j, c)
    ensures Doomed(Step(cfg, ok, st, e), j, c)
  {
    UndisturbedStep(cfg, ok, st, e, c);
    StaysKnown(cfg, ok, st, e, c);
    StepTasks(cfg, ok, st, e);
    if e.i == j && st.tasks[j].AddStart? {
      assert c in st.dead ==> EntryOk(st, c, st.dead[c].services);
    }
  }

  lemma {:induction false} TraceDoomed(cfg: Config, ok: Outcomes, states: seq<State>, events: seq<Event>, j: nat,
                                       c: string, k: nat)
    requires IsTrace(cfg, ok, states, events) && k < |states| && Inv(cfg, states[0])
    requires forall i :: 0 <= i < |events| ==> events[i].Run?
    requires Doomed(states[0], j, c)
    ensures Inv(cfg, states[k]) && Doomed(states[k], j, c)
  {
    if k > 0 {
      TraceDoomed(cfg, ok, states, events, j, c, k - 1);
      StepKeepsInv(cfg, ok, states[k - 1], events[k - 1]);
      DoomedStep(cfg, ok, states[k - 1], events[k - 1], j, c);
    }
  }

  /** The condition on dead containers cannot be dropped: once an add of a dead container is among the
      spawned goroutines, no interleaving finishes them all without the mutex being held for good. */
  lemma DeadListedHoldsMutex(cfg: Config, ok: Outcomes, states: seq<State>, events: seq<Event>, c: string,
                             listing: seq<string>, nonExited: seq<string>)
    requires IsTrace(cfg, ok, states, events) && Inv(cfg, states[0])
    requires forall i :: 0 <= i < |events| ==> events[i].Run?
    requires PlanFor(states[0].tasks, states[0].services.Keys, listing, nonExited)
    requires c in listing && c !in states[0].services && c in states[0].dead
    ensures AllDone(states[|events|]) ==> states[|events|].locked
  {
    var plan := states[0].tasks;
    var j :| 0 <= j < |plan| && (plan[j].AddStart? || plan[j].RemoveStart?) && plan[j].c == c;
    assert Doomed(states[0], j, c);
    TraceDoomed(cfg, ok, states, events, j, c, |events|);
  }

  /** The two cases are opposites: when the goroutines of a sync have all finished, however they interleaved,
      the mutex is free and the tracked containers are the reconciled ones if no container to be added was
      dead, and the mutex is held for good if one was. */
  lemma SyncReconcilesIff(cfg: Config, ok: Outcomes, inspect: Inspect, accepts: Accepts, st: State, i: nat,
                          answers: SyncAnswers, states: seq<State>, events: seq<Event>)
    requires SyncAlone(cfg, st, i, answers) && Valid(st) && HonestInspect(inspect)
    requires IsTrace(cfg, ok, states, events) && states[0] == Step(cfg, ok, st, Run(i, SyncReply(answers)))
    requires forall j :: 0 <= j < |events| ==> Faithful(ok, inspect, accepts, states[j], events[j])
    requires AllDone(states[|events|])
    ensures var last := states[|events|];
            && (!last.locked <==> NoneDead(st, answers.listing.value))
            && (!last.locked ==> last.services.Keys == Reconciled(cfg, inspect, accepts, st.services.Keys, answers))
  {
    if NoneDead(st, answers.listing.value) {
      SyncReconciles(cfg, ok, inspect, accepts, st, i, answers, states, events);
    } else {
      var c :| c in answers.listing.value && c !in st.services && c in st.dead;
      StepKeepsInv(cfg, ok, st, Run(i, SyncReply(answers)));
      SyncPlan(cfg, ok, st, i, answers);
      DeadListedHoldsMutex(cfg, ok, states, events, c, answers.listing.value, Present(cfg, answers));
    }
  }
}
