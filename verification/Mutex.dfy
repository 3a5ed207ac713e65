/** `add` returns with the mutex held when it finds its container already tracked
    (bridge/bridge.go).  What that means for every run.
  */
module Mutex {
  import opened BridgeState
  import opened Lifecycle

  /** The step is an add's second check, and it finds its container tracked. */
  predicate FindsTracked(st: State, e: Event)
  {
    e.Run? && e.i < |st.tasks| && st.tasks[e.i].AddCheck? && Tracked(st, st.tasks[e.i].c) != []
  }

  lemma StepAndLock(cfg: Config, ok: Outcomes, st: State, e: Event)
    requires Valid(st) && Enabled(st, e)
    ensures Step(cfg, ok, st, e).locked <==> st.locked || FindsTracked(st, e)
    ensures st.locked ==> Step(cfg, ok, st, e).services == st.services && Step(cfg, ok, st, e).dead == st.dead
  {
    if e.Run? && st.tasks[e.i].RemoveLocked? {
      RemoveShape(cfg, st, ok, st.tasks[e.i].c, st.tasks[e.i].deregister);
    }
  }

  lemma LockAt(cfg: Config, ok: Outcomes, states: seq<State>, events: seq<Event>, k: nat)
    requires IsTrace(cfg, ok, states, events) && k < |events|
    ensures states[k + 1].locked <==> states[k].locked || FindsTracked(states[k], events[k])
    ensures states[k].locked ==> states[k + 1].services == states[k].services && states[k + 1].dead == states[k].dead
  {
    StepAndLock(cfg, ok, states[k], events[k]);
  }

  /** Between lock regions the mutex is free exactly while no add has found its container tracked. */
  lemma {:induction false} MutexFreeIff(cfg: Config, ok: Outcomes, states: seq<State>, events: seq<Event>, k: nat)
    requires IsRun(cfg, ok, states, events) && k < |states|
    ensures !states[k].locked <==> forall j :: 0 <= j < k ==> !FindsTracked(states[j], events[j])
  {
    if k > 0 {
      MutexFreeIff(cfg, ok, states, events, k - 1);
      LockAt(cfg, ok, states, events, k - 1);
    }
  }

  /** Once held, the mutex stays held and both maps stay as they are. */
  ghost predicate StaysHeld(st: State, st': State)
  {
    st.locked ==> st'.locked && st'.services == st.services && st'.dead == st.dead
  }

  lemma {:induction false} HeldAlong(states: seq<State>, j: nat, k: nat)
    requires j <= k < |states| && forall i :: j <= i < k ==> StaysHeld(states[i], states[i + 1])
    ensures StaysHeld(states[j], states[k])
  {
    if j < k {
      HeldAlong(states, j, k - 1);
      assert StaysHeld(states[k - 1], states[k - 1 + 1]);
    }
  }

  lemma HeldStaysHeld(cfg: Config, ok: Outcomes, states: seq<State>, events: seq<Event>, j: nat, k: nat)
    requires IsTrace(cfg, ok, states, events) && j <= k < |states|
    ensures StaysHeld(states[j], states[k])
  {
    forall i | j <= i < k
      ensures StaysHeld(states[i], states[i + 1])
    {
      LockAt(cfg, ok, states, events, i);
    }
    HeldAlong(states, j, k);
  }

  lemma FindingHolds(cfg: Config, ok: Outcomes, st: State, e: Event)
    requires Valid(st) && Enabled(st, e) && FindsTracked(st, e)
    ensures var st' := Step(cfg, ok, st, e); st'.locked && st'.services == st.services && st'.dead == st.dead
  {
  }

  /** From then on the bridge is frozen: neither map changes again, whatever tasks arrive. */
  lemma FrozenOnceHeld(cfg: Config, ok: Outcomes, states: seq<State>, events: seq<Event>, j: nat, k: nat)
    requires IsTrace(cfg, ok, states, events) && j < k < |states|
    requires FindsTracked(states[j], events[j])
    ensures states[k].locked && states[k].services == states[j].services && states[k].dead == states[j].dead
  {
    FindingHolds(cfg, ok, states[j], events[j]);
    HeldStaysHeld(cfg, ok, states, events, j + 1, k);
  }

  /** So once an add has kept the mutex no goroutine, old or new, ever gets through a lock region again. */
  lemma NoRegionEverAgain(cfg: Config, ok: Outcomes, states: seq<State>, events: seq<Event>, j: nat, k: nat)
    requires IsTrace(cfg, ok, states, events) && j < k < |events|
    requires FindsTracked(states[j], events[j]) && events[k].Run?
    ensures OutsideLock(states[k].tasks[events[k].i])
  {
    FrozenOnceHeld(cfg, ok, states, events, j, k);
    GoesOnIff(states[k], events[k].i);
  }

  /** Run without interleaving, an add keeps the mutex exactly when its container was tracked or dead. */
  lemma SequentialAddHolds(cfg: Config, ok: Outcomes, st: State, i: nat)
    requires Inv(cfg, st) && Valid(st) && !st.locked && i < |st.tasks| && st.tasks[i].AddStart?
    ensures var c := st.tasks[i].c;
            var st1 := Step(cfg, ok, st, Run(i, Nothing));
            && Valid(st1) && Enabled(st1, Run(i, Nothing))
            && (Step(cfg, ok, st1, Run(i, Nothing)).locked <==> c in st.services || c in st.dead)
            && (c in st.dead ==> Step(cfg, ok, st1, Run(i, Nothing)).services == st.services[c := st.dead[c].services])
  {
    var c := st.tasks[i].c;
    assert c in st.services ==> EntryOk(st, c, st.services[c]);
    assert c in st.dead ==> EntryOk(st, c, st.dead[c].services);
  }
}
