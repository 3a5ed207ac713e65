/** How long a dead container's record lives (bridge/bridge.go, registrator.go). */
module Expiry {
  import opened BridgeState
  import opened Lifecycle

  predicate IsPrune(st: State, e: Event)
  {
    e.Run? && e.i < |st.tasks| && st.tasks[e.i].PruneStart?
  }

  /** A lock region of an add or a remove of this container. */
  predicate Touches(st: State, e: Event, c: string)
  {
    e.Run? && e.i < |st.tasks| && (st.tasks[e.i].AddStart? || st.tasks[e.i].RemoveLocked?) && st.tasks[e.i].c == c
  }

  /** Number of prunes among the first `k` steps. */
  function Prunes(states: seq<State>, events: seq<Event>, k: nat): nat
    requires k <= |events| <= |states|
  {
    if k == 0 then 0
    else Prunes(states, events, k - 1) + if IsPrune(states[k - 1], events[k - 1]) then 1 else 0
  }

  function CeilDiv(a: nat, b: nat): nat
    requires b > 0
  {
    (a + b - 1) / b
  }

  lemma MulMonotone(x: nat, y: nat, b: nat)
    requires x <= y
    ensures x * b <= y * b
  {
    assert y * b == x * b + (y - x) * b;
    assert (y - x) * b >= 0;
  }

  lemma BelowCeilDiv(m: nat, a: nat, b: nat)
    requires b > 0
    ensures m < CeilDiv(a, b) <==> m * b < a
  {
    var n := a + b - 1;
    var q, rest := n / b, n % b;
    assert n == q * b + rest && 0 <= rest < b;
    if m < q {
      MulMonotone(m + 1, q, b);
      assert (m + 1) * b == m * b + b;
    } else {
      MulMonotone(q, m, b);
    }
  }

  /** What `m` prunes take off a TTL. */
  function Elapsed(cfg: Config, m: nat): int
  {
    m * cfg.refreshInterval
  }

  /** What is left of a full TTL after `m` prunes. */
  function Left(cfg: Config, m: nat): int
  {
    cfg.refreshTtl - Elapsed(cfg, m)
  }

  lemma LeftStep(cfg: Config, m: nat)
    ensures Left(cfg, 0) == cfg.refreshTtl && Left(cfg, m + 1) == Left(cfg, m) - cfg.refreshInterval
  {
  }

  /** What one step does to the record of `c`, as seen from `before` and `after`. */
  predicate Follows(cfg: Config, prune: bool, before: map<string, DeadContainer>, after: map<string, DeadContainer>,
                    c: string)
  {
    if prune then after == Pruned(cfg, before)
    else (c in after <==> c in before) && (c in before ==> after[c] == before[c])
  }

  lemma UntouchedStep(cfg: Config, ok: Outcomes, st: State, e: Event, c: string)
    requires Valid(st) && Enabled(st, e) && !Touches(st, e, c)
    ensures Follows(cfg, IsPrune(st, e), st.dead, Step(cfg, ok, st, e).dead, c)
  {
    if e.Run? && st.tasks[e.i].RemoveLocked? {
      RemoveShape(cfg, st, ok, st.tasks[e.i].c, st.tasks[e.i].deregister);
    }
  }

  lemma UntouchedAt(cfg: Config, ok: Outcomes, states: seq<State>, events: seq<Event>, c: string, k: nat)
    requires IsTrace(cfg, ok, states, events) && k < |events| && !Touches(states[k], events[k], c)
    ensures Follows(cfg, IsPrune(states[k], events[k]), states[k].dead, states[k + 1].dead, c)
  {
    UntouchedStep(cfg, ok, states[k], events[k], c);
  }

  /** The record `full` of `c`, `m` prunes later. */
  predicate Aged(cfg: Config, full: DeadContainer, dead: map<string, DeadContainer>, c: string, m: nat)
  {
    if Left(cfg, m) > 0 then c in dead && dead[c] == full.(ttl := Left(cfg, m)) else c !in dead
  }

  lemma AgedStep(cfg: Config, full: DeadContainer,
                 before: map<string, DeadContainer>, after: map<string, DeadContainer>,
                 c: string, m: nat, prune: bool)
    requires cfg.refreshInterval > 0 && Aged(cfg, full, before, c, m) && Follows(cfg, prune, before, after, c)
    ensures Aged(cfg, full, after, c, if prune then m + 1 else m)
  {
    LeftStep(cfg, m);
  }

  /** A record just made loses one interval per prune and nothing else. */
  lemma {:induction false} Countdown(cfg: Config, ok: Outcomes, states: seq<State>, events: seq<Event>, c: string,
                                     k: nat)
    requires IsTrace(cfg, ok, states, events) && k <= |events|
    requires 0 < cfg.refreshInterval < cfg.refreshTtl
    requires c in states[0].dead && states[0].dead[c].ttl == cfg.refreshTtl
    requires forall j :: 0 <= j < k ==> !Touches(states[j], events[j], c)
    ensures Aged(cfg, states[0].dead[c], states[k].dead, c, Prunes(states, events, k))
  {
    if k == 0 {
      LeftStep(cfg, 0);
    } else {
      Countdown(cfg, ok, states, events, c, k - 1);
      UntouchedAt(cfg, ok, states, events, c, k - 1);
      AgedStep(cfg, states[0].dead[c], states[k - 1].dead, states[k].dead, c,
               Prunes(states, events, k - 1), IsPrune(states[k - 1], events[k - 1]));
    }
  }

  /** In every interleaving an untouched record survives every prune before the ceil(T/I)-th, and no longer. */
  lemma ExpiresAtCeiling(cfg: Config, ok: Outcomes, states: seq<State>, events: seq<Event>, c: string, k: nat)
    requires IsTrace(cfg, ok, states, events) && k <= |events|
    requires 0 < cfg.refreshInterval < cfg.refreshTtl
    requires c in states[0].dead && states[0].dead[c].ttl == cfg.refreshTtl
    requires forall j :: 0 <= j < k ==> !Touches(states[j], events[j], c)
    ensures c in states[k].dead <==> Prunes(states, events, k) < CeilDiv(cfg.refreshTtl, cfg.refreshInterval)
    ensures CeilDiv(cfg.refreshTtl, cfg.refreshInterval) > 1
  {
    Countdown(cfg, ok, states, events, c, k);
    BelowCeilDiv(Prunes(states, events, k), cfg.refreshTtl, cfg.refreshInterval);
    BelowCeilDiv(1, cfg.refreshTtl, cfg.refreshInterval);
  }

  /** With ticks one interval apart, the first within an interval of the death, the record goes
      more than T - I and less than T + I after the death. */
  lemma ExpiryWindow(cfg: Config, ok: Outcomes, states: seq<State>, events: seq<Event>, c: string, k: nat,
                     death: real, firstTick: real, times: seq<real>)
    requires IsTrace(cfg, ok, states, events) && k < |events| && |times| == |events|
    requires 0 < cfg.refreshInterval < cfg.refreshTtl
    requires c in states[0].dead && states[0].dead[c].ttl == cfg.refreshTtl
    requires forall j :: 0 <= j <= k ==> !Touches(states[j], events[j], c)
    requires death < firstTick <= death + cfg.refreshInterval as real
    requires forall j :: 0 <= j <= k && IsPrune(states[j], events[j]) ==>
               times[j] == firstTick + Elapsed(cfg, Prunes(states, events, j)) as real
    requires c in states[k].dead && c !in states[k + 1].dead
    ensures (cfg.refreshTtl - cfg.refreshInterval) as real < times[k] - death
    ensures times[k] - death < (cfg.refreshTtl + cfg.refreshInterval) as real
  {
    Countdown(cfg, ok, states, events, c, k);
    Countdown(cfg, ok, states, events, c, k + 1);
    UntouchedAt(cfg, ok, states, events, c, k);
    LeftStep(cfg, Prunes(states, events, k));
  }
}
