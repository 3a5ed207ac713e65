/** The status a load balancer is registered with in Eureka (aws/healthchecks.go, aws/elb.go).

    `testHealth` reads and writes the previous status in separate lock regions, so calls for one
    container can overlap.  Runs are interleavings of register and heartbeat calls.
  */
module ElbStatus {

  /** Unset is the zero value of the status map. */
  datatype Status = Unset | UP | DOWN | STARTING | OUTOFSERVICE | UNKNOWN

  /** What the cache and the target group say when they are asked for healthy targets. */
  datatype Targets = NotCached | WrongType | LookupFailed | Found(healthy: nat)

  datatype StatusChange = StatusChange(registration: Status, recorded: Status)

  function DetermineNewEurekaStatus(eureka: Status, last: Status, targets: Targets): StatusChange
  {
    if eureka == UP then StatusChange(UP, UP)
    else if last != UP then
      match targets
      case NotCached => StatusChange(STARTING, UNKNOWN)
      case WrongType => StatusChange(STARTING, UNKNOWN)
      case LookupFailed => StatusChange(STARTING, UNKNOWN)
      case Found(healthy) => if healthy == 0 then StatusChange(STARTING, STARTING) else StatusChange(UP, UP)
    else StatusChange(UP, UP)
  }

  /** What is left to do of a register or heartbeat call; each alternative stands before an atomic step. */
  datatype Task =
    | RegisterStart(c: string)
    | HeartbeatStart(c: string)
    | HeartbeatCheck(c: string)
    | HealthRead(c: string)
    | HealthWrite(c: string, eureka: Status, last: Status)
    | Send(c: string, status: Status)
    | Done

  datatype Sent = Heartbeat(c: string) | Reregister(c: string, status: Status)

  datatype State = State(previous: map<string, Status>, tasks: seq<Task>, sent: seq<Sent>)

  /** The environment's part of a step: whether load balancer data was found, what Eureka reports,
      what the target group reports. */
  datatype Answer = Answer(mutated: bool, eureka: Status, targets: Targets)

  datatype Event = Spawn(task: Task) | Run(i: nat, answer: Answer)

  function Previous(st: State, c: string): Status
  {
    if c in st.previous then st.previous[c] else Unset
  }

  predicate Enabled(st: State, e: Event)
  {
    match e
    case Spawn(t) => t.RegisterStart? || t.HeartbeatStart?
    case Run(i, _) => i < |st.tasks| && !st.tasks[i].Done?
  }

  function SetTask(st: State, i: nat, t: Task): State
    requires i < |st.tasks|
  {
    st.(tasks := st.tasks[i := t])
  }

  function Step(st: State, e: Event): State
    requires Enabled(st, e)
  {
    match e
    case Spawn(t) => st.(tasks := st.tasks + [t])
    case Run(i, a) =>
      match st.tasks[i]
      case RegisterStart(c) => SetTask(st, i, if a.mutated then HealthRead(c) else Done)
      case HeartbeatStart(c) =>
        if a.mutated then SetTask(st, i, HeartbeatCheck(c)).(sent := st.sent + [Heartbeat(c)]) else SetTask(st, i, Done)
      case HeartbeatCheck(c) => SetTask(st, i, if Previous(st, c) != UP then HealthRead(c) else Done)
      case HealthRead(c) => SetTask(st, i, HealthWrite(c, a.eureka, Previous(st, c)))
      case HealthWrite(c, eureka, last) =>
        var change := DetermineNewEurekaStatus(eureka, last, a.targets);
        SetTask(st, i, Send(c, change.registration)).(previous := st.previous[c := change.recorded])
      case Send(c, status) => SetTask(st, i, Done).(sent := st.sent + [Reregister(c, status)])
  }

  ghost predicate IsTrace(states: seq<State>, events: seq<Event>)
  {
    && |states| == |events| + 1
    && forall k :: 0 <= k < |events| ==> Enabled(states[k], events[k]) && states[k + 1] == Step(states[k], events[k])
  }

  /** The step starts a testHealth of `c` while another one of `c` is under way. */
  predicate Overlaps(st: State, e: Event, c: string)
  {
    && e.Run? && e.i < |st.tasks| && st.tasks[e.i] == HealthRead(c)
    && exists j :: 0 <= j < |st.tasks| && st.tasks[j].HealthWrite? && st.tasks[j].c == c
  }

  ghost predicate IsRun(states: seq<State>, events: seq<Event>)
  {
    IsTrace(states, events) && states[0] == State(map[], [], [])
  }

  /** Register and heartbeat calls can arrive at any time, and every unfinished call can go on, whatever it is told. */
  lemma CallsGoOn(st: State, c: string, i: nat, a: Answer)
    ensures Enabled(st, Spawn(RegisterStart(c))) && Enabled(st, Spawn(HeartbeatStart(c)))
    ensures i < |st.tasks| && !st.tasks[i].Done? ==> Enabled(st, Run(i, a))
  {
  }

  // ---------------------------------------------------------------- one step

  /** A write of `c` takes place. */
  predicate Writes(st: State, e: Event, c: string)
  {
    e.Run? && e.i < |st.tasks| && st.tasks[e.i].HealthWrite? && st.tasks[e.i].c == c
  }

  /** Eureka reports UP, or the target group has a healthy target. */
  predicate Justified(eureka: Status, targets: Targets)
  {
    eureka == UP || (targets.Found? && targets.healthy > 0)
  }

  /** What the decision comes to: UP is sent exactly when UP is recorded, which is when it was
      recorded before, as far as the caller knows, or when it is justified now. */
  lemma DecisionIff(eureka: Status, last: Status, targets: Targets)
    ensures var change := DetermineNewEurekaStatus(eureka, last, targets);
            && (change.registration == UP <==> change.recorded == UP)
            && (change.recorded == UP <==> last == UP || Justified(eureka, targets))
            && (change.registration != UP ==> change.registration == STARTING)
            && (change.recorded != UP ==> change.recorded == if targets == Found(0) then STARTING else UNKNOWN)
  {
  }

  /** A step takes a recorded UP away exactly when it writes with a stale previous status and no justification. */
  lemma UpIsLostIff(st: State, e: Event, c: string)
    requires Enabled(st, e) && Previous(st, c) == UP
    ensures Previous(Step(st, e), c) != UP <==>
            Writes(st, e, c) && st.tasks[e.i].last != UP && !Justified(st.tasks[e.i].eureka, e.answer.targets)
  {
    if Writes(st, e, c) {
      DecisionIff(st.tasks[e.i].eureka, st.tasks[e.i].last, e.answer.targets);
    }
  }

  ghost predicate Reachable(st: State)
  {
    exists states, events :: IsRun(states, events) && states[|events|] == st
  }

  lemma ReachInitial()
    ensures Reachable(State(map[], [], []))
  {
    assert IsRun([State(map[], [], [])], []);
  }

  lemma Reach(st: State, e: Event, st': State)
    requires Reachable(st) && Enabled(st, e) && st' == Step(st, e)
    ensures Reachable(st')
  {
    var states, events :| IsRun(states, events) && states[|events|] == st;
    var longer := states + [st'];
    assert IsRun(longer, events + [e]) && longer[|events| + 1] == st';
  }

  /** Two register calls of one container, both past their reading of the status. */
  lemma OverlapReachable()
    ensures Reachable(State(map[], [HealthWrite("c", UNKNOWN, Unset), HealthWrite("c", UNKNOWN, Unset)], []))
  {
    var a := Answer(true, UNKNOWN, Found(0));
    var start, read, write := RegisterStart("c"), HealthRead("c"), HealthWrite("c", UNKNOWN, Unset);
    ReachInitial();
    Reach(State(map[], [], []), Spawn(start), State(map[], [start], []));
    Reach(State(map[], [start], []), Run(0, a), State(map[], [read], []));
    Reach(State(map[], [read], []), Run(0, a), State(map[], [write], []));
    Reach(State(map[], [write], []), Spawn(start), State(map[], [write, start], []));
    Reach(State(map[], [write, start], []), Run(1, a), State(map[], [write, read], []));
    Reach(State(map[], [write, read], []), Run(1, a), State(map[], [write, write], []));
  }

  /** Overlapping calls do lose an UP: a slow unhealthy check overwrites a fast healthy one. */
  lemma OverlapLosesUp() returns (st: State, e: Event)
    ensures Reachable(st) && Enabled(st, e)
    ensures Previous(st, "c") == UP && Previous(Step(st, e), "c") == STARTING
  {
    OverlapReachable();
    var write := HealthWrite("c", UNKNOWN, Unset);
    st, e := State(map["c" := UP], [write, Send("c", UP)], []), Run(0, Answer(true, UNKNOWN, Found(0)));
    Reach(State(map[], [write, write], []), Run(1, Answer(true, UNKNOWN, Found(1))), st);
  }

  // ---------------------------------------------------------------- runs without overlap

  /** Pending writes of `c` know its current status, and there is one at most. */
  ghost predicate Inv(st: State, c: string)
  {
    && (forall i :: 0 <= i < |st.tasks| && st.tasks[i].HealthWrite? && st.tasks[i].c == c ==>
          st.tasks[i].last == Previous(st, c))
    && (forall i, j :: 0 <= i < j < |st.tasks| && st.tasks[i].HealthWrite? && st.tasks[j].HealthWrite? ==>
          !(st.tasks[i].c == c && st.tasks[j].c == c))
  }

  lemma StepKeepsInv(st: State, e: Event, c: string)
    requires Inv(st, c) && Enabled(st, e) && !Overlaps(st, e, c)
    ensures Inv(Step(st, e), c)
    ensures Previous(st, c) == UP ==> Previous(Step(st, e), c) == UP
  {
    if Previous(st, c) == UP {
      UpIsLostIff(st, e, c);
    }
    if e.Run? {
      var st' := Step(st, e);
      assert forall j :: 0 <= j < |st.tasks| && j != e.i ==> st'.tasks[j] == st.tasks[j];
    }
  }

  lemma {:induction false} RunInv(states: seq<State>, events: seq<Event>, k: nat, c: string)
    requires IsRun(states, events) && k < |states|
    requires forall i :: 0 <= i < k ==> !Overlaps(states[i], events[i], c)
    ensures Inv(states[k], c)
  {
    if k > 0 {
      RunInv(states, events, k - 1, c);
      StepKeepsInv(states[k - 1], events[k - 1], c);
    }
  }

  /** As long as no two testHealth calls of `c` overlap, a recorded UP of `c` stays. */
  lemma {:induction false} UpIsAbsorbing(states: seq<State>, events: seq<Event>, j: nat, k: nat, c: string)
    requires IsRun(states, events) && j <= k < |states|
    requires forall i :: 0 <= i < k ==> !Overlaps(states[i], events[i], c)
    requires Previous(states[j], c) == UP
    ensures Previous(states[k], c) == UP
    decreases k - j
  {
    if j < k {
      UpIsAbsorbing(states, events, j, k - 1, c);
      RunInv(states, events, k - 1, c);
      StepKeepsInv(states[k - 1], events[k - 1], c);
    }
  }

  /** As long as no two testHealth calls of `c` overlap, its status becomes UP only through a justified write. */
  lemma UpIsJustified(states: seq<State>, events: seq<Event>, k: nat, c: string)
    requires IsRun(states, events) && k < |events|
    requires forall i :: 0 <= i < k ==> !Overlaps(states[i], events[i], c)
    requires Previous(states[k], c) != UP && Previous(states[k + 1], c) == UP
    ensures Writes(states[k], events[k], c) && Justified(states[k].tasks[events[k].i].eureka, events[k].answer.targets)
    ensures states[k + 1].tasks[events[k].i] == Send(c, UP)
  {
    RunInv(states, events, k, c);
  }

  /** What a heartbeat call may be once UP is recorded: it never gets to a reregistration. */
  predicate OnlyHeartbeats(t: Task, c: string)
  {
    t == HeartbeatStart(c) || t == HeartbeatCheck(c) || t.Done?
  }

  /** What a register call may be once UP is recorded: it can only send UP. */
  predicate SendsUp(t: Task, c: string)
  {
    || t == RegisterStart(c) || t == HealthRead(c) || t == Send(c, UP) || t.Done?
    || (t.HealthWrite? && t.c == c && t.last == UP)
  }

  lemma AfterUpStep(st: State, e: Event, i: nat, c: string)
    requires Enabled(st, e) && i < |st.tasks| && Previous(st, c) == UP
    ensures i < |Step(st, e).tasks|
    ensures OnlyHeartbeats(st.tasks[i], c) ==> OnlyHeartbeats(Step(st, e).tasks[i], c)
    ensures SendsUp(st.tasks[i], c) ==> SendsUp(Step(st, e).tasks[i], c)
    ensures e.Run? && e.i == i && OnlyHeartbeats(st.tasks[i], c) ==>
              Step(st, e).sent == st.sent || Step(st, e).sent == st.sent + [Heartbeat(c)]
    ensures e.Run? && e.i == i && SendsUp(st.tasks[i], c) ==>
              Step(st, e).sent == st.sent || Step(st, e).sent == st.sent + [Reregister(c, UP)]
  {
    if e.Run? && e.i == i && st.tasks[i].HealthWrite? {
      DecisionIff(st.tasks[i].eureka, st.tasks[i].last, e.answer.targets);
    }
  }

  /** Once UP is recorded, a heartbeat call that has not yet checked the status only ever sends its
      heartbeat, and a register call that has not yet read it only ever sends UP. */
  lemma {:induction false} AfterUp(states: seq<State>, events: seq<Event>, j: nat, k: nat, i: nat, c: string)
    requires IsRun(states, events) && j <= k < |states|
    requires forall n :: 0 <= n < k ==> !Overlaps(states[n], events[n], c)
    requires Previous(states[j], c) == UP && i < |states[j].tasks|
    ensures i < |states[k].tasks|
    ensures OnlyHeartbeats(states[j].tasks[i], c) ==> OnlyHeartbeats(states[k].tasks[i], c)
    ensures SendsUp(states[j].tasks[i], c) ==> SendsUp(states[k].tasks[i], c)
    ensures k > j && events[k - 1].Run? && events[k - 1].i == i ==>
              && (OnlyHeartbeats(states[j].tasks[i], c) ==>
                    states[k].sent == states[k - 1].sent || states[k].sent == states[k - 1].sent + [Heartbeat(c)])
              && (SendsUp(states[j].tasks[i], c) ==>
                    states[k].sent == states[k - 1].sent || states[k].sent == states[k - 1].sent + [Reregister(c, UP)])
    decreases k - j
  {
    if j < k {
      AfterUp(states, events, j, k - 1, i, c);
      UpIsAbsorbing(states, events, j, k - 1, c);
      AfterUpStep(states[k - 1], events[k - 1], i, c);
    }
  }

  // ---------------------------------------------------------------- one call, and what it comes to

  function Rank(t: Task): nat
  {
    match t
    case HeartbeatStart(_) => 5
    case HeartbeatCheck(_) => 4
    case RegisterStart(_) => 4
    case HealthRead(_) => 3
    case HealthWrite(_, _, _) => 2
    case Send(_, _) => 1
    case Done => 0
  }

  /** Call `i` to its end with no other step in between; `a` is what it is told on the way. */
  function Alone(st: State, i: nat, a: Answer): State
    requires i < |st.tasks|
    decreases Rank(st.tasks[i])
  {
    if st.tasks[i].Done? then st else Alone(Step(st, Run(i, a)), i, a)
  }

  /** The end of a call that checks the health: exactly one reregistration, with UP exactly when UP was recorded
      or is justified, which is then recorded. */
  lemma CheckAlone(st: State, i: nat, a: Answer, c: string)
    requires i < |st.tasks| && st.tasks[i] == HealthRead(c)
    ensures var r, up := Alone(st, i, a), Previous(st, c) == UP || Justified(a.eureka, a.targets);
            && r.sent == st.sent + [Reregister(c, if up then UP else STARTING)]
            && (Previous(r, c) == UP <==> up)
            && forall d :: d != c ==> Previous(r, d) == Previous(st, d)
  {
    var st1 := Step(st, Run(i, a));
    var st2 := Step(st1, Run(i, a));
    var st3 := Step(st2, Run(i, a));
    DecisionIff(a.eureka, Previous(st, c), a.targets);
    assert Alone(st3, i, a) == st3 && Alone(st2, i, a) == st3 && Alone(st1, i, a) == st3;
  }

  /** A register call without interruption: with load balancer data it reregisters once, without it sends nothing. */
  lemma RegisterAlone(st: State, i: nat, a: Answer, c: string)
    requires i < |st.tasks| && st.tasks[i] == RegisterStart(c)
    ensures var r, up := Alone(st, i, a), Previous(st, c) == UP || Justified(a.eureka, a.targets);
            && (!a.mutated ==> r.sent == st.sent && r.previous == st.previous)
            && (a.mutated ==> r.sent == st.sent + [Reregister(c, if up then UP else STARTING)])
            && (a.mutated ==> (Previous(r, c) == UP <==> up))
            && forall d :: d != c ==> Previous(r, d) == Previous(st, d)
  {
    var st1 := Step(st, Run(i, a));
    if a.mutated {
      CheckAlone(st1, i, a, c);
    } else {
      assert Alone(st1, i, a) == st1;
    }
  }

  /** A heartbeat without interruption: with load balancer data it beats, and it reregisters after that if and only
      if UP was not recorded, with UP exactly when it is justified now; without data it sends nothing. */
  lemma HeartbeatAlone(st: State, i: nat, a: Answer, c: string)
    requires i < |st.tasks| && st.tasks[i] == HeartbeatStart(c)
    ensures var r, up := Alone(st, i, a), Justified(a.eureka, a.targets);
            && (!a.mutated ==> r.sent == st.sent && r.previous == st.previous)
            && (a.mutated && Previous(st, c) == UP ==>
                  r.sent == st.sent + [Heartbeat(c)] && r.previous == st.previous)
            && (a.mutated && Previous(st, c) != UP ==>
                  && r.sent == st.sent + [Heartbeat(c), Reregister(c, if up then UP else STARTING)]
                  && (Previous(r, c) == UP <==> up))
            && forall d :: d != c ==> Previous(r, d) == Previous(st, d)
  {
    var st1 := Step(st, Run(i, a));
    if a.mutated {
      var st2 := Step(st1, Run(i, a));
      assert Alone(st1, i, a) == Alone(st2, i, a);
      if Previous(st, c) != UP {
        CheckAlone(st2, i, a, c);
        assert forall status :: st.sent + [Heartbeat(c)] + [Reregister(c, status)]
                             == st.sent + [Heartbeat(c), Reregister(c, status)];
      } else {
        assert Alone(st2, i, a) == st2;
      }
    } else {
      assert Alone(st1, i, a) == st1;
    }
  }

  /** A reregistration of `c` was sent from position `n` on. */
  predicate Reregistered(sent: seq<Sent>, n: nat, c: string)
  {
    exists m :: n <= m < |sent| && sent[m].Reregister? && sent[m].c == c
  }

  /** Call `i` is checking the health of `c`, or has reregistered it. */
  predicate WillSend(st: State, i: nat, n: nat, c: string)
  {
    i < |st.tasks| &&
      match st.tasks[i]
      case HealthRead(d) => d == c
      case HealthWrite(d, _, _) => d == c
      case Send(d, _) => d == c
      case Done => Reregistered(st.sent, n, c)
      case _ => false
  }

  lemma WillSendStep(st: State, e: Event, i: nat, n: nat, c: string)
    requires Enabled(st, e) && WillSend(st, i, n, c) && n <= |st.sent|
    ensures n <= |Step(st, e).sent| && WillSend(Step(st, e), i, n, c)
  {
    var st' := Step(st, e);
    assert st.sent <= st'.sent;
    if st.tasks[i].Done? {
      var m :| n <= m < |st.sent| && st.sent[m].Reregister? && st.sent[m].c == c;
      assert st'.sent[m] == st.sent[m];
    } else if e.Run? && e.i == i && st.tasks[i].Send? {
      assert st'.sent[|st.sent|].Reregister?;
    }
  }

  lemma {:induction false} WillSendAlong(states: seq<State>, events: seq<Event>, j: nat, k: nat, i: nat, c: string)
    requires IsTrace(states, events) && j <= k < |states| && WillSend(states[j], i, |states[j].sent|, c)
    ensures |states[j].sent| <= |states[k].sent| && WillSend(states[k], i, |states[j].sent|, c)
    decreases k - j
  {
    if j < k {
      WillSendAlong(states, events, j, k - 1, i, c);
      WillSendStep(states[k - 1], events[k - 1], i, |states[j].sent|, c);
    }
  }

  /** In every run, a heartbeat whose check finds UP not recorded ends only after it has reregistered. */
  lemma HeartbeatRechecks(states: seq<State>, events: seq<Event>, j: nat, k: nat, i: nat, c: string)
    requires IsTrace(states, events) && j < k < |states|
    requires events[j].Run? && events[j].i == i && states[j].tasks[i] == HeartbeatCheck(c)
    requires Previous(states[j], c) != UP
    ensures i < |states[k].tasks|
    ensures states[k].tasks[i].Done? ==> Reregistered(states[k].sent, |states[j].sent|, c)
  {
    WillSendAlong(states, events, j + 1, k, i, c);
    assert states[j + 1].sent == states[j].sent;
  }

  // ---------------------------------------------------------------- the method

  /** The global map of previous statuses, and one call of `testHealth` that nothing overlaps. */
  class StatusBoard {
    var mapper: map<string, Status>

    constructor ()
      ensures mapper == map[]
    {
      mapper := map[];
    }

    function Get(c: string): Status
      reads this
    {
      if c in mapper then mapper[c] else Unset
    }

    method TestHealth(c: string, eureka: Status, targets: Targets) returns (registration: Status)
      modifies this
      ensures forall d :: d != c ==> Get(d) == old(Get(d))
      ensures registration == UP <==> Get(c) == UP
      ensures Get(c) == UP <==> old(Get(c)) == UP || Justified(eureka, targets)
      ensures registration != UP ==> registration == STARTING
    {
      var last := Get(c);
      var change := DetermineNewEurekaStatus(eureka, last, targets);
      mapper := mapper[c := change.recorded];
      registration := change.registration;
    }
  }
}
