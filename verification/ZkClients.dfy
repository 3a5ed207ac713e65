/** The Zookeeper adapter under concurrency: goroutines and hosts share one tree, and each operation is a
    series of separate client calls with no lock around them (zookeeper/zookeeper.go).
  */
module ZkClients {
  import opened Zookeeper

  /** What is left to do of an operation; each alternative stands before a client call. */
  datatype Task =
    | AskBase(e: Endpoint)
    | MakeBase(e: Endpoint)
    | MakeLeaf(e: Endpoint)
    | DropLeaf(e: Endpoint)
    | AskChildren(e: Endpoint)
    | DropBase(e: Endpoint)
    | Done

  /** A client call on an endpoint's node, and whether the name's node was there at the time. */
  datatype LeafCall = LeafCall(op: Op, based: bool)

  datatype State = State(tree: Tree, tasks: seq<Task>, calls: seq<LeafCall>)

  datatype Event = Spawn(op: Op) | Run(i: nat)

  predicate Enabled(st: State, ev: Event)
  {
    match ev
    case Spawn(op) => Legal(op.e)
    case Run(i) => i < |st.tasks| && !st.tasks[i].Done?
  }

  function Base(root: string, t: Task): string
    requires !t.Done?
  {
    BasePath(root, t.e.name)
  }

  /** What a task goes on to. */
  function Next(root: string, tree: Tree, t: Task): Task
    requires !t.Done?
  {
    match t
    case AskBase(e) => if Base(root, t) in tree then MakeLeaf(e) else MakeBase(e)
    case MakeBase(e) => MakeLeaf(e)
    case DropLeaf(e) => AskChildren(e)
    case AskChildren(e) =>
      if Base(root, t) !in tree || Children(tree, Base(root, t)) == {} then DropBase(e) else Done
    case _ => Done
  }

  function Effect(root: string, tree: Tree, t: Task): Tree
    requires !t.Done?
  {
    match t
    case MakeBase(_) => Create(tree, Base(root, t))
    case MakeLeaf(e) => Create(tree, LeafPath(root, e))
    case DropLeaf(e) => Delete(tree, LeafPath(root, e))
    case DropBase(_) => Delete(tree, Base(root, t))
    case _ => tree
  }

  function Calls(root: string, tree: Tree, t: Task): seq<LeafCall>
    requires !t.Done?
  {
    match t
    case MakeLeaf(e) => [LeafCall(Register(e), Base(root, t) in tree)]
    case DropLeaf(e) => [LeafCall(Deregister(e), Base(root, t) in tree)]
    case _ => []
  }

  function Step(root: string, st: State, ev: Event): State
    requires Enabled(st, ev)
  {
    match ev
    case Spawn(Register(e)) => st.(tasks := st.tasks + [AskBase(e)])
    case Spawn(Deregister(e)) => st.(tasks := st.tasks + [DropLeaf(e)])
    case Run(i) =>
      var t := st.tasks[i];
      State(Effect(root, st.tree, t), st.tasks[i := Next(root, st.tree, t)], st.calls + Calls(root, st.tree, t))
  }

  ghost predicate IsTrace(root: string, states: seq<State>, events: seq<Event>)
  {
    && |states| == |events| + 1
    && forall k :: 0 <= k < |events| ==>
         Enabled(states[k], events[k]) && states[k + 1] == Step(root, states[k], events[k])
  }

  /** Starts with no operation under way and a tree that stands for `s`. */
  ghost predicate IsRun(root: string, s: set<Endpoint>, states: seq<State>, events: seq<Event>)
  {
    && IsTrace(root, states, events) && LegalRoot(root)
    && states[0].tasks == [] && states[0].calls == [] && Refines(root, states[0].tree, s)
  }

  // ---------------------------------------------------------------- what every run keeps

  /** The operation may have left the name's node without children, or not yet given it one. */
  predicate Holds(t: Task, n: string)
  {
    (t.MakeLeaf? || t.AskChildren? || t.DropBase?) && t.e.name == n
  }

  function Busy(tasks: seq<Task>): (busy: set<string>)
    ensures forall i :: 0 <= i < |tasks| ==> forall n :: Holds(tasks[i], n) ==> n in busy
    ensures forall n :: n in busy ==> exists i :: 0 <= i < |tasks| && Holds(tasks[i], n)
  {
    set i | 0 <= i < |tasks| && !tasks[i].Done? && Holds(tasks[i], tasks[i].e.name) :: tasks[i].e.name
  }

  /** The last call on the node of `e` was a creation under an existing name node. */
  function LastMade(calls: seq<LeafCall>, e: Endpoint, initially: bool): bool
  {
    if calls == [] then initially
    else
      var last := calls[|calls| - 1];
      if last.op.e == e then last.op.Register? && last.based else LastMade(calls[..|calls| - 1], e, initially)
  }

  function Present(calls: seq<LeafCall>, s: set<Endpoint>): (r: set<Endpoint>)
    ensures forall e :: e in r <==> LastMade(calls, e, e in s)
  {
    if calls == [] then s
    else
      var before, last := Present(calls[..|calls| - 1], s), calls[|calls| - 1];
      if last.op.Register? && last.based then before + {last.op.e} else before - {last.op.e}
  }

  ghost predicate Inv(root: string, s: set<Endpoint>, st: State)
  {
    && (forall i :: 0 <= i < |st.tasks| && !st.tasks[i].Done? ==> Legal(st.tasks[i].e))
    && Loose(root, st.tree, Present(st.calls, s), Busy(st.tasks))
  }

  lemma LooseMore(root: string, tree: Tree, s: set<Endpoint>, busy: set<string>, busy': set<string>)
    requires Loose(root, tree, s, busy) && busy <= busy'
    ensures Loose(root, tree, s, busy')
  {
    forall n | Component(n)
      ensures NameOk(root, tree, s, busy', n)
    {
      assert NameOk(root, tree, s, busy, n);
    }
  }

  /** Replacing task `i` changes the busy names by its own name at most. */
  lemma BusyAfter(tasks: seq<Task>, i: nat, t: Task)
    requires i < |tasks| && !tasks[i].Done? && (t.Done? || t.e == tasks[i].e)
    ensures var n := tasks[i].e.name;
            && Busy(tasks) - {n} <= Busy(tasks[i := t])
            && (!Holds(tasks[i], n) ==> Busy(tasks) <= Busy(tasks[i := t]))
            && (Holds(t, n) ==> Busy(tasks) + {n} <= Busy(tasks[i := t]))
  {
    var n, after := tasks[i].e.name, tasks[i := t];
    forall m | m in Busy(tasks) && (m != n || !Holds(tasks[i], n) || Holds(t, n))
      ensures m in Busy(after)
    {
      var j :| 0 <= j < |tasks| && Holds(tasks[j], m);
      assert after[j] == if j == i then t else tasks[j];
      assert j == i ==> m == n;
      assert Holds(after[j], m);
    }
    if Holds(t, n) {
      assert after[i] == t;
    }
  }

  /** The endpoints with a node, after the call. */
  function PresentNext(root: string, tree: Tree, now: set<Endpoint>, t: Task): set<Endpoint>
    requires !t.Done?
  {
    match t
    case MakeLeaf(e) => if Base(root, t) in tree then now + {e} else now - {e}
    case DropLeaf(e) => now - {e}
    case _ => now
  }

  lemma PresentAfter(root: string, tree: Tree, calls: seq<LeafCall>, s: set<Endpoint>, t: Task)
    requires !t.Done?
    ensures Present(calls + Calls(root, tree, t), s) == PresentNext(root, tree, Present(calls, s), t)
  {
    if t.MakeLeaf? || t.DropLeaf? {
      var call := Calls(root, tree, t)[0];
      assert (calls + [call])[..|calls|] == calls;
    } else {
      assert calls + [] == calls;
    }
  }

  lemma AnswerLoose(root: string, tree: Tree, s: set<Endpoint>, busy: set<string>, e: Endpoint)
    requires LegalRoot(root) && Legal(e) && Loose(root, tree, s, busy)
    requires Next(root, tree, AskChildren(e)).Done?
    ensures Loose(root, tree, s, busy - {e.name})
  {
    ChildrenIff(root, tree, s, busy, e.name);
    assert NameOk(root, tree, s, busy, e.name);
    BaseOnly(root, tree, tree, s, busy, busy - {e.name}, e);
  }

  /** A call and the names that are busy afterwards. */
  lemma CallLoose(root: string, tree: Tree, now: set<Endpoint>, busy: set<string>, busy': set<string>, t: Task)
    requires LegalRoot(root) && !t.Done? && Legal(t.e) && Loose(root, tree, now, busy)
    requires busy - {t.e.name} <= busy'
    requires t.AskBase? ==> busy <= busy'
    requires Holds(Next(root, tree, t), t.e.name) ==> busy + {t.e.name} <= busy'
    ensures Loose(root, Effect(root, tree, t), PresentNext(root, tree, now, t), busy')
  {
    var n, tree', now' := t.e.name, Effect(root, tree, t), PresentNext(root, tree, now, t);
    match t
    case AskBase(_) => LooseMore(root, tree, now, busy, busy');
    case MakeBase(e) =>
      CreateBase(root, tree, now, busy, e);
      LooseMore(root, tree', now, busy + {n}, busy');
    case MakeLeaf(e) =>
      CreateLeaf(root, tree, now, busy, e);
      LooseMore(root, tree', now', busy - {n}, busy');
    case DropLeaf(e) =>
      DeleteLeaf(root, tree, now, busy, e);
      LooseMore(root, tree', now', busy + {n}, busy');
    case DropBase(e) =>
      DeleteBase(root, tree, now, busy, e);
      LooseMore(root, tree', now, busy - {n}, busy');
    case AskChildren(e) =>
      if Next(root, tree, t).Done? {
        AnswerLoose(root, tree, now, busy, e);
        LooseMore(root, tree, now, busy - {n}, busy');
      } else {
        LooseMore(root, tree, now, busy, busy');
      }
  }

  lemma CallKeepsInv(root: string, s: set<Endpoint>, st: State, i: nat)
    requires LegalRoot(root) && Inv(root, s, st) && Enabled(st, Run(i))
    ensures Inv(root, s, Step(root, st, Run(i)))
  {
    var t, st' := st.tasks[i], Step(root, st, Run(i));
    BusyAfter(st.tasks, i, Next(root, st.tree, t));
    PresentAfter(root, st.tree, st.calls, s, t);
    CallLoose(root, st.tree, Present(st.calls, s), Busy(st.tasks), Busy(st'.tasks), t);
  }

  lemma SpawnKeepsInv(root: string, s: set<Endpoint>, st: State, op: Op)
    requires LegalRoot(root) && Inv(root, s, st) && Legal(op.e)
    ensures Inv(root, s, Step(root, st, Spawn(op)))
  {
    var st' := Step(root, st, Spawn(op));
    forall n | n in Busy(st.tasks)
      ensures n in Busy(st'.tasks)
    {
      var i :| 0 <= i < |st.tasks| && Holds(st.tasks[i], n);
      assert st'.tasks[i] == st.tasks[i];
    }
    LooseMore(root, st.tree, Present(st.calls, s), Busy(st.tasks), Busy(st'.tasks));
  }

  lemma {:induction false} RunInv(root: string, s: set<Endpoint>, states: seq<State>, events: seq<Event>, k: nat)
    requires IsRun(root, s, states, events) && k < |states|
    ensures Inv(root, s, states[k])
  {
    if k == 0 {
      assert Busy([]) == {};
    } else {
      RunInv(root, s, states, events, k - 1);
      match events[k - 1]
      case Spawn(op) => SpawnKeepsInv(root, s, states[k - 1], op);
      case Run(i) => CallKeepsInv(root, s, states[k - 1], i);
    }
  }

  /** Under every interleaving of client calls: an endpoint has a node exactly when the last call on that node
      created it under an existing name node, a name with an endpoint has a node, and a name node without
      a child is held by an operation under way. */
  lemma NodesInEveryRun(root: string, s: set<Endpoint>, states: seq<State>, events: seq<Event>, k: nat, e: Endpoint)
    requires IsRun(root, s, states, events) && k < |states| && Legal(e)
    ensures var st, base := states[k], BasePath(root, e.name);
            && (LeafPath(root, e) in st.tree <==> LastMade(st.calls, e, e in s))
            && (Children(st.tree, base) != {} ==> base in st.tree)
            && (base in st.tree && Children(st.tree, base) == {} ==>
                  exists i :: 0 <= i < |st.tasks| && Holds(st.tasks[i], e.name))
  {
    RunInv(root, s, states, events, k);
    var st := states[k];
    ChildrenIff(root, st.tree, Present(st.calls, s), Busy(st.tasks), e.name);
    assert NameOk(root, st.tree, Present(st.calls, s), Busy(st.tasks), e.name);
  }

  /** In every run, a creation of an endpoint's node leaves that node exactly when the name's node was there. */
  lemma MadeIffBased(root: string, s: set<Endpoint>, states: seq<State>, events: seq<Event>, k: nat)
    requires IsRun(root, s, states, events) && k < |events|
    requires events[k].Run? && states[k].tasks[events[k].i].MakeLeaf?
    ensures var t := states[k].tasks[events[k].i];
            LeafPath(root, t.e) in states[k + 1].tree <==> Base(root, t) in states[k].tree
  {
    RunInv(root, s, states, events, k);
    var st, t := states[k], states[k].tasks[events[k].i];
    CreateLeaf(root, st.tree, Present(st.calls, s), Busy(st.tasks), t.e);
  }

  // ---------------------------------------------------------------- runs in which no name node goes too early

  /** The step deletes a name's node while a Register of that name is about to create its endpoint's node. */
  predicate Disturbs(root: string, st: State, ev: Event)
  {
    && ev.Run? && ev.i < |st.tasks| && st.tasks[ev.i].DropBase?
    && Children(st.tree, Base(root, st.tasks[ev.i])) == {}
    && exists j :: 0 <= j < |st.tasks| && st.tasks[j].MakeLeaf? && st.tasks[j].e.name == st.tasks[ev.i].e.name
  }

  /** Every Register about to create its endpoint's node has the name's node. */
  ghost predicate AllBased(root: string, st: State)
  {
    forall i :: 0 <= i < |st.tasks| && st.tasks[i].MakeLeaf? ==> Base(root, st.tasks[i]) in st.tree
  }

  /** What deleting one node does to another. */
  lemma BaseStays(root: string, s: set<Endpoint>, st: State, i: nat, n: string)
    requires LegalRoot(root) && Inv(root, s, st) && Enabled(st, Run(i)) && Component(n) && BasePath(root, n) in st.tree
    ensures BasePath(root, n) in Step(root, st, Run(i)).tree <==>
            !(st.tasks[i].DropBase? && st.tasks[i].e.name == n && Children(st.tree, BasePath(root, n)) == {})
  {
    var t := st.tasks[i];
    LeafIsNotBase(root, t.e, n);
    if BasePath(root, n) == Base(root, t) {
      BaseInjective(root, n, t.e.name);
    }
  }

  /** A step takes the name's node from under some Register exactly when it disturbs one. */
  lemma AllBasedIff(root: string, s: set<Endpoint>, st: State, ev: Event)
    requires LegalRoot(root) && Inv(root, s, st) && Enabled(st, ev) && AllBased(root, st)
    ensures AllBased(root, Step(root, st, ev)) <==> !Disturbs(root, st, ev)
  {
    var st' := Step(root, st, ev);
    if ev.Run? {
      var t := st.tasks[ev.i];
      if t.MakeBase? {
        CreateBase(root, st.tree, Present(st.calls, s), Busy(st.tasks), t.e);
      }
      forall j | 0 <= j < |st.tasks| && j != ev.i && st.tasks[j].MakeLeaf?
        ensures st'.tasks[j] == st.tasks[j]
        ensures Base(root, st.tasks[j]) in st'.tree <==> !(Disturbs(root, st, ev) && t.e.name == st.tasks[j].e.name)
      {
        BaseStays(root, s, st, ev.i, st.tasks[j].e.name);
      }
      if Disturbs(root, st, ev) {
        var j :| 0 <= j < |st.tasks| && st.tasks[j].MakeLeaf? && st.tasks[j].e.name == t.e.name;
        assert st'.tasks[j].MakeLeaf?;
      }
    }
  }

  function Ops(calls: seq<LeafCall>): (ops: seq<Op>)
    ensures |ops| == |calls|
  {
    seq(|calls|, i requires 0 <= i < |calls| => calls[i].op)
  }

  ghost predicate MadeAreBased(calls: seq<LeafCall>)
  {
    forall i :: 0 <= i < |calls| && calls[i].op.Register? ==> calls[i].based
  }

  lemma {:induction false} LastMadeIsLast(calls: seq<LeafCall>, e: Endpoint, initially: bool)
    requires MadeAreBased(calls)
    ensures LastMade(calls, e, initially) <==> LastIsRegister(Ops(calls), e, initially)
  {
    if calls != [] {
      var front := calls[..|calls| - 1];
      LastMadeIsLast(front, e, initially);
      assert Ops(calls)[..|calls| - 1] == Ops(front);
    }
  }

  lemma MadeAreBasedStep(root: string, st: State, ev: Event)
    requires Enabled(st, ev) && AllBased(root, st) && MadeAreBased(st.calls)
    ensures MadeAreBased(Step(root, st, ev).calls)
  {
    if ev.Run? {
      var t := st.tasks[ev.i];
      assert forall c :: c in Calls(root, st.tree, t) && c.op.Register? ==> c.based;
    }
  }

  lemma {:induction false} UndisturbedInv(root: string, s: set<Endpoint>, states: seq<State>, events: seq<Event>,
                                          k: nat)
    requires IsRun(root, s, states, events) && k < |states|
    requires forall i :: 0 <= i < k ==> !Disturbs(root, states[i], events[i])
    ensures AllBased(root, states[k]) && MadeAreBased(states[k].calls)
  {
    if k > 0 {
      UndisturbedInv(root, s, states, events, k - 1);
      RunInv(root, s, states, events, k - 1);
      AllBasedIff(root, s, states[k - 1], events[k - 1]);
      MadeAreBasedStep(root, states[k - 1], events[k - 1]);
    }
  }

  /** As long as no step disturbs a Register, the endpoints with a node are exactly those whose last operation,
      taken at its call on the endpoint's node, was Register; and with no operation under way the tree
      stands for that set. */
  lemma UndisturbedRefinesSet(root: string, s: set<Endpoint>, states: seq<State>, events: seq<Event>, k: nat)
    requires IsRun(root, s, states, events) && k < |states|
    requires forall i :: 0 <= i < k ==> !Disturbs(root, states[i], events[i])
    ensures var st := states[k];
            var now := Endpoints(Ops(st.calls), s);
            && Loose(root, st.tree, now, Busy(st.tasks))
            && ((forall i :: 0 <= i < |st.tasks| ==> st.tasks[i].Done?) ==> Refines(root, st.tree, now))
  {
    UndisturbedInv(root, s, states, events, k);
    RunInv(root, s, states, events, k);
    var st := states[k];
    forall e
      ensures e in Present(st.calls, s) <==> e in Endpoints(Ops(st.calls), s)
    {
      LastMadeIsLast(st.calls, e, e in s);
    }
    assert Present(st.calls, s) == Endpoints(Ops(st.calls), s);
    if forall i :: 0 <= i < |st.tasks| ==> st.tasks[i].Done? {
      assert Busy(st.tasks) == {};
    }
  }

  // ---------------------------------------------------------------- an endpoint that is lost

  ghost predicate Reachable(root: string, s: set<Endpoint>, st: State)
  {
    exists states, events :: IsRun(root, s, states, events) && states[|events|] == st
  }

  lemma ReachInitial(root: string, s: set<Endpoint>, tree: Tree)
    requires LegalRoot(root) && Refines(root, tree, s)
    ensures Reachable(root, s, State(tree, [], []))
  {
    assert IsRun(root, s, [State(tree, [], [])], []);
  }

  lemma TraceSnoc(root: string, states: seq<State>, events: seq<Event>, ev: Event)
    requires IsTrace(root, states, events) && Enabled(states[|events|], ev)
    ensures IsTrace(root, states + [Step(root, states[|events|], ev)], events + [ev])
  {
    var longer, all := states + [Step(root, states[|events|], ev)], events + [ev];
    forall k | 0 <= k < |all|
      ensures Enabled(longer[k], all[k]) && longer[k + 1] == Step(root, longer[k], all[k])
    {
      if k < |events| {
        assert longer[k] == states[k] && longer[k + 1] == states[k + 1] && all[k] == events[k];
      }
    }
  }

  lemma Reach(root: string, s: set<Endpoint>, st: State, ev: Event, st': State)
    requires Reachable(root, s, st) && Enabled(st, ev) && st' == Step(root, st, ev)
    ensures Reachable(root, s, st')
  {
    var states, events :| IsRun(root, s, states, events) && states[|events|] == st;
    TraceSnoc(root, states, events, ev);
    assert IsRun(root, s, states + [st'], events + [ev]) && (states + [st'])[|events| + 1] == st';
  }

  /** The three calls of a Deregister of the only endpoint of a name, and a creation that comes after them. */
  lemma LastOneGoes(root: string, tree: Tree, e: Endpoint, f: Endpoint)
    requires LegalRoot(root) && Legal(e) && Legal(f) && f.name == e.name && Refines(root, tree, {e})
    ensures var base, tree1 := BasePath(root, e.name), Delete(tree, LeafPath(root, e));
            var tree2 := Delete(tree1, base);
            && base in tree && base in tree1 && Children(tree1, base) == {} && base !in tree2
            && Create(tree2, LeafPath(root, f)) == tree2
  {
    var tree1 := Delete(tree, LeafPath(root, e));
    assert NameOk(root, tree, {e}, {}, e.name);
    assert e in {e};
    DeleteLeaf(root, tree, {e}, {}, e);
    ChildrenIff(root, tree1, {e} - {e}, {} + {e.name}, e.name);
    LeafIsNotBase(root, e, e.name);
    LeafParent(root, f);
  }

  /** A Register of `f` that has seen the name's node. */
  lemma RegisterSeesBase(root: string, s: set<Endpoint>, tree: Tree, f: Endpoint)
    requires Legal(f) && Reachable(root, s, State(tree, [], [])) && BasePath(root, f.name) in tree
    ensures Reachable(root, s, State(tree, [MakeLeaf(f)], []))
  {
    Reach(root, s, State(tree, [], []), Spawn(Register(f)), State(tree, [AskBase(f)], []));
    Reach(root, s, State(tree, [AskBase(f)], []), Run(0), State(tree, [MakeLeaf(f)], []));
  }

  /** Then a Deregister of `e` that leaves its name without children. */
  lemma DeregisterFollows(root: string, s: set<Endpoint>, tree: Tree, e: Endpoint, f: Endpoint)
    requires Legal(e) && Reachable(root, s, State(tree, [MakeLeaf(f)], []))
    requires BasePath(root, e.name) in tree
    requires Children(Delete(tree, LeafPath(root, e)), BasePath(root, e.name)) == {}
    ensures Reachable(root, s, State(Delete(Delete(tree, LeafPath(root, e)), BasePath(root, e.name)),
                                     [MakeLeaf(f), Done], [LeafCall(Deregister(e), true)]))
  {
    var tree1 := Delete(tree, LeafPath(root, e));
    var m, calls := MakeLeaf(f), [LeafCall(Deregister(e), true)];
    Reach(root, s, State(tree, [m], []), Spawn(Deregister(e)), State(tree, [m, DropLeaf(e)], []));
    Reach(root, s, State(tree, [m, DropLeaf(e)], []), Run(1), State(tree1, [m, AskChildren(e)], calls));
    BaseFollows(root, s, tree1, m, e, calls);
  }

  lemma BaseFollows(root: string, s: set<Endpoint>, tree: Tree, t: Task, e: Endpoint, calls: seq<LeafCall>)
    requires Reachable(root, s, State(tree, [t, AskChildren(e)], calls)) && Children(tree, BasePath(root, e.name)) == {}
    ensures Reachable(root, s, State(Delete(tree, BasePath(root, e.name)), [t, Done], calls))
  {
    var tree' := Delete(tree, BasePath(root, e.name));
    assert calls + [] == calls;
    Reach(root, s, State(tree, [t, AskChildren(e)], calls), Run(1), State(tree, [t, DropBase(e)], calls));
    Reach(root, s, State(tree, [t, DropBase(e)], calls), Run(1), State(tree', [t, Done], calls));
  }

  /** Then the creation of `f`'s node, without the name's node. */
  lemma CreationFails(root: string, s: set<Endpoint>, tree: Tree, f: Endpoint, call: LeafCall)
    requires Reachable(root, s, State(tree, [MakeLeaf(f), Done], [call]))
    requires BasePath(root, f.name) !in tree && Create(tree, LeafPath(root, f)) == tree
    ensures Reachable(root, s, State(tree, [Done, Done], [call, LeafCall(Register(f), false)]))
  {
    Reach(root, s, State(tree, [MakeLeaf(f), Done], [call]), Run(0),
          State(tree, [Done, Done], [call, LeafCall(Register(f), false)]));
  }

  /** Overlapping calls do lose an endpoint: `f`'s Register sees the name's node, the Deregister of the last
      other endpoint of that name deletes it, and the creation of `f`'s node then fails.  In the end nothing is
      under way, the last operation on `f` was Register, and `f` has no node. */
  lemma EndpointLost(root: string, tree: Tree, e: Endpoint, f: Endpoint) returns (st: State)
    requires LegalRoot(root) && Legal(e) && Legal(f) && e != f && f.name == e.name && Refines(root, tree, {e})
    ensures Reachable(root, {e}, st) && st.tasks == [Done, Done]
    ensures LastIsRegister(Ops(st.calls), f, false) && LeafPath(root, f) !in st.tree
  {
    LastOneGoes(root, tree, e, f);
    ReachInitial(root, {e}, tree);
    RegisterSeesBase(root, {e}, tree, f);
    DeregisterFollows(root, {e}, tree, e, f);
    var tree2 := Delete(Delete(tree, LeafPath(root, e)), BasePath(root, e.name));
    CreationFails(root, {e}, tree2, f, LeafCall(Deregister(e), true));
    st := State(tree2, [Done, Done], [LeafCall(Deregister(e), true), LeafCall(Register(f), false)]);
    LeafGone(root, tree, e, f);
  }

  lemma LeafGone(root: string, tree: Tree, e: Endpoint, f: Endpoint)
    requires LegalRoot(root) && Legal(f) && f != e && Refines(root, tree, {e})
    ensures LeafPath(root, f) !in tree
  {
    assert f !in {e};
  }

  // ---------------------------------------------------------------- an operation that nothing overlaps

  function Rank(t: Task): nat
  {
    match t
    case AskBase(_) => 3
    case MakeBase(_) => 2
    case MakeLeaf(_) => 1
    case DropLeaf(_) => 3
    case AskChildren(_) => 2
    case DropBase(_) => 1
    case Done => 0
  }

  /** Task `i` to its end, with no other step in between. */
  function Alone(root: string, st: State, i: nat): State
    requires i < |st.tasks|
    decreases Rank(st.tasks[i])
  {
    if st.tasks[i].Done? then st else Alone(root, Step(root, st, Run(i)), i)
  }

  /** Uninterrupted, the client calls amount to the whole operation. */
  lemma AloneIsWhole(root: string, st: State, i: nat)
    requires i < |st.tasks| && (st.tasks[i].AskBase? || st.tasks[i].DropLeaf?)
    ensures Alone(root, st, i).tree ==
            (if st.tasks[i].AskBase? then Registered(root, st.tree, st.tasks[i].e)
             else Deregistered(root, st.tree, st.tasks[i].e))
  {
    var st1 := Step(root, st, Run(i));
    var st2 := Step(root, st1, Run(i));
    if !st2.tasks[i].Done? {
      var st3 := Step(root, st2, Run(i));
      assert st3.tasks[i].Done?;
      assert Alone(root, st3, i) == st3;
    }
    assert Alone(root, st2, i) == if st2.tasks[i].Done? then st2 else Step(root, st2, Run(i));
  }
}
