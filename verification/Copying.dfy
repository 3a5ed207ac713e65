/** What a refresh copies and calls (bridge/bridge.go). */
module Copying {
  import opened Options
  import opened Filters
  import opened BridgeState
  import opened Lifecycle

  // ---------------------------------------------------------------- the copies

  /** The values of a list of references. */
  function Values(st: State, refs: seq<Ref>): (values: seq<Service>)
    requires ValidRefs(refs, |st.heap|)
    ensures |values| == |refs|
  {
    seq(|refs|, i requires 0 <= i < |refs| => st.heap[refs[i]])
  }

  lemma CopiesSnoc(st: State, order: seq<string>)
    requires Valid(st) && order != []
    ensures Copies(st, order) == Copies(st, order[..|order| - 1]) + Values(st, Tracked(st, order[|order| - 1]))
  {
    assert Copies(st, order)[|Copies(st, order[..|order| - 1])|..] == Values(st, Tracked(st, order[|order| - 1]));
  }

  /** Where a tracked service stands: its container and its position in that container's list. */
  type Place = (string, nat)

  /** The places among the containers of `order` at which a service with value `s` is tracked. */
  function PlacesOf(st: State, order: seq<string>, s: Service): set<Place>
    requires Valid(st)
  {
    set c, i: nat | c in st.services && c in order && i < |st.services[c]| && st.heap[st.services[c][i]] == s :: (c, i)
  }

  function Pairs(c: string, places: set<nat>): set<Place>
  {
    set i | i in places :: (c, i)
  }

  lemma {:induction false} PairsCount(c: string, places: set<nat>)
    ensures |Pairs(c, places)| == |places|
  {
    if places == {} {
      assert Pairs(c, places) == {};
    } else {
      var j :| j in places;
      PairsCount(c, places - {j});
      assert Pairs(c, places) == Pairs(c, places - {j}) + {(c, j)};
    }
  }

  /** The places within the list of one container. */
  function PlacesIn(st: State, c: string, s: Service): set<Place>
    requires Valid(st)
  {
    Pairs(c, Places(Values(st, Tracked(st, c)), s))
  }

  lemma PlacesInCount(st: State, c: string, s: Service)
    requires Valid(st)
    ensures |PlacesIn(st, c, s)| == multiset(Values(st, Tracked(st, c)))[s]
  {
    PlacesCount(Values(st, Tracked(st, c)), s);
    PairsCount(c, Places(Values(st, Tracked(st, c)), s));
  }

  lemma PlacesSnoc(st: State, front: seq<string>, c: string, s: Service)
    requires Valid(st) && c !in front
    ensures PlacesOf(st, front + [c], s) == PlacesOf(st, front, s) + PlacesIn(st, c, s)
    ensures PlacesOf(st, front, s) !! PlacesIn(st, c, s)
  {
    forall d, i: nat
      ensures (d, i) in PlacesOf(st, front + [c], s) <==> (d, i) in PlacesOf(st, front, s) + PlacesIn(st, c, s)
    {
    }
  }

  lemma CountConcat(a: seq<Service>, b: seq<Service>, s: Service)
    ensures multiset(a + b)[s] == multiset(a)[s] + multiset(b)[s]
  {
  }

  lemma CopiesCountStep(st: State, front: seq<string>, c: string, s: Service)
    requires Valid(st) && c !in front && multiset(Copies(st, front))[s] == |PlacesOf(st, front, s)|
    ensures multiset(Copies(st, front) + Values(st, Tracked(st, c)))[s] == |PlacesOf(st, front + [c], s)|
  {
    CountConcat(Copies(st, front), Values(st, Tracked(st, c)), s);
    PlacesInCount(st, c, s);
    PlacesSnoc(st, front, c, s);
  }

  predicate Distinct(order: seq<string>)
  {
    forall i, j :: 0 <= i < j < |order| ==> order[i] != order[j]
  }

  lemma DistinctFront(order: seq<string>)
    requires Distinct(order) && order != []
    ensures Distinct(order[..|order| - 1]) && order[|order| - 1] !in order[..|order| - 1]
    ensures order == order[..|order| - 1] + [order[|order| - 1]]
  {
  }

  lemma {:induction false} CopiesCountAmong(st: State, order: seq<string>, s: Service)
    requires Valid(st) && Distinct(order)
    ensures multiset(Copies(st, order))[s] == |PlacesOf(st, order, s)|
  {
    if order == [] {
      assert PlacesOf(st, order, s) == {};
    } else {
      DistinctFront(order);
      CopiesCountAmong(st, order[..|order| - 1], s);
      CopiesSnoc(st, order);
      CopiesCountStep(st, order[..|order| - 1], order[|order| - 1], s);
    }
  }

  /** Every tracked service is copied, as often as it is tracked, and nothing else, in whatever order Go ranges. */
  lemma CopiesCount(st: State, order: seq<string>, s: Service)
    requires Valid(st) && IsIteration(order, st.services.Keys)
    ensures multiset(Copies(st, order))[s] ==
            |set c, i: nat | c in st.services && i < |st.services[c]| && st.heap[st.services[c][i]] == s :: (c, i)|
  {
    CopiesCountAmong(st, order, s);
    assert PlacesOf(st, order, s)
        == set c, i: nat | c in st.services && i < |st.services[c]| && st.heap[st.services[c][i]] == s :: (c, i);
  }

  /** In particular the copies are the values of the tracked objects. */
  lemma CopiesAreTracked(st: State, order: seq<string>, s: Service)
    requires Valid(st) && IsIteration(order, st.services.Keys)
    ensures s in Copies(st, order) <==>
            exists c, i :: c in st.services && 0 <= i < |st.services[c]| && s == st.heap[st.services[c][i]]
  {
    CopiesCount(st, order, s);
    var places := set c, i: nat | c in st.services && i < |st.services[c]| && st.heap[st.services[c][i]] == s :: (c, i);
    if s in Copies(st, order) {
      assert multiset(Copies(st, order))[s] > 0;
      var place :| place in places;
    }
    if c, i :| c in st.services && 0 <= i < |st.services[c]| && s == st.heap[st.services[c][i]] {
      assert (c, i) in places;
      assert s in multiset(Copies(st, order));
    }
  }

  // ---------------------------------------------------------------- the calls

  /** The steps of a refresh after its copying, with no other step in between. */
  function RefreshAlone(ok: Outcomes, st: State, i: nat): State
    requires i < |st.tasks| && st.tasks[i].RefreshLoop?
    decreases |st.tasks[i].copies|
  {
    var st1 := RefreshStep(ok, st, i);
    if st.tasks[i].copies == [] then st1 else RefreshAlone(ok, st1, i)
  }

  /** One Refresh call for each of these services, from log position `n` on. */
  function RefreshCalls(ok: Outcomes, n: nat, copies: seq<Service>): (calls: seq<Call>)
    ensures |calls| == |copies|
  {
    seq(|copies|, k requires 0 <= k < |copies| => Call(Refresh, None, copies[k], ok(n + k)))
  }

  lemma RefreshCallsCons(ok: Outcomes, n: nat, copies: seq<Service>)
    requires copies != []
    ensures RefreshCalls(ok, n, copies)
         == [Call(Refresh, None, copies[0], ok(n))] + RefreshCalls(ok, n + 1, copies[1..])
  {
  }

  /** A refresh calls the registry once for each copy, in order and past failures, and does nothing else. */
  lemma {:induction false} RefreshAloneCalls(ok: Outcomes, st: State, i: nat)
    requires i < |st.tasks| && st.tasks[i].RefreshLoop?
    ensures RefreshAlone(ok, st, i)
         == SetTask(st, i, Done).(log := st.log + RefreshCalls(ok, |st.log|, st.tasks[i].copies))
    decreases |st.tasks[i].copies|
  {
    var copies := st.tasks[i].copies;
    if copies == [] {
      assert st.log + RefreshCalls(ok, |st.log|, []) == st.log;
    } else {
      var st1 := RefreshStep(ok, st, i);
      RefreshAloneCalls(ok, st1, i);
      RefreshCallsCons(ok, |st.log|, copies);
      assert st1.tasks[i := Done] == st.tasks[i := Done];
      assert st1.log + RefreshCalls(ok, |st1.log|, copies[1..]) == st.log + RefreshCalls(ok, |st.log|, copies);
    }
  }

  /** A whole refresh that nothing interrupts refreshes every tracked service, as it is. */
  lemma RefreshReachesAll(cfg: Config, ok: Outcomes, st: State, i: nat, order: seq<string>, c: string, k: nat)
    requires Valid(st) && Enabled(st, Run(i, Iteration(order))) && st.tasks[i].RefreshCopy?
    requires c in st.services && k < |st.services[c]|
    ensures var st1 := Step(cfg, ok, st, Run(i, Iteration(order)));
            && st1.tasks[i].RefreshLoop?
            && var log, s := RefreshAlone(ok, st1, i).log, st.heap[st.services[c][k]];
               exists n :: |st.log| <= n < |log| && log[n].op == Refresh && log[n].service == s
  {
    var st1, copies := Step(cfg, ok, st, Run(i, Iteration(order))), Copies(st, order);
    var s := st.heap[st.services[c][k]];
    CopiesAreTracked(st, order, s);
    RefreshAloneCalls(ok, st1, i);
    var n :| 0 <= n < |copies| && copies[n] == s;
    assert RefreshAlone(ok, st1, i).log[|st.log| + n] == RefreshCalls(ok, |st.log|, copies)[n];
  }
}
