/** Why a lock region may be one step although its registry calls are several: add's Register and the refreshes are
    called outside the mutex and can fall between them, but such a call can be moved out (bridge/bridge.go).
  */
module Exchange {
  import opened BridgeState
  import opened KeyedRegistry

  /** The call succeeds and concerns the entry under `k`. */
  predicate Touches(key: KeyOf, call: Call, k: string)
  {
    call.ok && call.op != Refresh && key(call.service) == k
  }

  predicate AnyTouches(key: KeyOf, calls: seq<Call>, k: string)
  {
    exists i :: 0 <= i < |calls| && Touches(key, calls[i], k)
  }

  lemma AnyTouchesSnoc(key: KeyOf, calls: seq<Call>, k: string)
    requires calls != []
    ensures AnyTouches(key, calls, k) <==>
            AnyTouches(key, calls[..|calls| - 1], k) || Touches(key, calls[|calls| - 1], k)
  {
    var front := calls[..|calls| - 1];
    if AnyTouches(key, front, k) {
      var i :| 0 <= i < |front| && Touches(key, front[i], k);
      assert calls[i] == front[i];
    }
    if AnyTouches(key, calls, k) {
      var i :| 0 <= i < |calls| && Touches(key, calls[i], k);
      assert i < |front| ==> front[i] == calls[i];
    }
  }

  /** The same entries, but for that under `k`. */
  predicate AgreeBut(reg: Registry, reg': Registry, k: string)
  {
    reg - {k} == reg' - {k}
  }

  lemma CallAgrees(key: KeyOf, reg: Registry, reg': Registry, call: Call, k: string)
    requires AgreeBut(reg, reg', k)
    ensures AgreeBut(ApplyCall(key, reg, call), ApplyCall(key, reg', call), k)
    ensures Touches(key, call, k) || reg == reg' ==> ApplyCall(key, reg, call) == ApplyCall(key, reg', call)
  {
    var a, b := ApplyCall(key, reg, call), ApplyCall(key, reg', call);
    assert forall id :: id != k ==> (id in reg <==> id in reg - {k}) && (id in reg' <==> id in reg' - {k});
    assert forall id :: id != k && id in reg ==> reg[id] == (reg - {k})[id] && reg'[id] == (reg' - {k})[id];
    assert a - {k} == b - {k};
  }

  /** Once a call has touched an entry, what was there before makes no difference. */
  lemma {:induction false} CallsAgree(key: KeyOf, reg: Registry, reg': Registry, calls: seq<Call>, k: string)
    requires AgreeBut(reg, reg', k)
    ensures AgreeBut(Apply(key, reg, calls), Apply(key, reg', calls), k)
    ensures AnyTouches(key, calls, k) ==> Apply(key, reg, calls) == Apply(key, reg', calls)
  {
    if calls != [] {
      var front, last := calls[..|calls| - 1], calls[|calls| - 1];
      CallsAgree(key, reg, reg', front, k);
      CallAgrees(key, Apply(key, reg, front), Apply(key, reg', front), last, k);
      AnyTouchesSnoc(key, calls, k);
    }
  }

  lemma CallChangesOne(key: KeyOf, reg: Registry, x: Call)
    ensures AgreeBut(ApplyCall(key, reg, x), reg, key(x.service))
  {
    var k := key(x.service);
    assert ApplyCall(key, reg, x) - {k} == reg - {k};
  }

  /** Calls that concern different entries commute. */
  lemma CallsCommute(key: KeyOf, reg: Registry, x: Call, y: Call)
    requires !Touches(key, y, key(x.service))
    ensures ApplyCall(key, ApplyCall(key, reg, x), y) == ApplyCall(key, ApplyCall(key, reg, y), x)
  {
  }

  lemma {:induction false} CallCommutes(key: KeyOf, reg: Registry, x: Call, calls: seq<Call>)
    requires !AnyTouches(key, calls, key(x.service))
    ensures Apply(key, ApplyCall(key, reg, x), calls) == ApplyCall(key, Apply(key, reg, calls), x)
  {
    if calls != [] {
      var front, last := calls[..|calls| - 1], calls[|calls| - 1];
      AnyTouchesSnoc(key, calls, key(x.service));
      CallCommutes(key, reg, x, front);
      CallsCommute(key, Apply(key, reg, front), x, last);
    }
  }

  lemma ApplyOne(key: KeyOf, reg: Registry, x: Call)
    ensures Apply(key, reg, [x]) == ApplyCall(key, reg, x)
  {
    assert [x][..0] == [] && Apply(key, reg, []) == reg;
  }

  /** A call in between, moved to the end, when no later call concerns its entry. */
  lemma MovedToEnd(key: KeyOf, reg: Registry, a: seq<Call>, x: Call, b: seq<Call>)
    requires !AnyTouches(key, b, key(x.service))
    ensures Apply(key, reg, (a + [x]) + b) == Apply(key, reg, (a + b) + [x])
  {
    var now := Apply(key, reg, a);
    ApplyConcat(key, reg, a + [x], b);
    ApplyConcat(key, reg, a, [x]);
    ApplyOne(key, now, x);
    CallCommutes(key, now, x, b);
    ApplyConcat(key, reg, a, b);
    ApplyConcat(key, reg, a + b, [x]);
    ApplyOne(key, Apply(key, now, b), x);
  }

  /** A call in between, moved to the front, when a later call concerns its entry. */
  lemma MovedToFront(key: KeyOf, reg: Registry, a: seq<Call>, x: Call, b: seq<Call>)
    requires AnyTouches(key, b, key(x.service))
    ensures Apply(key, reg, (a + [x]) + b) == Apply(key, reg, ([x] + a) + b)
  {
    var k, first := key(x.service), ApplyCall(key, reg, x);
    CallChangesOne(key, reg, x);
    CallsAgree(key, first, reg, a, k);
    CallChangesOne(key, Apply(key, reg, a), x);
    ApplyConcat(key, reg, a, [x]);
    ApplyOne(key, Apply(key, reg, a), x);
    ApplyConcat(key, reg, [x], a);
    ApplyOne(key, reg, x);
    CallsAgree(key, Apply(key, reg, a + [x]), Apply(key, reg, [x] + a), b, k);
    ApplyConcat(key, reg, a + [x], b);
    ApplyConcat(key, reg, [x] + a, b);
  }

  /** Whatever calls a lock region makes, a call that falls between them leaves the registry as it would if it were
      made just before or just after the region. */
  lemma CallsExchange(key: KeyOf, reg: Registry, a: seq<Call>, x: Call, b: seq<Call>)
    ensures var between := Apply(key, reg, (a + [x]) + b);
            between == Apply(key, reg, ([x] + a) + b) || between == Apply(key, reg, (a + b) + [x])
  {
    if AnyTouches(key, b, key(x.service)) {
      MovedToFront(key, reg, a, x, b);
    } else {
      MovedToEnd(key, reg, a, x, b);
    }
  }
}
