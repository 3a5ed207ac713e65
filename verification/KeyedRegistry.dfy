/** Sync against a registry that files services under keys: the Zookeeper adapter's keys contain the
    IP, the Consul adapter's are the IDs (bridge/servicesync.go).
  */
module KeyedRegistry {
  import opened Options
  import opened BridgeState
  import opened Lifecycle

  type KeyOf = Service -> string
  type Registry = map<string, Service>

  function ApplyCall(key: KeyOf, reg: Registry, call: Call): Registry
  {
    if !call.ok then reg
    else match call.op
      case Register => reg[key(call.service) := call.service]
      case Deregister => reg - {key(call.service)}
      case Refresh => reg
  }

  /** The registry after a list of calls. */
  function Apply(key: KeyOf, reg: Registry, calls: seq<Call>): Registry
  {
    if calls == [] then reg else ApplyCall(key, Apply(key, reg, calls[..|calls| - 1]), calls[|calls| - 1])
  }

  /** The registry as it is in `st`, when it was `reg` at log position `n`. */
  function RegistryOf(key: KeyOf, reg: Registry, n: nat, st: State): Registry
    requires n <= |st.log|
  {
    Apply(key, reg, st.log[n..])
  }

  lemma RegistryCall(key: KeyOf, reg: Registry, n: nat, st: State, ok: Outcomes, op: Op, ref: Option<Ref>, s: Service)
    requires n <= |st.log|
    ensures RegistryOf(key, reg, n, CallRegistry(st, ok, op, ref, s))
         == ApplyCall(key, RegistryOf(key, reg, n, st), Call(op, ref, s, ok(|st.log|)))
  {
    var after := CallRegistry(st, ok, op, ref, s).log[n..];
    assert after == st.log[n..] + [Call(op, ref, s, ok(|st.log|))];
    assert after[..|after| - 1] == st.log[n..];
  }

  lemma {:induction false} ApplyConcat(key: KeyOf, reg: Registry, a: seq<Call>, b: seq<Call>)
    ensures Apply(key, reg, a + b) == Apply(key, Apply(key, reg, a), b)
  {
    if b == [] {
      assert a + b == a;
    } else {
      ApplyConcat(key, reg, a, b[..|b| - 1]);
      assert (a + b)[..|a + b| - 1] == a + b[..|b| - 1];
    }
  }

  /** The one service of a tracked container. */
  function ServiceOf(st: State, c: string): Service
    requires c in st.services && |st.services[c]| == 1 && st.services[c][0] < |st.heap|
  {
    st.heap[st.services[c][0]]
  }

  predicate Single(st: State)
  {
    && (forall c :: c in st.services ==> |st.services[c]| == 1 && st.services[c][0] < |st.heap|)
    && (forall c, d :: c in st.services && d in st.services && c != d ==> st.services[c][0] != st.services[d][0])
  }

  lemma InvSingle(cfg: Config, st: State)
    requires Inv(cfg, st)
    ensures Single(st)
  {
    assert forall c :: c in st.services ==> EntryOk(st, c, st.services[c]);
  }

  /** Every tracked service is registered, as it is, under its current key. */
  predicate AllRegistered(key: KeyOf, reg: Registry, st: State)
    requires Single(st)
  {
    forall c :: c in st.services ==> key(ServiceOf(st, c)) in reg && reg[key(ServiceOf(st, c))] == ServiceOf(st, c)
  }

  predicate KeysApart(key: KeyOf, s: Service, t: Service, ip: string)
  {
    && key(s) != key(t) && key(WithIP(s, ip)) != key(t)
    && key(s) != key(WithIP(t, ip)) && key(WithIP(s, ip)) != key(WithIP(t, ip))
  }

  /** No two tracked services share a key, before or after moving to `ip`. */
  predicate NoClash(key: KeyOf, st: State, ip: string)
    requires Single(st)
  {
    forall c, d :: c in st.services && d in st.services && c != d ==>
      KeysApart(key, ServiceOf(st, c), ServiceOf(st, d), ip)
  }

  ghost predicate NoFaults(ok: Outcomes)
  {
    forall n :: ok(n)
  }

  // ---------------------------------------------------------------- one reregistration

  /** The move of one service to a new IP, without faults. */
  lemma ReregisterMoves(key: KeyOf, reg: Registry, n: nat, st: State, ok: Outcomes, ref: Ref, ip: string)
    requires n <= |st.log| && ref < |st.heap| && NoFaults(ok)
    ensures var s, r := st.heap[ref], Reregister(st, ok, ref, ip);
            && n <= |r.log|
            && (ip != "" && s.ip == ip ==> r == st)
            && (ip != "" && s.ip != ip ==>
                  && r.heap == st.heap[ref := WithIP(s, ip)]
                  && RegistryOf(key, reg, n, r)
                     == (RegistryOf(key, reg, n, st) - {key(s)})[key(WithIP(s, ip)) := WithIP(s, ip)])
            && (ip == "" ==>
                  && r.heap == st.heap
                  && RegistryOf(key, reg, n, r) == RegistryOf(key, reg, n, st)[key(s) := s])
  {
    var s := st.heap[ref];
    if ip == "" {
      RegistryCall(key, reg, n, st, ok, Register, Some(ref), s);
    } else if s.ip != ip {
      var st1 := CallRegistry(st, ok, Deregister, Some(ref), s);
      RegistryCall(key, reg, n, st, ok, Deregister, Some(ref), s);
      var t := WithIP(s, ip);
      var st2 := st1.(heap := st1.heap[ref := t]);
      assert RegistryOf(key, reg, n, st2) == RegistryOf(key, reg, n, st1);
      RegistryCall(key, reg, n, st2, ok, Register, Some(ref), t);
    }
  }

  /** The calls of one reregistration, and the object after it, whatever fails: with an IP, nothing if the object is
      on it; otherwise Deregister as it was and, if that succeeds, the move and Register as it is then, and the
      object stays moved even if that fails.  Without an IP, Register as it is. */
  lemma ReregisterExactly(st: State, ok: Outcomes, ref: Ref, ip: string)
    requires ref < |st.heap|
    ensures var s, n, r := st.heap[ref], |st.log|, Reregister(st, ok, ref, ip);
            var t := s.(ip := ip, origin := s.origin.(hostIP := ip));
            && (ip == "" ==> r == st.(log := st.log + [Call(Register, Some(ref), s, ok(n))]))
            && (ip != "" && s.ip == ip ==> r == st)
            && (ip != "" && s.ip != ip && !ok(n) ==> r == st.(log := st.log + [Call(Deregister, Some(ref), s, false)]))
            && (ip != "" && s.ip != ip && ok(n) ==>
                  r == st.(heap := st.heap[ref := t], log := st.log + [Call(Deregister, Some(ref), s, true),
                                                                       Call(Register, Some(ref), t, ok(n + 1))]))
  {
    assert forall a, b: Call :: st.log + [a] + [b] == st.log + [a, b];
  }

  /** A service that was registered is registered afterwards exactly unless Deregister succeeded and
      Register failed. */
  lemma ReregisterUnderFaults(key: KeyOf, reg: Registry, st: State, ok: Outcomes, ref: Ref, ip: string)
    requires ref < |st.heap| && ip != "" && st.heap[ref].ip != ip
    requires key(st.heap[ref]) in reg && reg[key(st.heap[ref])] == st.heap[ref]
    requires key(WithIP(st.heap[ref], ip)) in reg ==> key(WithIP(st.heap[ref], ip)) == key(st.heap[ref])
    ensures var r := Reregister(st, ok, ref, ip);
            var after := RegistryOf(key, reg, |st.log|, r);
            (key(r.heap[ref]) in after && after[key(r.heap[ref])] == r.heap[ref])
            <==> !(ok(|st.log|) && !ok(|st.log| + 1))
  {
    var s, n := st.heap[ref], |st.log|;
    assert RegistryOf(key, reg, n, st) == reg;
    var st1 := CallRegistry(st, ok, Deregister, Some(ref), s);
    RegistryCall(key, reg, n, st, ok, Deregister, Some(ref), s);
    if ok(n) {
      var t := WithIP(s, ip);
      var st2 := st1.(heap := st1.heap[ref := t]);
      assert RegistryOf(key, reg, n, st2) == RegistryOf(key, reg, n, st1);
      RegistryCall(key, reg, n, st2, ok, Register, Some(ref), t);
    }
  }

  /** A service already on the IP is passed over, registered or not, whatever the registry does. */
  lemma {:induction false} SettledIsSkipped(st: State, ok: Outcomes, listing: seq<string>, ip: string, ref: Ref)
    requires Valid(st) && ip != "" && ref < |st.heap| && st.heap[ref].ip == ip
    ensures var r := SyncListed(st, ok, listing, ip);
            && r.heap[ref] == st.heap[ref]
            && st.log <= r.log
            && forall k :: |st.log| <= k < |r.log| ==> r.log[k].ref != Some(ref)
  {
    if listing != [] {
      var front, c := listing[..|listing| - 1], listing[|listing| - 1];
      SettledIsSkipped(st, ok, front, ip, ref);
      var st1 := SyncListed(st, ok, front, ip);
      if Tracked(st1, c) != [] {
        SettledInList(st1, ok, Tracked(st1, c), ip, ref);
      }
    }
  }

  lemma {:induction false} SettledInList(st: State, ok: Outcomes, refs: seq<Ref>, ip: string, ref: Ref)
    requires ValidRefs(refs, |st.heap|) && ip != "" && ref < |st.heap| && st.heap[ref].ip == ip
    ensures var r := ReregisterAll(st, ok, refs, ip);
            && r.heap[ref] == st.heap[ref]
            && st.log <= r.log
            && forall k :: |st.log| <= k < |r.log| ==> r.log[k].ref != Some(ref)
  {
    if refs != [] {
      SettledInList(st, ok, refs[..|refs| - 1], ip, ref);
    }
  }

  // ---------------------------------------------------------------- a whole sync

  lemma ReregisterSingle(st: State, ok: Outcomes, c: string, ip: string)
    requires Valid(st) && Single(st) && c in st.services
    ensures ReregisterAll(st, ok, st.services[c], ip) == Reregister(st, ok, st.services[c][0], ip)
  {
    var refs := st.services[c];
    assert refs[..0] == [] && refs == [refs[0]];
    assert ReregisterAll(st, ok, refs[..0], ip) == st;
  }

  /** Where the sync stands after the containers in `seen`: `now` is the state, `reg` the registry. */
  ghost predicate Moved(key: KeyOf, st: State, now: State, reg: Registry, seen: seq<string>, ip: string)
    requires Single(st) && Single(now)
  {
    && now.services == st.services
    && AllRegistered(key, reg, now)
    && forall c :: c in st.services ==>
         var s, t := ServiceOf(st, c), ServiceOf(now, c);
         && (t == s || t == WithIP(s, ip))
         && (c in seen ==> t.ip == ip)
         && (t != s && key(t) != key(s) ==> key(s) !in reg)
  }

  lemma MovedSettled(key: KeyOf, st: State, now: State, reg: Registry, seen: seq<string>, ip: string, c: string)
    requires Single(st) && Single(now) && Moved(key, st, now, reg, seen, ip) && c in st.services
    requires ServiceOf(now, c).ip == ip
    ensures Moved(key, st, now, reg, seen + [c], ip)
  {
  }

  /** The keys of the other services are not concerned by the move of `c`. */
  lemma OtherKeys(key: KeyOf, st: State, now: State, reg: Registry, seen: seq<string>, ip: string, c: string, d: string)
    requires Single(st) && Single(now) && NoClash(key, st, ip) && Moved(key, st, now, reg, seen, ip)
    requires c in st.services && d in st.services && c != d
    ensures KeysApart(key, ServiceOf(st, c), ServiceOf(st, d), ip)
    ensures key(ServiceOf(now, d)) != key(ServiceOf(st, c))
    ensures key(ServiceOf(now, d)) != key(WithIP(ServiceOf(st, c), ip))
  {
    assert KeysApart(key, ServiceOf(st, c), ServiceOf(st, d), ip);
  }

  lemma MovedStep(key: KeyOf, st: State, now: State, reg: Registry, seen: seq<string>, ip: string, c: string,
                  now': State)
    requires Single(st) && Single(now) && NoClash(key, st, ip)
    requires Moved(key, st, now, reg, seen, ip) && c in st.services && ServiceOf(now, c).ip != ip
    requires now'.services == now.services
    requires now'.heap == now.heap[now.services[c][0] := WithIP(ServiceOf(now, c), ip)]
    ensures var s := ServiceOf(now, c);
            var reg' := (reg - {key(s)})[key(WithIP(s, ip)) := WithIP(s, ip)];
            Single(now') && Moved(key, st, now', reg', seen + [c], ip)
  {
    var s := ServiceOf(now, c);
    assert s == ServiceOf(st, c);
    var t := WithIP(s, ip);
    var reg' := (reg - {key(s)})[key(t) := t];
    assert ServiceOf(now', c) == t;
    forall d | d in st.services && d != c
      ensures ServiceOf(now', d) == ServiceOf(now, d)
      ensures key(ServiceOf(now, d)) in reg' && reg'[key(ServiceOf(now, d))] == ServiceOf(now, d)
      ensures key(ServiceOf(st, d)) != key(t)
    {
      OtherKeys(key, st, now, reg, seen, ip, c, d);
    }
  }

  /** The iteration for one tracked container. */
  lemma MoveTracked(key: KeyOf, reg: Registry, n: nat, st: State, now: State, ok: Outcomes, seen: seq<string>,
                    c: string, ip: string)
    requires Single(st) && Single(now) && Valid(now) && n <= |now.log|
    requires NoClash(key, st, ip) && ip != "" && NoFaults(ok)
    requires Moved(key, st, now, RegistryOf(key, reg, n, now), seen, ip) && c in st.services
    ensures var r := ReregisterAll(now, ok, Tracked(now, c), ip);
            n <= |r.log| && Single(r) && Moved(key, st, r, RegistryOf(key, reg, n, r), seen + [c], ip)
  {
    ReregisterSingle(now, ok, c, ip);
    ReregisterMoves(key, reg, n, now, ok, now.services[c][0], ip);
    if ServiceOf(now, c).ip == ip {
      MovedSettled(key, st, now, RegistryOf(key, reg, n, now), seen, ip, c);
    } else {
      MovedStep(key, st, now, RegistryOf(key, reg, n, now), seen, ip, c, ReregisterAll(now, ok, Tracked(now, c), ip));
    }
  }

  /** The iteration for a container that is not tracked. */
  lemma MoveUntracked(key: KeyOf, reg: Registry, n: nat, st: State, now: State, seen: seq<string>, c: string,
                      ip: string)
    requires Single(st) && Single(now) && n <= |now.log|
    requires Moved(key, st, now, RegistryOf(key, reg, n, now), seen, ip) && c !in st.services
    ensures var r := Spawned(now, AddStart(c, ip));
            Single(r) && Moved(key, st, r, RegistryOf(key, reg, n, r), seen + [c], ip)
  {
    var r := Spawned(now, AddStart(c, ip));
    assert RegistryOf(key, reg, n, r) == RegistryOf(key, reg, n, now);
    assert forall d :: d in st.services ==> ServiceOf(r, d) == ServiceOf(now, d);
  }

  lemma {:induction false} SyncListedMoves(key: KeyOf, reg: Registry, st: State, ok: Outcomes,
                                           listing: seq<string>, ip: string)
    requires Valid(st) && ip != "" && NoFaults(ok)
    requires Single(st) && NoClash(key, st, ip) && AllRegistered(key, reg, st)
    ensures var r := SyncListed(st, ok, listing, ip);
            && |st.log| <= |r.log| && Single(r)
            && Moved(key, st, r, RegistryOf(key, reg, |st.log|, r), listing, ip)
  {
    if listing == [] {
      assert RegistryOf(key, reg, |st.log|, st) == reg;
    } else {
      var front, c := listing[..|listing| - 1], listing[|listing| - 1];
      SyncListedMoves(key, reg, st, ok, front, ip);
      assert listing == front + [c];
      var now := SyncListed(st, ok, front, ip);
      if c in st.services {
        MoveTracked(key, reg, |st.log|, st, now, ok, front, c, ip);
      } else {
        MoveUntracked(key, reg, |st.log|, st, now, front, c, ip);
      }
    }
  }

  lemma {:induction false} SettledSyncIsSilent(st: State, ok: Outcomes, listing: seq<string>, ip: string)
    requires Valid(st) && Single(st) && ip != ""
    requires forall c :: c in listing && c in st.services ==> ServiceOf(st, c).ip == ip
    ensures SyncListed(st, ok, listing, ip).log == st.log && SyncListed(st, ok, listing, ip).heap == st.heap
  {
    if listing != [] {
      var front, c := listing[..|listing| - 1], listing[|listing| - 1];
      assert listing == front + [c];
      SettledSyncIsSilent(st, ok, front, ip);
      var now := SyncListed(st, ok, front, ip);
      if c in st.services {
        ReregisterSingle(now, ok, c, ip);
      }
    }
  }

  /** What a sync with an IP should come to, against a registry that was `reg` before: every tracked service is
      registered at its current key, those of listed containers are on the IP, and a key that was left is empty. */
  ghost predicate Relocated(key: KeyOf, reg: Registry, st: State, r: State, listing: seq<string>, ip: string)
    requires Single(st)
  {
    && |st.log| <= |r.log| && Single(r) && r.services == st.services
    && var after := RegistryOf(key, reg, |st.log|, r);
    && AllRegistered(key, after, r)
    && (forall c :: c in listing && c in st.services ==> ServiceOf(r, c).ip == ip)
    && (forall c :: c in listing && c in st.services && ServiceOf(st, c).ip != ip ==>
          ServiceOf(r, c).origin.hostIP == ip)
    && (forall c :: c in st.services && key(ServiceOf(st, c)) != key(ServiceOf(r, c)) ==>
          key(ServiceOf(st, c)) !in after)
  }

  /** The listing loop of a fault-free sync with an IP relocates, and when repeated, even against a faulty
      registry, makes no further call. */
  lemma SyncMovesServices(key: KeyOf, reg: Registry, st: State, ok: Outcomes, again: Outcomes,
                          listing: seq<string>, ip: string)
    requires Valid(st) && ip != "" && NoFaults(ok)
    requires Single(st) && NoClash(key, st, ip) && AllRegistered(key, reg, st)
    ensures var r := SyncListed(st, ok, listing, ip);
            Relocated(key, reg, st, r, listing, ip) && SyncListed(r, again, listing, ip).log == r.log
  {
    SyncListedMoves(key, reg, st, ok, listing, ip);
    SettledSyncIsSilent(SyncListed(st, ok, listing, ip), again, listing, ip);
  }

  // ---------------------------------------------------------------- sync without an IP

  predicate RegisteredAs(key: KeyOf, reg: Registry, s: Service)
  {
    key(s) in reg && reg[key(s)] == s
  }

  /** Who is registered after the containers in `seen`. */
  ghost predicate Restored(key: KeyOf, st: State, reg: Registry, after: Registry, seen: seq<string>)
    requires Single(st)
  {
    forall c :: c in st.services && (c in seen || RegisteredAs(key, reg, ServiceOf(st, c))) ==>
      RegisteredAs(key, after, ServiceOf(st, c))
  }

  predicate DistinctKeys(key: KeyOf, st: State)
    requires Single(st)
  {
    forall c, d :: c in st.services && d in st.services && c != d ==> key(ServiceOf(st, c)) != key(ServiceOf(st, d))
  }

  lemma RestoredStep(key: KeyOf, st: State, reg: Registry, after: Registry, seen: seq<string>, c: string)
    requires Single(st) && Restored(key, st, reg, after, seen)
    requires DistinctKeys(key, st)
    ensures c !in st.services ==> Restored(key, st, reg, after, seen + [c])
    ensures c in st.services ==> Restored(key, st, reg, after[key(ServiceOf(st, c)) := ServiceOf(st, c)], seen + [c])
  {
  }

  /** A fault-free sync that carries no IP registers every tracked service of a listed container,
      whether or not the registry still had it, and loses none. */
  lemma {:induction false} PlainSyncRestores(key: KeyOf, reg: Registry, st: State, ok: Outcomes, listing: seq<string>)
    requires Valid(st) && NoFaults(ok) && Single(st)
    requires DistinctKeys(key, st)
    ensures var r := SyncListed(st, ok, listing, "");
            && |st.log| <= |r.log| && r.services == st.services && r.heap == st.heap
            && Restored(key, st, reg, RegistryOf(key, reg, |st.log|, r), listing)
  {
    var n := |st.log|;
    if listing == [] {
      assert RegistryOf(key, reg, n, st) == reg;
    } else {
      var front, c := listing[..|listing| - 1], listing[|listing| - 1];
      PlainSyncRestores(key, reg, st, ok, front);
      assert listing == front + [c];
      var now, r := SyncListed(st, ok, front, ""), SyncListed(st, ok, listing, "");
      RestoredStep(key, st, reg, RegistryOf(key, reg, n, now), front, c);
      if c in st.services {
        ReregisterSingle(now, ok, c, "");
        ReregisterMoves(key, reg, n, now, ok, now.services[c][0], "");
      } else {
        assert RegistryOf(key, reg, n, r) == RegistryOf(key, reg, n, now);
      }
    }
  }
}
