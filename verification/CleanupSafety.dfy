/** Which external services a sync's cleanup deregisters (bridge/servicesync.go). */
module CleanupSafety {
  import opened Options
  import opened Filters
  import opened ServiceId
  import opened BridgeState
  import opened Lifecycle
  import opened KeyedRegistry

  function IsDangling(cfg: Config, st: State): Service -> bool
    requires Valid(st)
  {
    x => Valid(st) && Dangling(cfg, st, x)
  }

  /** One Deregister call for each of these services, in order, each without an object of the bridge. */
  predicate DeregistersEach(calls: seq<Call>, services: seq<Service>)
  {
    && |calls| == |services|
    && forall k :: 0 <= k < |calls| ==>
         calls[k].op == Deregister && calls[k].ref == None && calls[k].service == services[k]
  }

  lemma DeregistersSnoc(calls: seq<Call>, services: seq<Service>, call: Call)
    requires DeregistersEach(calls, services) && call.op == Deregister && call.ref == None
    ensures DeregistersEach(calls + [call], services + [call.service])
  {
  }

  /** What one more report adds to the calls. */
  lemma CleanupSnoc(cfg: Config, st: State, ok: Outcomes, ext: seq<Service>)
    requires Valid(st) && ext != [] && st.log <= Cleanup(cfg, st, ok, ext[..|ext| - 1]).log
    ensures var now, r, last := Cleanup(cfg, st, ok, ext[..|ext| - 1]), Cleanup(cfg, st, ok, ext), ext[|ext| - 1];
            if Dangling(cfg, st, last) then
              && st.log <= r.log
              && r.log[|st.log|..] == now.log[|st.log|..] + [Call(Deregister, None, last, ok(|now.log|))]
            else r == now
  {
  }

  /** The calls cleanup makes: one Deregister for each dangling service, in order, and no other call. */
  lemma {:induction false} CleanupCallsEach(cfg: Config, st: State, ok: Outcomes, ext: seq<Service>)
    requires Valid(st)
    ensures st.log <= Cleanup(cfg, st, ok, ext).log
    ensures DeregistersEach(Cleanup(cfg, st, ok, ext).log[|st.log|..], Filtered(IsDangling(cfg, st), ext))
  {
    if ext != [] {
      var front, last := ext[..|ext| - 1], ext[|ext| - 1];
      CleanupCallsEach(cfg, st, ok, front);
      CleanupSnoc(cfg, st, ok, ext);
      var now := Cleanup(cfg, st, ok, front);
      DeregistersSnoc(now.log[|st.log|..], Filtered(IsDangling(cfg, st), front),
                      Call(Deregister, None, last, ok(|now.log|)));
    }
  }

  /** Some call concerns this service. */
  predicate Called(calls: seq<Call>, e: Service)
  {
    exists k :: 0 <= k < |calls| && calls[k].service == e
  }

  /** A Deregister call for a dangling service among those reported. */
  predicate IsCleanup(cfg: Config, st: State, ext: seq<Service>, call: Call)
    requires Valid(st)
  {
    call.op == Deregister && call.ref == None && call.service in ext && Dangling(cfg, st, call.service)
  }

  /** The same, report by report. */
  lemma CleanupCalls(cfg: Config, st: State, ok: Outcomes, ext: seq<Service>)
    requires Valid(st)
    ensures st.log <= Cleanup(cfg, st, ok, ext).log
    ensures var calls := Cleanup(cfg, st, ok, ext).log[|st.log|..];
            && (forall k :: 0 <= k < |calls| ==> IsCleanup(cfg, st, ext, calls[k]))
            && (forall e :: e in ext && Dangling(cfg, st, e) ==> Called(calls, e))
  {
    CleanupCallsEach(cfg, st, ok, ext);
    var p, calls := IsDangling(cfg, st), Cleanup(cfg, st, ok, ext).log[|st.log|..];
    forall k | 0 <= k < |calls|
      ensures IsCleanup(cfg, st, ext, calls[k])
    {
      assert calls[k].service in Filtered(p, ext);
      FilteredIff(p, ext, calls[k].service);
    }
    forall e | e in ext && Dangling(cfg, st, e)
      ensures Called(calls, e)
    {
      FilteredIff(p, ext, e);
      var k :| 0 <= k < |calls| && Filtered(p, ext)[k] == e;
      assert calls[k].service == e;
    }
  }

  /** The ID was printed by `newService`, not overridden by metadata. */
  ghost predicate GeneratedId(cfg: Config, s: Service)
  {
    exists port, portType ::
      && Digits(port) && LegalHost(cfg.hostname) && LegalName(ContainerName(s))
      && s.id == PrintId(cfg.hostname, ContainerName(s), port, portType)
  }

  /** Cleanup never takes a report of a tracked service with a generated ID for dangling. */
  lemma TrackedIsNotDangling(cfg: Config, st: State, c: string, i: nat, ext: Service)
    requires Valid(st) && c in st.services && i < |st.services[c]|
    requires var s := st.heap[st.services[c][i]]; GeneratedId(cfg, s) && ext.id == s.id && ext.name == s.name
    ensures ParseId(ext.id) == Some(Parts(cfg.hostname, ContainerName(st.heap[st.services[c][i]])))
    ensures !Dangling(cfg, st, ext)
  {
    var s := st.heap[st.services[c][i]];
    var port, portType :| Digits(port) && s.id == PrintId(cfg.hostname, ContainerName(s), port, portType);
    IdRoundTrip(cfg.hostname, ContainerName(s), port, portType);
    assert AcknowledgedIn(st, st.services[c], s.name, ContainerName(s));
  }

  /** The tracked object at this place has this name and belongs to the container of this name. */
  predicate AnswersFor(st: State, c: string, i: nat, name: string, containerName: string)
    requires Valid(st)
  {
    && c in st.services && i < |st.services[c]|
    && var s := st.heap[st.services[c][i]];
       s.name == name && s.origin.containerName != "" && s.origin.containerName[1..] == containerName
  }

  /** What is dangling, for any report: its ID reads as this host and a container, and no tracked service of that
      container, whose name Docker gives with a leading slash, has its name. */
  lemma DanglingIff(cfg: Config, st: State, ext: Service)
    requires Valid(st)
    ensures Dangling(cfg, st, ext) <==>
            exists n :: && Matches(ext.id, Parts(cfg.hostname, n))
                        && forall c, i: nat :: !AnswersFor(st, c, i, ext.name, n)
  {
    forall n | Matches(ext.id, Parts(cfg.hostname, n))
      ensures ParseId(ext.id) == Some(Parts(cfg.hostname, n))
      ensures Acknowledged(st, ext.name, n) <==> exists c, i: nat :: AnswersFor(st, c, i, ext.name, n)
    {
      ParseIdExact(ext.id, Parts(cfg.hostname, n));
      AcknowledgedIff(st, ext.name, n);
    }
    if Dangling(cfg, st, ext) {
      var parts := ParseId(ext.id).value;
      ParseIdExact(ext.id, parts);
      assert parts == Parts(cfg.hostname, parts.name);
    }
  }

  lemma AcknowledgedIff(st: State, name: string, containerName: string)
    requires Valid(st) && containerName != ""
    ensures Acknowledged(st, name, containerName) <==> exists c, i: nat :: AnswersFor(st, c, i, name, containerName)
  {
    if Acknowledged(st, name, containerName) {
      var c :| c in st.services && AcknowledgedIn(st, st.services[c], name, containerName);
      var refs := st.services[c];
      var i: nat :| i < |refs| && st.heap[refs[i]].name == name && ContainerName(st.heap[refs[i]]) == containerName;
      assert AnswersFor(st, c, i, name, containerName);
    }
    if c, i: nat :| AnswersFor(st, c, i, name, containerName) {
      assert AcknowledgedIn(st, st.services[c], name, containerName);
    }
  }

  /** The exact condition, for any tracked service and any report of it: it is taken for dangling if and only if
      its ID reads as this host and a container name under which no tracked service has its name. */
  lemma TrackedDanglesIff(cfg: Config, st: State, c: string, i: nat, ext: Service)
    requires Valid(st) && c in st.services && i < |st.services[c]|
    requires var s := st.heap[st.services[c][i]]; ext.id == s.id && ext.name == s.name
    ensures var s := st.heap[st.services[c][i]];
            Dangling(cfg, st, ext) <==>
            exists n :: Matches(s.id, Parts(cfg.hostname, n)) && !Acknowledged(st, s.name, n)
  {
    if Dangling(cfg, st, ext) {
      ParseIdExact(ext.id, ParseId(ext.id).value);
      assert ParseId(ext.id).value == Parts(cfg.hostname, ParseId(ext.id).value.name);
    }
    var s := st.heap[st.services[c][i]];
    if n :| Matches(s.id, Parts(cfg.hostname, n)) && !Acknowledged(st, s.name, n) {
      ParseIdExact(ext.id, Parts(cfg.hostname, n));
    }
  }

  /** A container with just this service. */
  function OneContainer(s: Service): Container
  {
    Container(s.origin.containerID, s.origin.containerName, [Draft(s.id, s.name, s.ip, s.port, s.origin.hostIP)])
  }

  /** The one service of a container, registered and about to be appended. */
  function AboutToAppend(s: Service): State
  {
    State(map[], map[], [s], [Call(Register, Some(0), s, true)], false, [AddAppend(s.origin.containerID, 0, [])])
  }

  lemma AboutToAppendReachable(cfg: Config, ok: Outcomes, s: Service)
    requires NoFaults(ok)
    ensures Reachable(cfg, ok, AboutToAppend(s))
  {
    var k := OneContainer(s);
    assert NewServices(k) == [s] && [s][1..] == [] && ok(0);
    var loop := Initial.(tasks := [AddLoop(k.id, [s])]);
    ReachInitial(cfg, ok);
    ReachLoop(cfg, ok, Initial, k);
    assert Initial.tasks + [AddLoop(k.id, [s])] == loop.tasks;
    ReachRegister(cfg, ok, loop, 0);
    assert RegisterStep(ok, loop, 0) == AboutToAppend(s);
  }

  /** The same, appended. */
  function AfterOneAdd(s: Service): State
  {
    var c := s.origin.containerID;
    AboutToAppend(s).(services := map[c := [0]], tasks := [AddLoop(c, [])])
  }

  lemma OneAddReachable(cfg: Config, ok: Outcomes, s: Service)
    requires NoFaults(ok)
    ensures Reachable(cfg, ok, AfterOneAdd(s))
  {
    AboutToAppendReachable(cfg, ok, s);
    ReachAppend(cfg, ok, AboutToAppend(s), 0);
    assert [] + [0] == [0];
    assert AppendStep(AboutToAppend(s), 0) == AfterOneAdd(s);
  }

  /** An overridden ID can make cleanup deregister a tracked service: whenever the ID reads as this host and
      another container, adding just that container leads to a state in which its report dangles. */
  lemma OverriddenIdMayDangle(cfg: Config, ok: Outcomes, s: Service, other: string)
    requires NoFaults(ok) && Matches(s.id, Parts(cfg.hostname, other)) && other != ContainerName(s)
    ensures Reachable(cfg, ok, AfterOneAdd(s)) && Valid(AfterOneAdd(s)) && Dangling(cfg, AfterOneAdd(s), s)
  {
    OneAddReachable(cfg, ok, s);
    TrackedDanglesIff(cfg, AfterOneAdd(s), s.origin.containerID, 0, s);
  }

  // ---------------------------------------------------------------- a registry keyed by ID

  function Id(s: Service): string { s.id }

  /** Each report shows an entry of the registry, by ID and name. */
  predicate Reports(reg: Registry, ext: seq<Service>)
  {
    forall i :: 0 <= i < |ext| ==> ext[i].id in reg && reg[ext[i].id].name == ext[i].name
  }

  lemma {:induction false} DeregistersOnly(reg: Registry, calls: seq<Call>, id: string)
    requires forall k :: 0 <= k < |calls| ==> calls[k].op == Deregister
    ensures var after := Apply(Id, reg, calls);
            && (id in after ==> id in reg && after[id] == reg[id])
            && (id in after <==> id in reg && forall k :: 0 <= k < |calls| && calls[k].ok ==> calls[k].service.id != id)
  {
    if calls != [] {
      var front := calls[..|calls| - 1];
      DeregistersOnly(reg, front, id);
      assert forall k :: 0 <= k < |front| ==> front[k] == calls[k];
    }
  }

  /** Against a registry keyed by ID, cleanup never loses a tracked service, even under faults. */
  lemma CleanupKeepsOne(cfg: Config, reg: Registry, st: State, ok: Outcomes, ext: seq<Service>, c: string)
    requires Valid(st) && Single(st) && Reports(reg, ext)
    requires c in st.services && GeneratedId(cfg, ServiceOf(st, c)) && RegisteredAs(Id, reg, ServiceOf(st, c))
    ensures var r := Cleanup(cfg, st, ok, ext);
            |st.log| <= |r.log| && RegisteredAs(Id, RegistryOf(Id, reg, |st.log|, r), ServiceOf(st, c))
  {
    CleanupCalls(cfg, st, ok, ext);
    var calls, s := Cleanup(cfg, st, ok, ext).log[|st.log|..], ServiceOf(st, c);
    DeregistersOnly(reg, calls, s.id);
    forall k | 0 <= k < |calls|
      ensures calls[k].service.id != s.id
    {
      if calls[k].service.id == s.id {
        TrackedIsNotDangling(cfg, st, c, 0, calls[k].service);
      }
    }
  }

  lemma CleanupKeepsTracked(cfg: Config, reg: Registry, st: State, ok: Outcomes, ext: seq<Service>)
    requires Valid(st) && Single(st) && AllRegistered(Id, reg, st) && Reports(reg, ext)
    requires forall c :: c in st.services ==> GeneratedId(cfg, ServiceOf(st, c))
    ensures var r := Cleanup(cfg, st, ok, ext);
            |st.log| <= |r.log| && Single(r) && AllRegistered(Id, RegistryOf(Id, reg, |st.log|, r), r)
  {
    CleanupCalls(cfg, st, ok, ext);
    var after := RegistryOf(Id, reg, |st.log|, Cleanup(cfg, st, ok, ext));
    forall c | c in st.services
      ensures RegisteredAs(Id, after, ServiceOf(st, c))
    {
      CleanupKeepsOne(cfg, reg, st, ok, ext, c);
    }
  }

  /** When nothing fails and the registry reports all it has, the entries left are exactly those
      that are not dangling. */
  lemma CleanupLeavesNothingDangling(cfg: Config, reg: Registry, st: State, ok: Outcomes, ext: seq<Service>, id: string)
    requires Valid(st) && Reports(reg, ext) && NoFaults(ok)
    requires forall k :: k in reg ==> exists i :: 0 <= i < |ext| && ext[i].id == k
    ensures var r := Cleanup(cfg, st, ok, ext);
            && |st.log| <= |r.log|
            && var after := RegistryOf(Id, reg, |st.log|, r);
            && (id in after ==> id in reg)
            && (id in reg ==> (id in after <==> !Dangling(cfg, st, reg[id].(id := id))))
  {
    CleanupCalls(cfg, st, ok, ext);
    CleanupOutcomes(cfg, st, ok, ext);
    var calls := Cleanup(cfg, st, ok, ext).log[|st.log|..];
    DeregistersOnly(reg, calls, id);
    if id in reg {
      var i :| 0 <= i < |ext| && ext[i].id == id;
      DanglingByReport(cfg, reg, st, ext, calls, id, i);
    }
  }

  /** Whether an entry goes is decided by its reports, which all say the same. */
  lemma DanglingByReport(cfg: Config, reg: Registry, st: State, ext: seq<Service>, calls: seq<Call>, id: string, i: nat)
    requires Valid(st) && Reports(reg, ext) && i < |ext| && ext[i].id == id && id in reg
    requires forall k :: 0 <= k < |calls| ==> calls[k].ok && IsCleanup(cfg, st, ext, calls[k])
    requires forall e :: e in ext && Dangling(cfg, st, e) ==> Called(calls, e)
    ensures Dangling(cfg, st, reg[id].(id := id)) <==>
            exists k :: 0 <= k < |calls| && calls[k].ok && calls[k].service.id == id
  {
    assert Dangling(cfg, st, ext[i]) <==> Dangling(cfg, st, reg[id].(id := id));
    if Dangling(cfg, st, ext[i]) {
      var k :| 0 <= k < |calls| && calls[k].service == ext[i];
    }
    if k :| 0 <= k < |calls| && calls[k].ok && calls[k].service.id == id {
      assert calls[k].service in ext;
    }
  }

  lemma {:induction false} CleanupOutcomes(cfg: Config, st: State, ok: Outcomes, ext: seq<Service>)
    requires Valid(st) && NoFaults(ok)
    ensures st.log <= Cleanup(cfg, st, ok, ext).log
    ensures forall k :: |st.log| <= k < |Cleanup(cfg, st, ok, ext).log| ==> Cleanup(cfg, st, ok, ext).log[k].ok
  {
    if ext != [] {
      CleanupOutcomes(cfg, st, ok, ext[..|ext| - 1]);
    }
  }
}
