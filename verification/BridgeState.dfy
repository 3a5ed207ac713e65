/** The data of the bridge and the effect of each of its lock regions, as functions on
    values (bridge/bridge.go, bridge/servicesync.go).

    Service objects are mutable and shared by pointer in the source, so they live in a
    heap and the maps hold references.  A nil slice and an absent key are both `[]`.
    Registry calls are logged; `ok(n)` is the outcome of the n-th call, so that a
    statement for all `ok` is a statement for all ways the registry may fail.
  */
module BridgeState {
  import opened Options
  import opened ServiceId

  type Ref = nat

  datatype Origin = Origin(containerID: string, containerName: string, hostIP: string)

  datatype Service = Service(id: string, name: string, ip: string, port: int, origin: Origin)

  datatype DeadContainer = DeadContainer(ttl: int, services: seq<Ref>)

  datatype Config = Config(refreshTtl: int, refreshInterval: int, always: bool, cleanup: bool, hostname: string)

  datatype Op = Register | Deregister | Refresh

  /** A registry call: the object passed (None for an object the bridge does not track), its
      value at the time, and the outcome. */
  datatype Call = Call(op: Op, ref: Option<Ref>, service: Service, ok: bool)

  /** What remains to be done by a goroutine; each alternative stands before an atomic step. */
  datatype Task =
    | AddStart(c: string, ip: string)
    | AddCheck(c: string, ip: string)
    | AddInspect(c: string, ip: string)
    | AddLoop(c: string, todo: seq<Service>)
    | AddAppend(c: string, ref: Ref, todo: seq<Service>)
    | RemoveStart(c: string)
    | RemoveLocked(c: string, deregister: bool)
    | PruneStart
    | RefreshCopy
    | RefreshLoop(copies: seq<Service>)
    | SyncStart(quiet: bool, ip: string)
    | Done

  datatype State = State(
    services: map<string, seq<Ref>>,
    dead: map<string, DeadContainer>,
    heap: seq<Service>,
    log: seq<Call>,
    locked: bool,
    tasks: seq<Task>)

  type Outcomes = nat -> bool

  predicate ValidRefs(refs: seq<Ref>, n: nat)
  {
    forall i :: 0 <= i < |refs| ==> refs[i] < n
  }

  /** Every pointer in the maps points to an object. */
  predicate Valid(st: State)
  {
    && (forall c :: c in st.services ==> ValidRefs(st.services[c], |st.heap|))
    && (forall c :: c in st.dead ==> ValidRefs(st.dead[c].services, |st.heap|))
  }

  /** `b.services[c]` */
  function Tracked(st: State, c: string): seq<Ref>
  {
    if c in st.services then st.services[c] else []
  }

  function CallRegistry(st: State, ok: Outcomes, op: Op, ref: Option<Ref>, service: Service): State
  {
    st.(log := st.log + [Call(op, ref, service, ok(|st.log|))])
  }

  function Spawned(st: State, task: Task): State
  {
    st.(tasks := st.tasks + [task])
  }

  // ---------------------------------------------------------------- lock regions of add

  function DeleteDead(st: State, c: string): (r: State)
    ensures Valid(st) ==> Valid(r)
  {
    if c in st.dead then
      st.(services := st.services[c := st.dead[c].services], dead := st.dead - {c})
    else st
  }

  function Append(st: State, c: string, ref: Ref): State
  {
    if Tracked(st, c) != [] then st else st.(services := st.services[c := Tracked(st, c) + [ref]])
  }

  // ---------------------------------------------------------------- remove

  function DeregisterAll(st: State, ok: Outcomes, refs: seq<Ref>): (r: State)
    requires ValidRefs(refs, |st.heap|)
    ensures r == st.(log := r.log)
  {
    if refs == [] then st
    else
      var front, last := refs[..|refs| - 1], refs[|refs| - 1];
      CallRegistry(DeregisterAll(st, ok, front), ok, Deregister, Some(last), st.heap[last])
  }

  function Remove(cfg: Config, st: State, ok: Outcomes, c: string, deregister: bool): (r: State)
    requires Valid(st)
    ensures Valid(r)
  {
    var st1 :=
      if deregister then
        var a := DeregisterAll(st, ok, Tracked(st, c));
        if c in st.dead then
          DeregisterAll(a, ok, st.dead[c].services).(dead := st.dead - {c})
        else a
      else if cfg.refreshTtl != 0 && Tracked(st, c) != [] then
        st.(dead := st.dead[c := DeadContainer(cfg.refreshTtl, Tracked(st, c))])
      else st;
    st1.(services := st1.services - {c})
  }

  /** `shouldRemove`: what Docker says about a container that was reported dead. */
  datatype Inspection = NoSuchContainer | InspectError | Status(running: bool, exitCode: int)

  /** An exit code has the signalled bit (128) set. */
  predicate Signalled(exitCode: int)
  {
    (exitCode / 128) % 2 == 1
  }

  predicate ShouldRemove(always: bool, inspection: Inspection)
  {
    always
    || inspection.NoSuchContainer?
    || (inspection.Status? && !inspection.running && (inspection.exitCode == 0 || Signalled(inspection.exitCode)))
  }

  /** The decision in Docker's terms: always if so configured, and otherwise when the container is gone, or has
      stopped with success or by a signal (of the exit codes 0 to 255). */
  lemma RemovedOnSuccessOrSignal(exitCode: int, inspection: Inspection)
    requires 0 <= exitCode < 256
    ensures ShouldRemove(true, inspection)
    ensures ShouldRemove(false, NoSuchContainer)
    ensures !ShouldRemove(false, InspectError)
    ensures ShouldRemove(false, Status(false, exitCode)) <==> exitCode == 0 || exitCode >= 128
    ensures !ShouldRemove(false, Status(true, exitCode))
  {
  }

  // ---------------------------------------------------------------- prune and refresh

  function Pruned(cfg: Config, dead: map<string, DeadContainer>): map<string, DeadContainer>
  {
    map c | c in dead && dead[c].ttl - cfg.refreshInterval > 0 :: dead[c].(ttl := dead[c].ttl - cfg.refreshInterval)
  }

  function Prune(cfg: Config, st: State): (r: State)
    ensures Valid(st) ==> Valid(r)
  {
    st.(dead := Pruned(cfg, st.dead))
  }

  /** Go ranges over a map in an order of its own choice. */
  predicate IsIteration(order: seq<string>, keys: set<string>)
  {
    && (forall i, j :: 0 <= i < j < |order| ==> order[i] != order[j])
    && (forall c :: c in order ==> c in keys)
    && (forall c :: c in keys ==> c in order)
  }

  /** `getServicesCopy`, flattened in the order in which Refresh ranges over it. */
  function Copies(st: State, order: seq<string>): (copies: seq<Service>)
    requires Valid(st)
  {
    if order == [] then []
    else
      var front, last := order[..|order| - 1], order[|order| - 1];
      var refs := Tracked(st, last);
      Copies(st, front) + seq(|refs|, i requires 0 <= i < |refs| => st.heap[refs[i]])
  }

  // ---------------------------------------------------------------- sync

  function WithIP(s: Service, ip: string): Service
  {
    s.(ip := ip, origin := s.origin.(hostIP := ip))
  }

  function Reregister(st: State, ok: Outcomes, ref: Ref, ip: string): (r: State)
    requires ref < |st.heap|
    ensures r == st.(log := r.log, heap := r.heap) && |r.heap| == |st.heap| && |st.log| <= |r.log|
    ensures forall i :: 0 <= i < |st.heap| && i != ref ==> r.heap[i] == st.heap[i]
    ensures Valid(st) ==> Valid(r)
  {
    if ip != "" then
      if st.heap[ref].ip == ip then st
      else
        var st1 := CallRegistry(st, ok, Deregister, Some(ref), st.heap[ref]);
        if !ok(|st.log|) then st1
        else
          var s := WithIP(st.heap[ref], ip);
          CallRegistry(st1.(heap := st1.heap[ref := s]), ok, Register, Some(ref), s)
    else
      CallRegistry(st, ok, Register, Some(ref), st.heap[ref])
  }

  function ReregisterAll(st: State, ok: Outcomes, refs: seq<Ref>, ip: string): (r: State)
    requires ValidRefs(refs, |st.heap|)
    ensures r == st.(log := r.log, heap := r.heap) && |r.heap| == |st.heap| && |st.log| <= |r.log|
    ensures Valid(st) ==> Valid(r)
  {
    if refs == [] then st
    else
      Reregister(ReregisterAll(st, ok, refs[..|refs| - 1], ip), ok, refs[|refs| - 1], ip)
  }

  /** The loop over the listed containers: reregister the tracked ones, spawn an add for the others. */
  function SyncListed(st: State, ok: Outcomes, listing: seq<string>, ip: string): (r: State)
    requires Valid(st)
    ensures r == st.(log := r.log, heap := r.heap, tasks := r.tasks) && |r.heap| == |st.heap| && Valid(r)
    ensures st.tasks <= r.tasks && |st.log| <= |r.log|
  {
    if listing == [] then st
    else
      var st1, c := SyncListed(st, ok, listing[..|listing| - 1], ip), listing[|listing| - 1];
      if Tracked(st1, c) == [] then Spawned(st1, AddStart(c, ip))
      else ReregisterAll(st1, ok, Tracked(st1, c), ip)
  }

  /** Spawns a RemoveOnExit for every tracked container Docker no longer lists. */
  function SpawnRemovals(st: State, order: seq<string>, nonExited: seq<string>): (r: State)
    ensures r == st.(tasks := r.tasks) && st.tasks <= r.tasks
  {
    if order == [] then st
    else
      var st1, c := SpawnRemovals(st, order[..|order| - 1], nonExited), order[|order| - 1];
      if c in nonExited then st1 else Spawned(st1, RemoveStart(c))
  }

  /** `Origin.container.Name[1:]` */
  function ContainerName(s: Service): string
  {
    if s.origin.containerName == "" then "" else s.origin.containerName[1..]
  }

  predicate AcknowledgedIn(st: State, refs: seq<Ref>, name: string, containerName: string)
    requires ValidRefs(refs, |st.heap|)
  {
    exists i :: 0 <= i < |refs| && st.heap[refs[i]].name == name && ContainerName(st.heap[refs[i]]) == containerName
  }

  /** Some tracked service has this name and this container name. */
  predicate Acknowledged(st: State, name: string, containerName: string)
    requires Valid(st)
  {
    exists c :: c in st.services && AcknowledgedIn(st, st.services[c], name, containerName)
  }

  /** Registered by this host, but acknowledged by no tracked service. */
  predicate Dangling(cfg: Config, st: State, ext: Service)
    requires Valid(st)
  {
    && ParseId(ext.id).Some?
    && ParseId(ext.id).value.host == cfg.hostname
    && !Acknowledged(st, ext.name, ParseId(ext.id).value.name)
  }

  function Cleanup(cfg: Config, st: State, ok: Outcomes, ext: seq<Service>): (r: State)
    requires Valid(st)
    ensures r == st.(log := r.log)
  {
    if ext == [] then st
    else
      var st1, e := Cleanup(cfg, st, ok, ext[..|ext| - 1]), ext[|ext| - 1];
      if Dangling(cfg, st, e) then CallRegistry(st1, ok, Deregister, None, e) else st1
  }

  /** What Docker and the registry answer during one sync; None is an error. */
  datatype SyncAnswers = SyncAnswers(
    listing: Option<seq<string>>,
    nonExited: Option<seq<string>>,
    order: seq<string>,
    ext: Option<seq<Service>>)

  /** `serviceSync`.  A failed first listing ends the process unless the sync is quiet, so it is
      no step of a run; see `Lifecycle.Enabled`. */
  function Sync(cfg: Config, st: State, ok: Outcomes, ip: string, answers: SyncAnswers): (r: State)
    requires Valid(st)
    ensures r == st.(log := r.log, heap := r.heap, tasks := r.tasks) && |r.heap| == |st.heap| && Valid(r)
    ensures st.tasks <= r.tasks
  {
    if answers.listing.None? then st
    else
      var st1 := SyncListed(st, ok, answers.listing.value, ip);
      if !cfg.cleanup || answers.nonExited.None? then st1
      else
        var st2 := SpawnRemovals(st1, answers.order, answers.nonExited.value);
        if answers.ext.None? then st2 else Cleanup(cfg, st2, ok, answers.ext.value)
  }
}
