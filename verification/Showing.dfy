/** Whether the registry shows what the bridge tracks: not only an entry under the ID, but the service as it is.
    The registry files services under their IDs and does not fail (bridge/bridge.go, bridge/servicesync.go).
  */
module Showing {
  import opened Options
  import opened ServiceId
  import opened BridgeState
  import opened Lifecycle
  import opened KeyedRegistry
  import opened CleanupSafety
  import opened SyncRuns
  import opened Tracking

  /** The registry that the calls of the run have made. */
  ghost function Own(st: State): Registry
  {
    RegistryOf(Id, map[], 0, st)
  }

  ghost predicate Shown(st: State, ref: Ref)
  {
    ref < |st.heap| && RegisteredAs(Id, Own(st), st.heap[ref])
  }

  /** The registry shows every service that is tracked, dead or about to be tracked as it is. */
  ghost predicate AllShown(st: State)
  {
    forall ref: Ref :: Held(st, ref) ==> Shown(st, ref)
  }

  lemma ShownIsFiled(st: State)
    requires AllShown(st)
    ensures AllFiled(st)
  {
  }

  /** Held services that share an ID are equal, so they are of one container. */
  lemma ShownAlike(st: State, ref: Ref, r: Ref)
    requires AllShown(st) && Held(st, ref) && Held(st, r)
    ensures ref < |st.heap| && r < |st.heap|
    ensures st.heap[ref].id == st.heap[r].id ==> st.heap[ref] == st.heap[r]
  {
    assert Shown(st, ref) && Shown(st, r);
  }

  // ---------------------------------------------------------------- the steps that contradict

  /** A second object is held that has the ID of `r`. */
  ghost predicate Second(st: State, r: Ref, ref: Ref)
  {
    ref != r && Held(st, ref) && SameId(st, ref, r)
  }

  ghost predicate HasSecond(st: State, r: Ref)
  {
    exists ref: Ref :: Second(st, r, ref)
  }

  /** The step registers a service under the ID of a held object with another value: an add registers a service
      that differs from one held, or a sync moves a service whose ID a dead entry or another add also holds. */
  ghost predicate Contradicts(st: State, e: Event)
    requires Valid(st) && Enabled(st, e)
  {
    && e.Run?
    && match st.tasks[e.i]
       case AddLoop(_, todo) => todo != [] && Differs(st, todo[0])
       case SyncStart(_, ip) => e.answer.answers.listing.Some? && Splits(st, e.answer.answers.listing.value, ip)
       case _ => false
  }

  /** Some held object has the ID of `s` and another value. */
  ghost predicate Differs(st: State, s: Service)
  {
    exists ref: Ref :: Held(st, ref) && ref < |st.heap| && st.heap[ref].id == s.id && st.heap[ref] != s
  }

  /** The sync moves a service, and its ID is held a second time. */
  ghost predicate Splits(st: State, listing: seq<string>, ip: string)
    requires Valid(st)
  {
    ip != "" && exists c :: c in listing && Moves(st, c, ip)
  }

  ghost predicate Moves(st: State, c: string, ip: string)
    requires Valid(st)
  {
    && c in st.services && |st.services[c]| == 1
    && var r := st.services[c][0]; st.heap[r].ip != ip && HasSecond(st, r)
  }

  // ---------------------------------------------------------------- steps that only lose entries

  /** Every entry of `r` is one of `reg`. */
  predicate Within(r: Registry, reg: Registry)
  {
    forall id :: id in r ==> id in reg && r[id] == reg[id]
  }

  /** When entries are only lost and nothing is newly held, what is still filed is still shown. */
  lemma ShownIfFiled(st: State, st': State)
    requires AllShown(st) && st'.heap == st.heap && Within(Own(st'), Own(st))
    requires forall ref: Ref :: Held(st', ref) ==> Held(st, ref)
    ensures AllShown(st') <==> AllFiled(st')
  {
    forall ref: Ref | Held(st', ref)
      ensures Shown(st', ref) <==> Filed(st', st'.heap[ref].id)
    {
      assert Held(st, ref) && Shown(st, ref);
    }
  }

  lemma OwnCall(st: State, ok: Outcomes, op: Op, ref: Option<Ref>, s: Service)
    requires NoFaults(ok)
    ensures Own(CallRegistry(st, ok, op, ref, s)) == ApplyCall(Id, Own(st), Call(op, ref, s, true))
  {
    RegistryCall(Id, map[], 0, st, ok, op, ref, s);
  }

  lemma {:induction false} DeregisterAllWithin(st: State, ok: Outcomes, refs: seq<Ref>)
    requires ValidRefs(refs, |st.heap|) && NoFaults(ok)
    ensures Within(Own(DeregisterAll(st, ok, refs)), Own(st))
  {
    if refs != [] {
      var front, last := refs[..|refs| - 1], refs[|refs| - 1];
      DeregisterAllWithin(st, ok, front);
      OwnCall(DeregisterAll(st, ok, front), ok, Deregister, Some(last), st.heap[last]);
    }
  }

  lemma RemoveWithin(cfg: Config, st: State, ok: Outcomes, c: string)
    requires Valid(st) && NoFaults(ok)
    ensures Within(Own(Remove(cfg, st, ok, c, true)), Own(st))
  {
    var live, r := DeregisterAll(st, ok, Tracked(st, c)), Remove(cfg, st, ok, c, true);
    DeregisterAllWithin(st, ok, Tracked(st, c));
    if c in st.dead {
      DeregisterAllWithin(live, ok, st.dead[c].services);
      assert r.log == DeregisterAll(live, ok, st.dead[c].services).log;
    } else {
      assert r.log == live.log;
    }
  }

  lemma {:induction false} CleanupWithin(cfg: Config, st: State, ok: Outcomes, ext: seq<Service>)
    requires Valid(st) && NoFaults(ok)
    ensures Within(Own(Cleanup(cfg, st, ok, ext)), Own(st))
  {
    if ext != [] {
      var front := Cleanup(cfg, st, ok, ext[..|ext| - 1]);
      CleanupWithin(cfg, st, ok, ext[..|ext| - 1]);
      OwnCall(front, ok, Deregister, None, ext[|ext| - 1]);
    }
  }

  /** Steps that are neither a Register nor a sync. */
  lemma OtherShows(cfg: Config, ok: Outcomes, st: State, e: Event)
    requires Inv(cfg, st) && Valid(st) && Enabled(st, e) && AllShown(st) && NoFaults(ok)
    requires !Registers(st, e) && !(e.Run? && st.tasks[e.i].SyncStart?)
    ensures AllShown(Step(cfg, ok, st, e)) <==> !Strands(cfg, st, e)
  {
    var st' := Step(cfg, ok, st, e);
    ShownIsFiled(st);
    StepStrandsIff(cfg, ok, st, e);
    if Calm(st, e) {
      CalmStep(cfg, ok, st, e);
    } else {
      var c := st.tasks[e.i].c;
      RemoveWithin(cfg, st, ok, c);
      RemoveShape(cfg, st, ok, c, true);
      assert st'.log == Remove(cfg, st, ok, c, true).log;
    }
    forall ref: Ref | Held(st', ref)
      ensures Held(st, ref)
    {
      HeldBefore(cfg, ok, st, e, ref);
    }
    ShownIfFiled(st, st');
  }

  // ---------------------------------------------------------------- Register

  lemma RegisterShows(cfg: Config, ok: Outcomes, st: State, e: Event)
    requires Inv(cfg, st) && AllShown(st) && NoFaults(ok) && Registers(st, e)
    ensures AllShown(RegisterStep(ok, st, e.i)) <==> !Differs(st, st.tasks[e.i].todo[0])
  {
    var s, st', latest := st.tasks[e.i].todo[0], RegisterStep(ok, st, e.i), |st.heap|;
    var made := st.(heap := st.heap + [s]);
    OwnCall(made, ok, Register, Some(latest), s);
    assert Own(made) == Own(st);
    assert st'.log == CallRegistry(made, ok, Register, Some(latest), s).log;
    assert Own(st') == Own(st)[s.id := s];
    forall ref: Ref
      ensures Held(st', ref) <==> Held(st, ref) || ref == latest
      ensures Held(st, ref) ==> ref < latest && (Shown(st', ref) <==> st.heap[ref].id != s.id || st.heap[ref] == s)
    {
      HeldAfterRegister(ok, st, e, ref);
      if Held(st, ref) {
        assert Shown(st, ref) && st'.heap[ref] == st.heap[ref];
      }
    }
    assert Shown(st', latest);
  }

  // ---------------------------------------------------------------- the listing loop of a sync

  /** A service as it was, or on the IP. */
  ghost predicate Stays(st: State, now: State, ip: string)
  {
    && now.services == st.services && now.dead == st.dead && |now.heap| == |st.heap|
    && (forall r :: 0 <= r < |st.heap| ==> now.heap[r] == st.heap[r] || now.heap[r] == WithIP(st.heap[r], ip))
    && (forall ref: Ref :: Held(now, ref) <==> Held(st, ref))
  }

  lemma HeldSame(st: State, st': State, ref: Ref)
    requires st'.services == st.services && st'.dead == st.dead && OnlySpawns(st, st')
    ensures Held(st', ref) <==> Held(st, ref)
  {
    assert forall c :: Goes(st', c, ref) <==> Goes(st, c, ref);
    assert forall j :: 0 <= j < |st.tasks| ==> st'.tasks[j] == st.tasks[j];
    assert forall j :: |st.tasks| <= j < |st'.tasks| ==> !Holds(st'.tasks[j], ref);
  }

  /** One move, of the only object held with its ID. */
  lemma MoveShows(now: State, ok: Outcomes, r: Ref, ip: string)
    requires AllShown(now) && NoFaults(ok) && r < |now.heap| && ip != "" && Held(now, r)
    requires now.heap[r].ip != ip ==> !HasSecond(now, r)
    ensures AllShown(Reregister(now, ok, r, ip))
  {
    var s, t := now.heap[r], WithIP(now.heap[r], ip);
    if s.ip != ip {
      var st1 := CallRegistry(now, ok, Deregister, Some(r), s);
      var st2, st' := st1.(heap := st1.heap[r := t]), Reregister(now, ok, r, ip);
      OwnCall(now, ok, Deregister, Some(r), s);
      assert Own(st2) == Own(st1);
      OwnCall(st2, ok, Register, Some(r), t);
      assert Own(st') == (Own(now) - {s.id})[s.id := t];
      forall ref: Ref | Held(st', ref)
        ensures Shown(st', ref)
      {
        HeldSame(now, st', ref);
        assert Shown(now, ref);
        assert !Second(now, r, ref);
      }
    }
  }

  lemma PlainShows(now: State, ok: Outcomes, r: Ref)
    requires AllShown(now) && NoFaults(ok) && r < |now.heap| && Held(now, r)
    ensures AllShown(Reregister(now, ok, r, "")) && Reregister(now, ok, r, "").heap == now.heap
  {
    var st' := Reregister(now, ok, r, "");
    OwnCall(now, ok, Register, Some(r), now.heap[r]);
    assert Shown(now, r);
    assert Own(st') == Own(now);
    forall ref: Ref | Held(st', ref)
      ensures Shown(st', ref)
    {
      HeldSame(now, st', ref);
      assert Shown(now, ref);
    }
  }

  /** What has not moved yet is as alone with its ID as it was before the sync. */
  lemma StillAlone(st: State, now: State, c: string, ip: string)
    requires Valid(st) && Stays(st, now, ip) && c in st.services && |st.services[c]| == 1 && ip != ""
    ensures var r := st.services[c][0];
            r < |now.heap| && (now.heap[r].ip != ip && HasSecond(now, r) ==> Moves(st, c, ip))
  {
    var r := st.services[c][0];
    assert ValidRefs(st.services[c], |st.heap|);
    if now.heap[r].ip != ip && HasSecond(now, r) {
      var ref: Ref :| Second(now, r, ref);
      assert Second(st, r, ref);
    }
  }

  lemma StaysThrough(st: State, now: State, next: State, ip: string)
    requires Stays(st, now, ip) && OnlySpawns(now, next) && next.services == now.services && next.dead == now.dead
    requires |next.heap| == |now.heap|
    requires forall r :: 0 <= r < |now.heap| ==> next.heap[r] == now.heap[r] || next.heap[r] == WithIP(now.heap[r], ip)
    ensures Stays(st, next, ip)
  {
    forall ref: Ref
      ensures Held(next, ref) <==> Held(st, ref)
    {
      HeldSame(now, next, ref);
    }
  }

  lemma ReregisterStays(now: State, ok: Outcomes, r: Ref, ip: string)
    requires r < |now.heap|
    ensures var next := Reregister(now, ok, r, ip);
            && OnlySpawns(now, next) && next.services == now.services && next.dead == now.dead
            && |next.heap| == |now.heap|
            && forall x :: 0 <= x < |now.heap| ==>
                 next.heap[x] == now.heap[x] || next.heap[x] == WithIP(now.heap[x], ip)
  {
  }

  /** What the loop keeps; it keeps what is shown unless it splits. */
  lemma {:induction false} ListingShows(cfg: Config, st: State, ok: Outcomes, listing: seq<string>, ip: string)
    requires Inv(cfg, st) && Valid(st) && AllShown(st) && NoFaults(ok)
    ensures Stays(st, SyncListed(st, ok, listing, ip), ip)
    ensures !Splits(st, listing, ip) ==> AllShown(SyncListed(st, ok, listing, ip))
  {
    if listing != [] {
      var front, c := listing[..|listing| - 1], listing[|listing| - 1];
      assert listing == front + [c];
      ListingShows(cfg, st, ok, front, ip);
      var now := SyncListed(st, ok, front, ip);
      if Tracked(now, c) == [] {
        UntrackedShows(st, now, c, ip);
      } else {
        assert EntryOk(st, c, st.services[c]);
        TrackedShows(cfg, st, now, ok, listing, c, ip);
      }
    }
  }

  lemma UntrackedShows(st: State, now: State, c: string, ip: string)
    requires Stays(st, now, ip)
    ensures var next := Spawned(now, AddStart(c, ip));
            Stays(st, next, ip) && (AllShown(now) ==> AllShown(next))
  {
    var next := Spawned(now, AddStart(c, ip));
    StaysThrough(st, now, next, ip);
    assert Own(next) == Own(now);
    forall ref: Ref | AllShown(now) && Held(next, ref)
      ensures Shown(next, ref)
    {
      HeldSame(now, next, ref);
      assert Shown(now, ref);
    }
  }

  lemma TrackedShows(cfg: Config, st: State, now: State, ok: Outcomes, listing: seq<string>, c: string, ip: string)
    requires Valid(st) && Valid(now) && Stays(st, now, ip) && NoFaults(ok)
    requires c in listing && c in st.services && EntryOk(st, c, st.services[c])
    ensures var next := ReregisterAll(now, ok, Tracked(now, c), ip);
            Stays(st, next, ip) && (AllShown(now) && !Splits(st, listing, ip) ==> AllShown(next))
  {
    var refs := st.services[c];
    var r := refs[0];
    assert refs[..0] == [] && ReregisterAll(now, ok, refs[..0], ip) == now;
    ReregisterStays(now, ok, r, ip);
    StaysThrough(st, now, Reregister(now, ok, r, ip), ip);
    if AllShown(now) && !Splits(st, listing, ip) {
      assert Goes(now, c, r);
      if ip == "" {
        PlainShows(now, ok, r);
      } else {
        StillAlone(st, now, c, ip);
        MoveShows(now, ok, r, ip);
      }
    }
  }

  // ---------------------------------------------------------------- a whole sync

  /** A fault-free listing loop brings a tracked service of a listed container to the IP. */
  lemma {:induction false} ListedArrive(cfg: Config, st: State, ok: Outcomes, listing: seq<string>, ip: string,
                                        c: string)
    requires Inv(cfg, st) && Valid(st) && NoFaults(ok) && ip != "" && c in listing && c in st.services
    ensures |st.services[c]| == 1 && SyncListed(st, ok, listing, ip).heap[st.services[c][0]].ip == ip
  {
    assert EntryOk(st, c, st.services[c]);
    var front, last := listing[..|listing| - 1], listing[|listing| - 1];
    if c in front {
      ListedArrive(cfg, st, ok, front, ip, c);
    } else {
      assert listing == front + [last];
    }
    if last in st.services {
      InvSingle(cfg, st);
      ReregisterSingle(SyncListed(st, ok, front, ip), ok, last, ip);
    }
  }

  /** An object that no live entry has is not moved. */
  lemma {:induction false} UntrackedStays(st: State, ok: Outcomes, listing: seq<string>, ip: string, ref: Ref)
    requires Valid(st) && ref < |st.heap| && forall c :: !InEntry(st.services, c, ref)
    ensures SyncListed(st, ok, listing, ip).heap[ref] == st.heap[ref]
  {
    if listing != [] {
      var front, c := listing[..|listing| - 1], listing[|listing| - 1];
      UntrackedStays(st, ok, front, ip, ref);
      var now := SyncListed(st, ok, front, ip);
      assert !InEntry(st.services, c, ref);
      UntouchedByMoves(now, ok, Tracked(now, c), ip, ref);
    }
  }

  lemma {:induction false} UntouchedByMoves(st: State, ok: Outcomes, refs: seq<Ref>, ip: string, ref: Ref)
    requires ValidRefs(refs, |st.heap|) && ref < |st.heap| && ref !in refs
    ensures ReregisterAll(st, ok, refs, ip).heap[ref] == st.heap[ref]
  {
    if refs != [] {
      UntouchedByMoves(st, ok, refs[..|refs| - 1], ip, ref);
      assert refs[|refs| - 1] in refs;
    }
  }

  /** Where the registry shows everything, the second holder of a tracked service's ID is no live entry. */
  lemma SecondIsUntracked(cfg: Config, st: State, c: string, ref: Ref)
    requires Inv(cfg, st) && AllShown(st) && c in st.services && EntryOk(st, c, st.services[c])
    requires Second(st, st.services[c][0], ref)
    ensures forall d :: !InEntry(st.services, d, ref)
  {
    var r := st.services[c][0];
    assert Goes(st, c, r);
    ShownAlike(st, ref, r);
    forall d
      ensures !InEntry(st.services, d, ref)
    {
      if InEntry(st.services, d, ref) {
        OwnerOf(cfg, st, c, r);
        OwnerOf(cfg, st, d, ref);
      }
    }
  }

  /** The moved service and the second holder of its ID, which stays behind. */
  lemma SplitPair(cfg: Config, st: State, ok: Outcomes, listing: seq<string>, ip: string, c: string, ref: Ref)
    requires Inv(cfg, st) && Valid(st) && AllShown(st) && NoFaults(ok) && ip != ""
    requires c in listing && c in st.services && EntryOk(st, c, st.services[c])
    requires st.heap[st.services[c][0]].ip != ip
    requires Second(st, st.services[c][0], ref)
    ensures Unlike(SyncListed(st, ok, listing, ip), ref, st.services[c][0])
  {
    var r := st.services[c][0];
    SecondIsUntracked(cfg, st, c, ref);
    UntrackedStays(st, ok, listing, ip, ref);
    ListedArrive(cfg, st, ok, listing, ip, c);
    ListingShows(cfg, st, ok, listing, ip);
    assert Goes(st, c, r);
    ShownAlike(st, ref, r);
  }

  /** A sync that splits leaves two held objects of one ID with two values. */
  lemma SplitShows(cfg: Config, st: State, ok: Outcomes, listing: seq<string>, ip: string) returns (ref: Ref, r: Ref)
    requires Inv(cfg, st) && Valid(st) && AllShown(st) && NoFaults(ok) && Splits(st, listing, ip)
    ensures Held(st, ref) && Held(st, r) && Unlike(SyncListed(st, ok, listing, ip), ref, r)
  {
    var c :| c in listing && Moves(st, c, ip);
    r := st.services[c][0];
    ref :| Second(st, r, ref);
    assert EntryOk(st, c, st.services[c]) && Goes(st, c, r);
    SplitPair(cfg, st, ok, listing, ip, c, ref);
  }

  /** Two objects with one ID and two values. */
  predicate Unlike(st: State, ref: Ref, r: Ref)
  {
    ref < |st.heap| && r < |st.heap| && st.heap[ref].id == st.heap[r].id && st.heap[ref] != st.heap[r]
  }

  lemma UnlikeNotShown(st: State, ref: Ref, r: Ref)
    requires Held(st, ref) && Held(st, r) && Unlike(st, ref, r)
    ensures !AllShown(st)
  {
    if AllShown(st) {
      ShownAlike(st, ref, r);
    }
  }

  /** After the listing loop a sync only loses entries. */
  lemma SyncAfterListing(cfg: Config, st: State, ok: Outcomes, ip: string, answers: SyncAnswers)
    requires Valid(st) && NoFaults(ok) && answers.listing.Some?
    ensures var a, r := SyncListed(st, ok, answers.listing.value, ip), Sync(cfg, st, ok, ip, answers);
            r.heap == a.heap && Within(Own(r), Own(a))
  {
    var a := SyncListed(st, ok, answers.listing.value, ip);
    if cfg.cleanup && answers.nonExited.Some? {
      var b := SpawnRemovals(a, answers.order, answers.nonExited.value);
      assert Own(b) == Own(a);
      if answers.ext.Some? {
        CleanupWithin(cfg, b, ok, answers.ext.value);
      }
    }
  }

  lemma SyncShows(cfg: Config, ok: Outcomes, st: State, i: nat, answers: SyncAnswers)
    requires Inv(cfg, st) && Valid(st) && AllShown(st) && NoFaults(ok) && i < |st.tasks| && st.tasks[i].SyncStart?
    requires answers.listing.Some?
    ensures AllShown(SyncStep(cfg, ok, st, i, answers)) <==>
            !StrandedByCleanup(cfg, st, answers) && !Splits(st, answers.listing.value, st.tasks[i].ip)
  {
    var ip, listing, st' := st.tasks[i].ip, answers.listing.value, SyncStep(cfg, ok, st, i, answers);
    var a := SyncListed(st, ok, listing, ip);
    ShownIsFiled(st);
    SyncStrandsIff(cfg, ok, st, i, answers);
    SyncAfterListing(cfg, st, ok, ip, answers);
    assert Own(st') == Own(Sync(cfg, st, ok, ip, answers));
    ListingShows(cfg, st, ok, listing, ip);
    forall ref: Ref
      ensures Held(st', ref) <==> Held(st, ref)
    {
      HeldAfterSync(cfg, ok, st, i, answers, ref);
    }
    if Splits(st, listing, ip) {
      var ref, r := SplitShows(cfg, st, ok, listing, ip);
      UnlikeNotShown(st', ref, r);
    } else {
      ShownIfFiled(a, st');
    }
  }

  // ---------------------------------------------------------------- all steps, all runs

  /** A step keeps the registry showing every held service if and only if it neither strands nor contradicts one. */
  lemma StepShowsIff(cfg: Config, ok: Outcomes, st: State, e: Event)
    requires Inv(cfg, st) && Valid(st) && Enabled(st, e) && AllShown(st) && NoFaults(ok)
    ensures AllShown(Step(cfg, ok, st, e)) <==> !Strands(cfg, st, e) && !Contradicts(st, e)
  {
    if Registers(st, e) {
      RegisterShows(cfg, ok, st, e);
    } else if e.Run? && st.tasks[e.i].SyncStart? {
      if e.answer.answers.listing.Some? {
        SyncShows(cfg, ok, st, e.i, e.answer.answers);
      } else {
        SilentSyncShows(cfg, ok, st, e);
      }
    } else {
      OtherShows(cfg, ok, st, e);
    }
  }

  /** A sync whose listing failed does nothing. */
  lemma SilentSyncShows(cfg: Config, ok: Outcomes, st: State, e: Event)
    requires Valid(st) && Enabled(st, e) && AllShown(st)
    requires e.Run? && st.tasks[e.i].SyncStart? && e.answer.answers.listing.None?
    ensures AllShown(Step(cfg, ok, st, e))
  {
    var st' := Step(cfg, ok, st, e);
    assert Own(st') == Own(st);
    forall ref: Ref | Held(st', ref)
      ensures Shown(st', ref)
    {
      HeldAfterSync(cfg, ok, st, e.i, e.answer.answers, ref);
      assert Shown(st, ref);
    }
  }

  /** In every fault-free run, as long as no step strands or contradicts a service, the registry that the run's
      own calls have made shows every tracked service as it is, and no two tracked services share an ID. */
  lemma {:induction false} ShownInEveryRun(cfg: Config, ok: Outcomes, states: seq<State>, events: seq<Event>, k: nat)
    requires IsRun(cfg, ok, states, events) && k < |states| && NoFaults(ok)
    requires forall j :: 0 <= j < k ==> !Strands(cfg, states[j], events[j]) && !Contradicts(states[j], events[j])
    ensures AllShown(states[k])
    ensures Single(states[k]) && AllRegistered(Id, Own(states[k]), states[k]) && DistinctKeys(Id, states[k])
  {
    if k > 0 {
      ShownInEveryRun(cfg, ok, states, events, k - 1);
      RunInv(cfg, ok, states, events, k - 1);
      StepShowsIff(cfg, ok, states[k - 1], events[k - 1]);
    }
    RunInv(cfg, ok, states, events, k);
    ShownIsRegistered(cfg, states[k]);
  }

  lemma ShownIsRegistered(cfg: Config, st: State)
    requires Inv(cfg, st) && AllShown(st)
    ensures Single(st) && AllRegistered(Id, Own(st), st) && DistinctKeys(Id, st)
  {
    InvSingle(cfg, st);
    forall c | c in st.services
      ensures RegisteredAs(Id, Own(st), ServiceOf(st, c)) && ServiceOf(st, c).origin.containerID == c
    {
      assert Goes(st, c, st.services[c][0]);
      assert Shown(st, st.services[c][0]);
      OwnerOf(cfg, st, c, st.services[c][0]);
    }
  }

  /** So such a run meets by itself what a sync needs: in it, a whole sync with an IP against a registry that
      reports what it has keeps every tracked service with a generated ID registered as it now is. */
  lemma SyncInItsOwnRun(cfg: Config, ok: Outcomes, states: seq<State>, events: seq<Event>, k: nat,
                        ip: string, answers: SyncAnswers)
    requires IsRun(cfg, ok, states, events) && k < |states| && NoFaults(ok) && ip != ""
    requires forall j :: 0 <= j < k ==> !Strands(cfg, states[j], events[j]) && !Contradicts(states[j], events[j])
    requires cfg.cleanup && answers.listing.Some? && answers.nonExited.Some? && answers.ext.Some?
    ensures var st := states[k];
            && Valid(st) && Single(st)
            && ((&& (forall c :: c in st.services ==> GeneratedId(cfg, ServiceOf(st, c)))
                 && Reports(Own(SyncListed(st, ok, answers.listing.value, ip)), answers.ext.value)) ==>
                  var r := Sync(cfg, st, ok, ip, answers);
                  && Single(r) && AllRegistered(Id, Own(r), r)
                  && forall c :: c in answers.listing.value && c in st.services ==> ServiceOf(r, c).ip == ip)
  {
    var st, listing := states[k], answers.listing.value;
    RunSingle(cfg, ok, states, events, k);
    ShownInEveryRun(cfg, ok, states, events, k);
    if && (forall c :: c in st.services ==> GeneratedId(cfg, ServiceOf(st, c)))
       && Reports(Own(SyncListed(st, ok, listing, ip)), answers.ext.value)
    {
      SyncListedExtends(st, ok, listing, ip);
      SyncExtends(cfg, st, ok, ip, answers);
      RegistryOnward(Id, map[], 0, st, SyncListed(st, ok, listing, ip));
      RegistryOnward(Id, map[], 0, st, Sync(cfg, st, ok, ip, answers));
      SyncWithCleanup(cfg, Own(st), st, ok, ip, answers);
    }
  }

  // ---------------------------------------------------------------- a run that contradicts

  /** Two adds of a container that get different services under one ID: both register, the first appends.  The
      container tracks the one and the registry shows the other; a sync with the first one's IP passes it over. */
  lemma OtherOneShown(cfg: Config, ok: Outcomes, s: Service, t: Service)
    requires NoFaults(ok) && s != t && s.id == t.id && s.origin.containerID == t.origin.containerID
    ensures Reachable(cfg, ok, OneAppended(s, t)) && Tracked(OneAppended(s, t), s.origin.containerID) == [0]
    ensures RegisteredAs(Id, Own(OneAppended(s, t)), t) && !RegisteredAs(Id, Own(OneAppended(s, t)), s)
  {
    OneAppendedReachable(cfg, ok, s, t);
    var one := CallRegistry(Initial, ok, Register, Some(0), s);
    OwnCall(Initial, ok, Register, Some(0), s);
    OwnCall(one, ok, Register, Some(1), t);
    assert OneAppended(s, t).log == CallRegistry(one, ok, Register, Some(1), t).log;
  }
}
