/** Load balancer data of a container, cached from its first lookup until the container is
    deregistered (aws/cache.go, aws/elb.go, eureka/eureka.go).
  */
module ElbCache {
  import opened Options
  import opened UniqueId

  /** `LoadBalancerRegistrationInfo` */
  datatype LbInfo = LbInfo(dnsName: string, port: int, elbEndpoint: string, targetGroupArn: string, ipAddress: string,
                           vipAddress: string)

  /** What is behind the pointer that the cache stores. */
  class LbRecord {
    var info: LbInfo

    constructor (info: LbInfo)
      ensures this.info == info
    {
      this.info := info;
    }
  }

  /** Values of the one cache: a container's record, or the result of some other API call. */
  datatype Value = Record(record: LbRecord) | ApiResult(result: int)

  /** An entry without a deadline never expires. */
  datatype Entry<+V> = Entry(value: V, deadline: Option<int>)

  predicate Live<V>(entry: Entry<V>, now: int)
  {
    entry.deadline.None? || now <= entry.deadline.value
  }

  function ContainerKey(c: string): string
  {
    "container_" + c
  }

  /** The ELB attributes of a service; explicit ones give host, port and target group as text. */
  datatype Explicit = Explicit(hostname: string, port: string, targetGroup: string)
  datatype Attrs = Attrs(containerID: string, explicit: Option<Explicit>, elbOnly: bool)

  /** `strconv.Atoi` with its error ignored. */
  type Atoi = string -> int

  function ExplicitInfo(atoi: Atoi, e: Explicit): LbInfo
  {
    LbInfo(e.hostname, atoi(e.port), e.hostname + "_" + e.port, e.targetGroup, "", "")
  }

  /** What `getELBMetadata` makes of a looked-up record. */
  function Completed(info: LbInfo): LbInfo
  {
    info.(elbEndpoint := info.dnsName + "_" + Itoa(info.port), ipAddress := "")
  }

  // ---------------------------------------------------------------- on values

  /** Values as seen through the pointers. */
  datatype Seen = LoadBalancer(info: LbInfo) | Other(result: int)

  datatype Contents = Contents(entries: map<string, Entry<Seen>>, now: int)

  function Lookup(st: Contents, key: string): Option<Seen>
  {
    if key in st.entries && Live(st.entries[key], st.now) then Some(st.entries[key].value) else None
  }

  /** The other cached calls use keys of these shapes. */
  predicate IsApiKey(key: string)
  {
    key == "tg" || "tg_arn_" <= key || "lsnr_" <= key || "lb_" <= key
  }

  lemma ContainerKeysApart(c: string, d: string, key: string)
    ensures ContainerKey(c) == ContainerKey(d) ==> c == d
    ensures IsApiKey(key) ==> key != ContainerKey(c)
  {
    assert ContainerKey(c)[|"container_"|..] == c && ContainerKey(d)[|"container_"|..] == d;
    assert ContainerKey(c)[0] == 'c' && "tg"[0] == 't' && "tg_arn_"[0] == 't' && "lsnr_"[0] == 'l' && "lb_"[0] == 'l';
  }

  /** What a register or heartbeat that nothing overlaps makes of the cache, and the data it gets. */
  function Resolved(atoi: Atoi, st: Contents, c: string, explicit: Option<Explicit>, lookup: Option<LbInfo>)
    : (Contents, Option<LbInfo>)
  {
    var key := ContainerKey(c);
    if explicit.Some? then
      var info := ExplicitInfo(atoi, explicit.value);
      (Put(st, key, Entry(LoadBalancer(info), None)), Some(info))
    else
      match Lookup(st, key)
      case Some(LoadBalancer(info)) => (st, Some(Completed(info)))
      case Some(Other(_)) => (st, None)
      case None =>
        if lookup.None? then (st, None)
        else (Put(st, key, Entry(LoadBalancer(lookup.value), None)), Some(Completed(lookup.value)))
  }

  function Put(st: Contents, key: string, entry: Entry<Seen>): Contents
  {
    st.(entries := st.entries[key := entry])
  }

  function Forgotten(st: Contents, c: string): Contents
  {
    st.(entries := st.entries - {ContainerKey(c)})
  }

  // ---------------------------------------------------------------- the cache object

  class Cache {
    var entries: map<string, Entry<Value>>
    var now: int

    constructor ()
      ensures entries == map[]
    {
      entries, now := map[], 0;
    }

    /** The records the cache points to. */
    ghost function Records(): set<LbRecord>
      reads this
    {
      set k | k in entries && entries[k].value.Record? :: entries[k].value.record
    }

    /** The contents as seen through the pointers. */
    ghost function View(): Contents
      reads this, Records()
    {
      Contents(map k | k in entries :: Entry(if entries[k].value.Record? then LoadBalancer(entries[k].value.record.info)
                                          else Other(entries[k].value.result), entries[k].deadline), now)
    }

    function Get(key: string): Option<Value>
      reads this
    {
      if key in entries && Live(entries[key], now) then Some(entries[key].value) else None
    }

    method Set(key: string, value: Value, deadline: Option<int>)
      modifies this`entries
      ensures entries == old(entries)[key := Entry(value, deadline)]
    {
      entries := entries[key := Entry(value, deadline)];
    }

    /** `RemoveKeyFromCache` */
    method Remove(key: string)
      modifies this`entries
      ensures entries == old(entries) - {key}
      ensures View() == old(View()).(entries := old(View()).entries - {key})
    {
      entries := entries - {key};
      assert View().entries == old(View()).entries - {key};
    }

    /** The part of the Eureka adapter's Deregister that concerns the cache. */
    method ForgetContainer(c: string)
      modifies this`entries
      ensures View() == Forgotten(old(View()), c)
    {
      Remove(ContainerKey(c));
    }

    /** `GetAndCache` for a container's record; `lookup` is what the lookup would return if it ran. */
    method GetAndCacheRecord(key: string, lookup: Option<LbInfo>) returns (r: Option<Value>)
      modifies this`entries
      ensures old(Get(key)).Some? || lookup.None? ==>
                r == old(Get(key)) && entries == old(entries) && View() == old(View())
      ensures old(Get(key)).None? && lookup.Some? ==>
                && r.Some? && r.value.Record? && fresh(r.value.record) && r.value.record.info == lookup.value
                && View() == Put(old(View()), key, Entry(LoadBalancer(lookup.value), None))
    {
      r := Get(key);
      if r.None? && lookup.Some? {
        var record := new LbRecord(lookup.value);
        r := Some(Record(record));
        Set(key, Record(record), None);
        assert View().entries == old(View()).entries[key := Entry(LoadBalancer(lookup.value), None)];
      } else {
        assert View().entries == old(View()).entries;
      }
    }

    /** `getELBMetadata`: its frame holds no record, so no cached record is ever altered. */
    method GetElbMetadata(atoi: Atoi, attrs: Attrs, lookup: Option<LbInfo>) returns (r: Option<LbInfo>)
      modifies this`entries
      ensures (View(), r) == Resolved(atoi, old(View()), attrs.containerID, attrs.explicit, lookup)
    {
      var key := ContainerKey(attrs.containerID);
      if attrs.explicit.Some? {
        var e := attrs.explicit.value;
        var info := LbInfo("", 0, "", "", "", "");
        info := info.(port := atoi(e.port));
        info := info.(dnsName := e.hostname);
        info := info.(targetGroupArn := e.targetGroup);
        info := info.(elbEndpoint := e.hostname + "_" + e.port);
        var record := new LbRecord(info);
        Set(key, Record(record), None);
        assert View().entries == old(View()).entries[key := Entry(LoadBalancer(info), None)];
        return Some(info);
      }
      var cached := GetAndCacheRecord(key, lookup);
      if cached.None? || !cached.value.Record? {
        return None;
      }
      var copy := cached.value.record.info;
      copy := copy.(elbEndpoint := copy.dnsName + "_" + Itoa(copy.port));
      copy := copy.(ipAddress := "");
      return Some(copy);
    }
  }

  // ---------------------------------------------------------------- the registration

  datatype AmazonMetadata = AmazonMetadata(instanceID: string, publicHostname: string, hostName: string,
                                           others: map<string, string>)

  datatype Instance = Instance(app: string, hostName: string, port: int, ipAddr: string, vipAddress: string,
                               metadata: map<string, string>, dataCenter: AmazonMetadata,
                               renewalInSecs: int, durationInSecs: int)

  /** The steps of `mutateRegistrationInfo` on a registration whose data was found. */
  method MutateRegistration(registration: Instance, info: LbInfo, elbOnly: bool) returns (r: Instance)
    ensures r == Mutated(registration, info, elbOnly)
  {
    r := registration;
    r := r.(ipAddr := info.ipAddress);
    r := r.(vipAddress := info.vipAddress);
    r := r.(port := info.port);
    r := r.(hostName := info.dnsName);
    r := r.(metadata := r.metadata["has-elbv2" := "true"]);
    r := r.(metadata := r.metadata["elbv2-endpoint" := info.elbEndpoint]);
    r := r.(vipAddress := r.ipAddr);
    if elbOnly {
      r := r.(dataCenter := AmazonMetadata(GetUniqueID(r.hostName, r.port), r.hostName, r.hostName, map[]));
      r := r.(metadata := r.metadata["container-id" := ""]);
      r := r.(metadata := r.metadata["container-name" := ""]);
      r := r.(metadata := r.metadata["aws-instance-id" := ""]);
    }
    r := r.(renewalInSecs := 0, durationInSecs := 35);
  }

  function Labelled(metadata: map<string, string>, info: LbInfo, elbOnly: bool): map<string, string>
  {
    var m := metadata["has-elbv2" := "true"]["elbv2-endpoint" := info.elbEndpoint];
    if elbOnly then m["container-id" := ""]["container-name" := ""]["aws-instance-id" := ""] else m
  }

  function Mutated(registration: Instance, info: LbInfo, elbOnly: bool): Instance
  {
    Instance(registration.app, info.dnsName, info.port, info.ipAddress, info.ipAddress,
             Labelled(registration.metadata, info, elbOnly),
             if elbOnly then AmazonMetadata(GetUniqueID(info.dnsName, info.port), info.dnsName, info.dnsName, map[])
             else registration.dataCenter,
             0, 35)
  }

  /** How long an entry is found: without a deadline always, with one up to it, however often it is asked for. */
  lemma FoundUntil(st: Contents, key: string, value: Seen, deadline: Option<int>, seconds: nat)
    ensures var later := Put(st, key, Entry(value, deadline)).(now := st.now + seconds);
            Lookup(later, key) == if deadline.Some? && st.now + seconds > deadline.value then None else Some(value)
  {
  }

  /** What a call that nothing overlaps gets, in terms of the attributes, the cache and the lookup: the explicit host
      and port; else those of the live entry, whatever a lookup would find; else those that the lookup finds, which
      are then the entry; else nothing.  The endpoint is always the host, an underscore and the port. */
  lemma WhatIsResolved(atoi: Atoi, st: Contents, c: string, explicit: Option<Explicit>, lookup: Option<LbInfo>)
    ensures var (st', r) := Resolved(atoi, st, c, explicit, lookup);
            var key := "container_" + c;
            match explicit
            case Some(e) =>
              && r.Some? && r.value.dnsName == e.hostname && r.value.port == atoi(e.port)
              && r.value.targetGroupArn == e.targetGroup && r.value.elbEndpoint == e.hostname + "_" + e.port
              && Lookup(st', key) == Some(LoadBalancer(r.value))
            case None =>
              var live := Lookup(st, key);
              && (r.Some? <==> if live.Some? then live.value.LoadBalancer? else lookup.Some?)
              && (r.Some? ==>
                    var info := if live.Some? then live.value.info else lookup.value;
                    && r.value.dnsName == info.dnsName && r.value.port == info.port
                    && r.value.targetGroupArn == info.targetGroupArn && r.value.vipAddress == info.vipAddress
                    && r.value.ipAddress == "" && r.value.elbEndpoint == info.dnsName + "_" + Itoa(info.port)
                    && Lookup(st', key) == Some(LoadBalancer(info)))
              && (live.Some? || lookup.None? ==> st' == st)
  {
  }

  /** The label of the endpoint is the identity of the registration, for every looked-up load balancer and for every
      explicit one whose port is a number as Go prints it; an ELB-only registration is also the instance ID. */
  lemma EndpointIsIdentity(registration: Instance, info: LbInfo, atoi: Atoi, e: Explicit, elbOnly: bool)
    requires e.port == Itoa(atoi(e.port))
    ensures var r := Mutated(registration, Completed(info), elbOnly);
            && "elbv2-endpoint" in r.metadata && r.metadata["elbv2-endpoint"] == GetUniqueID(r.hostName, r.port)
            && (elbOnly ==> r.dataCenter.instanceID == GetUniqueID(r.hostName, r.port))
    ensures var r := Mutated(registration, ExplicitInfo(atoi, e), elbOnly);
            && "elbv2-endpoint" in r.metadata && r.metadata["elbv2-endpoint"] == GetUniqueID(r.hostName, r.port)
            && (elbOnly ==> r.dataCenter.instanceID == GetUniqueID(r.hostName, r.port))
  {
  }

  /** The labels by which a registration tells which container it is. */
  predicate TellsContainer(k: string)
  {
    k == "container-id" || k == "container-name" || k == "aws-instance-id"
  }

  /** Field by field: host, port and addresses are the load balancer's, the lease is short, and an ELB-only
      registration keeps nothing of the container, while any other keeps all it had. */
  lemma MutatedFields(registration: Instance, info: LbInfo, elbOnly: bool, k: string)
    ensures var r := Mutated(registration, info, elbOnly);
            && r.app == registration.app && r.hostName == info.dnsName && r.port == info.port
            && r.ipAddr == info.ipAddress && r.vipAddress == info.ipAddress && r.durationInSecs == 35
            && "has-elbv2" in r.metadata && r.metadata["has-elbv2"] == "true"
            && (elbOnly && TellsContainer(k) ==> k in r.metadata && r.metadata[k] == "")
            && (elbOnly ==> r.dataCenter.publicHostname == info.dnsName && r.dataCenter.hostName == info.dnsName
                            && r.dataCenter.others == map[])
            && (!elbOnly ==> r.dataCenter == registration.dataCenter)
            && (k != "has-elbv2" && k != "elbv2-endpoint" && !(elbOnly && TellsContainer(k)) ==>
                  (k in r.metadata <==> k in registration.metadata)
                  && (k in registration.metadata ==> r.metadata[k] == registration.metadata[k]))
  {
    assert "has-elbv2"[0] == 'h' && "elbv2-endpoint"[0] == 'e' && "container-id"[0] == 'c'
        && "container-name"[0] == 'c' && "aws-instance-id"[0] == 'a';
  }

  /** Mutating twice is mutating once, and the identity depends on the load balancer alone. */
  lemma MutatedTwice(registration: Instance, other: Instance, info: LbInfo, elbOnly: bool)
    ensures Mutated(Mutated(registration, info, elbOnly), info, elbOnly) == Mutated(registration, info, elbOnly)
    ensures var r, o := Mutated(registration, info, elbOnly), Mutated(other, info, elbOnly);
            GetUniqueID(r.hostName, r.port) == GetUniqueID(o.hostName, o.port)
  {
    var once := Mutated(registration, info, elbOnly);
    var twice := Mutated(once, info, elbOnly);
    assert twice.metadata == once.metadata;
  }

  /** Registrations sent for two containers share a Eureka entry exactly when they resolve to the same endpoint. */
  lemma SharedEntryIff(r: Instance, o: Instance, info: LbInfo, info': LbInfo, elbOnly: bool, elbOnly': bool)
    ensures var m, n := Mutated(r, info, elbOnly), Mutated(o, info', elbOnly');
            GetUniqueID(m.hostName, m.port) == GetUniqueID(n.hostName, n.port) <==>
              info.dnsName == info'.dnsName && info.port == info'.port
  {
    if GetUniqueID(info.dnsName, info.port) == GetUniqueID(info'.dnsName, info'.port) {
      UniqueIdInjective(info.dnsName, info.port, info'.dnsName, info'.port);
    }
  }
}
