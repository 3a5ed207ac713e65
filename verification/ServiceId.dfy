/** Service IDs: the printer in `newService` and the pattern that cleanup reads them with
    (bridge/bridge.go).
  */
module ServiceId {

  import opened Options

  /** The two groups the pattern captures. */
  datatype Parts = Parts(host: string, name: string)

  predicate IsDigit(c: char) { '0' <= c <= '9' }

  predicate IsAlnum(c: char) { IsDigit(c) || 'a' <= c <= 'z' || 'A' <= c <= 'Z' }

  predicate IsNameChar(c: char) { IsAlnum(c) || c == '_' || c == '.' || c == '-' }

  /** [0-9]+ */
  predicate Digits(s: string) { s != "" && forall i :: 0 <= i < |s| ==> IsDigit(s[i]) }

  /** [a-zA-Z0-9][a-zA-Z0-9_.-]+ ; also Docker's rule for container names. */
  predicate LegalName(s: string)
  {
    |s| >= 2 && IsAlnum(s[0]) && forall i :: 0 <= i < |s| ==> IsNameChar(s[i])
  }

  /** .+ ; the dot does not match a newline. */
  predicate LegalHost(s: string) { s != "" && '\n' !in s }

  function UdpSuffix(udp: bool): string { if udp then ":udp" else "" }

  /** `hostname:container:port`, with `:udp` appended for a UDP port. */
  function PrintId(host: string, name: string, port: string, portType: string): string
  {
    host + ":" + name + ":" + port + UdpSuffix(portType == "udp")
  }

  /** `id` reads as this host, name, port and protocol. */
  predicate Reads(id: string, parts: Parts, port: string, udp: bool)
  {
    && LegalHost(parts.host) && LegalName(parts.name) && Digits(port)
    && id == parts.host + ":" + parts.name + ":" + port + UdpSuffix(udp)
  }

  /** The language of `^(.+?):([a-zA-Z0-9][a-zA-Z0-9_.-]+):[0-9]+(?::udp)?$`, with its groups. */
  ghost predicate Matches(id: string, parts: Parts)
  {
    exists port, udp :: Reads(id, parts, port, udp)
  }

  // ---------------------------------------------------------------- the matcher

  /** Length of the longest prefix of name characters. */
  function NameRun(s: string): (n: nat)
    ensures n <= |s|
    ensures forall i :: 0 <= i < n ==> IsNameChar(s[i])
    ensures n < |s| ==> !IsNameChar(s[n])
  {
    if s == "" || !IsNameChar(s[0]) then 0 else 1 + NameRun(s[1..])
  }

  predicate PortTail(s: string)
  {
    Digits(s) || (|s| > 4 && s[|s| - 4..] == ":udp" && Digits(s[..|s| - 4]))
  }

  /** Matches what follows the host: the name group takes its whole run, as ':' is no name character. */
  function MatchTail(s: string): Option<string>
  {
    var n := NameRun(s);
    if LegalName(s[..n]) && n < |s| && s[n] == ':' && PortTail(s[n + 1..]) then Some(s[..n]) else None
  }

  /** Lazy host group: tries the hosts `id[..i]`, `id[..i + 1]`, ... in turn. */
  function ParseFrom(id: string, i: nat): Option<Parts>
    requires 1 <= i <= |id|
    decreases |id| - i
  {
    if id[i - 1] == '\n' || i == |id| then None
    else if id[i] == ':' && MatchTail(id[i + 1..]).Some? then Some(Parts(id[..i], MatchTail(id[i + 1..]).value))
    else ParseFrom(id, i + 1)
  }

  /** `serviceIDPattern.FindStringSubmatch`. */
  function ParseId(id: string): Option<Parts>
  {
    if id == "" then None else ParseFrom(id, 1)
  }

  // ---------------------------------------------------------------- correctness

  lemma NoColonAfter(a: string, b: string, s: string)
    requires ':' !in b && s == a + ":" + b
    ensures s[|a|] == ':' && forall k :: |a| < k < |s| ==> s[k] != ':'
  {
    assert forall k :: |a| < k < |s| ==> s[k] == b[k - |a| - 1];
  }

  /** The last colon is determined by the string. */
  lemma LastColon(a: string, b: string, a': string, b': string)
    requires ':' !in b && ':' !in b'
    requires a + ":" + b == a' + ":" + b'
    ensures a == a' && b == b'
  {
    var s := a + ":" + b;
    NoColonAfter(a, b, s);
    NoColonAfter(a', b', s);
    assert a == s[..|a|] && a' == s[..|a'|];
    assert b == s[|a| + 1..] && b' == s[|a'| + 1..];
  }

  /** An ID has one host, one name, one port and one protocol. */
  lemma UniqueReading(host: string, name: string, port: string, udp: bool,
                      host': string, name': string, port': string, udp': bool)
    requires LegalName(name) && Digits(port) && LegalName(name') && Digits(port')
    requires host + ":" + name + ":" + port + UdpSuffix(udp) == host' + ":" + name' + ":" + port' + UdpSuffix(udp')
    ensures host == host' && name == name' && port == port' && udp == udp'
  {
    var x, x' := host + ":" + name, host' + ":" + name';
    var y, y' := x + ":" + port, x' + ":" + port';
    assert y + UdpSuffix(true) == y + ":" + "udp" && y' + UdpSuffix(true) == y' + ":" + "udp";
    assert y + UdpSuffix(false) == y && y' + UdpSuffix(false) == y';
    assert "udp"[0] == 'u' && !Digits("udp");
    if udp && udp' {
      LastColon(y, "udp", y', "udp");
    } else if udp {
      LastColon(y, "udp", x', port');
    } else if udp' {
      LastColon(x, port, y', "udp");
    }
    LastColon(x, port, x', port');
    LastColon(host, name, host', name');
  }

  lemma {:induction false} NameRunIs(name: string, rest: string)
    requires forall i :: 0 <= i < |name| ==> IsNameChar(name[i])
    requires rest != "" ==> !IsNameChar(rest[0])
    ensures NameRun(name + rest) == |name|
  {
    if name == "" {
      assert name + rest == rest;
    } else {
      NameRunIs(name[1..], rest);
      assert (name + rest)[1..] == name[1..] + rest;
    }
  }

  lemma TailMatches(name: string, port: string, udp: bool)
    requires LegalName(name) && Digits(port)
    ensures MatchTail(name + ":" + port + UdpSuffix(udp)) == Some(name)
  {
    var tail := port + UdpSuffix(udp);
    var s := name + ":" + port + UdpSuffix(udp);
    assert s == name + (":" + tail);
    NameRunIs(name, ":" + tail);
    assert s[..|name|] == name && s[|name| + 1..] == tail;
    if udp {
      assert tail[|tail| - 4..] == ":udp" && tail[..|tail| - 4] == port;
    } else {
      assert tail == port;
    }
  }

  predicate TailReads(s: string, name: string, port: string, udp: bool)
  {
    LegalName(name) && Digits(port) && s == name + ":" + port + UdpSuffix(udp)
  }

  lemma TailSound(s: string) returns (port: string, udp: bool)
    requires MatchTail(s).Some?
    ensures TailReads(s, MatchTail(s).value, port, udp)
  {
    var n := NameRun(s);
    var tail := s[n + 1..];
    assert s == s[..n] + ":" + tail;
    udp := !Digits(tail);
    port := if udp then tail[..|tail| - 4] else tail;
    assert tail == port + UdpSuffix(udp);
  }

  lemma HostThenTail(id: string, i: nat, name: string, port: string, udp: bool)
    requires i < |id| && id[i] == ':' && LegalHost(id[..i])
    requires TailReads(id[i + 1..], name, port, udp)
    ensures Reads(id, Parts(id[..i], name), port, udp)
  {
    assert id == id[..i] + ":" + id[i + 1..];
  }

  lemma {:induction false} ParseFromSound(id: string, i: nat)
    requires 1 <= i <= |id| && '\n' !in id[..i - 1]
    ensures ParseFrom(id, i).Some? ==> Matches(id, ParseFrom(id, i).value)
    decreases |id| - i
  {
    assert id[..i] == id[..i - 1] + [id[i - 1]];
    if id[i - 1] == '\n' || i == |id| {
    } else if id[i] == ':' && MatchTail(id[i + 1..]).Some? {
      var port, udp := TailSound(id[i + 1..]);
      HostThenTail(id, i, MatchTail(id[i + 1..]).value, port, udp);
    } else {
      ParseFromSound(id, i + 1);
    }
  }

  lemma ReadsAt(id: string, parts: Parts, port: string, udp: bool)
    requires Reads(id, parts, port, udp)
    ensures |parts.host| < |id| && id[|parts.host|] == ':'
    ensures id[..|parts.host|] == parts.host
    ensures MatchTail(id[|parts.host| + 1..]) == Some(parts.name)
  {
    assert id[|parts.host| + 1..] == parts.name + ":" + port + UdpSuffix(udp);
    TailMatches(parts.name, port, udp);
  }

  lemma {:induction false} ParseFromComplete(id: string, i: nat, host: string)
    requires 1 <= i <= |host| < |id| && id[..|host|] == host && LegalHost(host)
    requires id[|host|] == ':' && MatchTail(id[|host| + 1..]).Some?
    ensures ParseFrom(id, i).Some?
    decreases |host| - i
  {
    assert id[i - 1] == host[i - 1];
    if i < |host| {
      ParseFromComplete(id, i + 1, host);
    }
  }

  /** The lazy matcher accepts exactly the pattern's language, and its reading is the only one. */
  lemma ParseIdExact(id: string, parts: Parts)
    ensures ParseId(id) == Some(parts) <==> Matches(id, parts)
  {
    if id != "" {
      ParseFromSound(id, 1);
    }
    if Matches(id, parts) {
      var port, udp :| Reads(id, parts, port, udp);
      ReadsAt(id, parts, port, udp);
      ParseFromComplete(id, 1, parts.host);
      var other := ParseId(id).value;
      var port', udp' :| Reads(id, other, port', udp');
      UniqueReading(parts.host, parts.name, port, udp, other.host, other.name, port', udp');
    }
  }

  /** Generated IDs read back as the host and container name they were printed from. */
  lemma IdRoundTrip(host: string, name: string, port: string, portType: string)
    requires LegalHost(host) && LegalName(name) && Digits(port)
    ensures ParseId(PrintId(host, name, port, portType)) == Some(Parts(host, name))
  {
    assert Reads(PrintId(host, name, port, portType), Parts(host, name), port, portType == "udp");
    ParseIdExact(PrintId(host, name, port, portType), Parts(host, name));
  }

  // ---------------------------------------------------------------- port keys

  /** `strings.Split(s, "/")`. */
  function SplitSlash(s: string): (fields: seq<string>)
    ensures |fields| >= 1
  {
    if s == "" then [""]
    else
      var rest := SplitSlash(s[1..]);
      if s[0] == '/' then [""] + rest else [[s[0]] + rest[0]] + rest[1..]
  }

  /** The exposed port and its type, as `servicePort` takes them from a key of the port map. */
  function PortOf(key: string): (string, string)
  {
    var fields := SplitSlash(key);
    (fields[0], if |fields| == 2 then fields[1] else "tcp")
  }

  /** The ID of the service on one port of a container. */
  function PortId(host: string, name: string, key: string): string
  {
    PrintId(host, name, PortOf(key).0, PortOf(key).1)
  }

  lemma {:induction false} SplitSlashPlain(s: string)
    requires '/' !in s
    ensures SplitSlash(s) == [s]
  {
    if s != "" {
      SplitSlashPlain(s[1..]);
      assert [s[0]] + s[1..] == s;
    }
  }

  lemma {:induction false} SplitSlashPair(a: string, b: string)
    requires '/' !in a && '/' !in b
    ensures SplitSlash(a + "/" + b) == [a, b]
  {
    var s := a + "/" + b;
    if a == "" {
      assert s[1..] == b;
      SplitSlashPlain(b);
    } else {
      assert s[1..] == a[1..] + "/" + b;
      SplitSlashPair(a[1..], b);
      assert [s[0]] + a[1..] == a;
    }
  }

  /** Two numeric port keys of one container share an ID exactly when they agree on the port and on being UDP. */
  lemma PortIdCollision(host: string, name: string, key: string, key': string)
    requires LegalName(name) && Digits(PortOf(key).0) && Digits(PortOf(key').0)
    ensures PortId(host, name, key) == PortId(host, name, key') <==>
            PortOf(key).0 == PortOf(key').0 && (PortOf(key).1 == "udp" <==> PortOf(key').1 == "udp")
  {
    if PortId(host, name, key) == PortId(host, name, key') {
      UniqueReading(host, name, PortOf(key).0, PortOf(key).1 == "udp", host, name, PortOf(key').0,
                    PortOf(key').1 == "udp");
    }
  }

  /** The IDs as they read: the port alone for TCP, spelled out or not, and `:udp` after it for UDP. */
  lemma PortIdsSpelled(host: string, name: string, port: string)
    requires Digits(port)
    ensures PortId(host, name, port) == host + ":" + name + ":" + port
    ensures PortId(host, name, port + "/tcp") == host + ":" + name + ":" + port
    ensures PortId(host, name, port + "/udp") == host + ":" + name + ":" + port + ":udp"
  {
    var plain := host + ":" + name + ":" + port;
    assert plain + "" == plain;
    assert "tcp"[0] != "udp"[0];
    SplitSlashPlain(port);
    assert port + "/tcp" == port + "/" + "tcp" && port + "/udp" == port + "/" + "udp";
    SplitSlashPair(port, "tcp");
    SplitSlashPair(port, "udp");
  }

  /** So the protocol can be read off a generated ID, and it is UDP exactly for a UDP key. */
  lemma PortIdReads(host: string, name: string, port: string)
    requires LegalHost(host) && LegalName(name) && Digits(port)
    ensures Reads(PortId(host, name, port), Parts(host, name), port, false)
    ensures Reads(PortId(host, name, port + "/tcp"), Parts(host, name), port, false)
    ensures Reads(PortId(host, name, port + "/udp"), Parts(host, name), port, true)
  {
    PortIdsSpelled(host, name, port);
  }

  predicate Explicit(portType: string) { portType == "tcp" || portType == "udp" }

  /** Port keys that spell out tcp or udp get distinct IDs. */
  lemma ExplicitPortIdsDistinct(host: string, name: string, port: string, portType: string, port': string,
                                portType': string)
    requires LegalName(name) && Digits(port) && Digits(port') && Explicit(portType) && Explicit(portType')
    requires port + "/" + portType != port' + "/" + portType'
    ensures PortId(host, name, port + "/" + portType) != PortId(host, name, port' + "/" + portType')
  {
    assert "tcp"[0] == 't' && "udp"[0] == 'u';
    SplitSlashPair(port, portType);
    SplitSlashPair(port', portType');
    PortIdCollision(host, name, port + "/" + portType, port' + "/" + portType');
  }

  /** A key without a protocol is read as tcp, so it shares its ID with the explicit key. */
  lemma ImplicitTcpCollides(host: string, name: string, port: string)
    requires Digits(port)
    ensures PortId(host, name, port) == PortId(host, name, port + "/tcp")
  {
    SplitSlashPlain(port);
    assert port + "/tcp" == port + "/" + "tcp";
    SplitSlashPair(port, "tcp");
  }
}
