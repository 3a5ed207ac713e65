/** The identity of a Eureka registration: host name, underscore, port (aws/elb.go, eureka/eureka.go). */
module UniqueId {
  import opened ServiceId

  function NatText(n: nat): (s: string)
    ensures Digits(s)
  {
    var last := ['0' + (n % 10) as char];
    if n < 10 then last else NatText(n / 10) + last
  }

  /** `strconv.Itoa` */
  function Itoa(n: int): string
  {
    if n < 0 then "-" + NatText(-n) else NatText(n)
  }

  function GetUniqueID(hostName: string, port: int): string
  {
    hostName + "_" + Itoa(port)
  }

  lemma {:induction false} NatTextInjective(m: nat, n: nat)
    requires NatText(m) == NatText(n)
    ensures m == n
  {
    var s := NatText(m);
    assert s[|s| - 1] == '0' + (m % 10) as char && s[|s| - 1] == '0' + (n % 10) as char;
    assert ('0' + (m % 10) as char) as int == '0' as int + m % 10;
    assert ('0' + (n % 10) as char) as int == '0' as int + n % 10;
    assert m % 10 == n % 10;
    assert m >= 10 ==> |NatText(m / 10)| >= 1;
    assert n >= 10 ==> |NatText(n / 10)| >= 1;
    if m >= 10 {
      assert s[..|s| - 1] == NatText(m / 10) && s[..|s| - 1] == NatText(n / 10);
      NatTextInjective(m / 10, n / 10);
    }
  }

  lemma ItoaSign(n: int)
    ensures Itoa(n) != "" && (Itoa(n)[0] == '-' <==> n < 0)
  {
    if n >= 0 {
      assert IsDigit(NatText(n)[0]);
    }
  }

  lemma ItoaInjective(m: int, n: int)
    requires Itoa(m) == Itoa(n)
    ensures m == n
  {
    ItoaSign(m);
    ItoaSign(n);
    if m < 0 {
      assert Itoa(m)[1..] == NatText(-m) && Itoa(n)[1..] == NatText(-n);
      NatTextInjective(-m, -n);
    } else {
      NatTextInjective(m, n);
    }
  }

  lemma NoUnderscoreAfter(host: string, port: int, s: string)
    requires s == GetUniqueID(host, port)
    ensures |host| < |s| && s[|host|] == '_' && forall k :: |host| < k < |s| ==> s[k] != '_'
  {
    var text := Itoa(port);
    assert forall i :: 0 <= i < |text| ==> text[i] == '-' || IsDigit(text[i]);
    assert forall k :: |host| < k < |s| ==> s[k] == text[k - |host| - 1];
  }

  /** Distinct endpoints never share an ID, underscores in host names and negative ports included. */
  lemma UniqueIdInjective(host: string, port: int, host': string, port': int)
    requires GetUniqueID(host, port) == GetUniqueID(host', port')
    ensures host == host' && port == port'
  {
    var s := GetUniqueID(host, port);
    NoUnderscoreAfter(host, port, s);
    NoUnderscoreAfter(host', port', s);
    assert host == s[..|host|] && host' == s[..|host'|];
    assert Itoa(port) == s[|host| + 1..] && Itoa(port') == s[|host'| + 1..];
    ItoaInjective(port, port');
  }
}
