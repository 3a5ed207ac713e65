/** Service metadata from labels and environment (bridge/util.go).

    `serviceMetaData` writes the environment into the container's own label map and then folds over
    that map in whatever order Go ranges over it.  The result is the same for every order exactly
    when the keys are unambiguous.
  */
module MetaData {
  import opened Options
  import opened ServiceId
  import opened UniqueId

  /** `strings.ToLower`, of which nothing is assumed. */
  type Lower = string -> string

  // ---------------------------------------------------------------- labels and environment

  /** Index of the first `c`, or `|s|`. */
  function IndexOf(s: string, c: char): (i: nat)
    ensures i <= |s|
    ensures i < |s| ==> s[i] == c
    ensures c !in s[..i]
    ensures i == |s| <==> c !in s
  {
    if s == "" then 0
    else if s[0] == c then 0
    else
      var j := IndexOf(s[1..], c);
      assert s[..j + 1] == [s[0]] + s[1..][..j];
      assert c in s ==> c in s[1..];
      j + 1
  }

  function EnvName(v: string): string
  {
    v[..IndexOf(v, '=')]
  }

  function EnvValue(v: string): string
    requires '=' in v
  {
    v[IndexOf(v, '=') + 1..]
  }

  predicate AllAssign(env: seq<string>)
  {
    forall i :: 0 <= i < |env| ==> '=' in env[i]
  }

  function Merge(labels: map<string, string>, env: seq<string>): map<string, string>
    requires AllAssign(env)
  {
    if env == [] then labels
    else
      var front, last := env[..|env| - 1], env[|env| - 1];
      Merge(labels, front)[EnvName(last) := EnvValue(last)]
  }

  /** Index of the last assignment to `k`, or -1. */
  function LastAssignment(env: seq<string>, k: string): (i: int)
    ensures -1 <= i < |env|
    ensures i >= 0 ==> EnvName(env[i]) == k
    ensures forall j :: i < j < |env| ==> EnvName(env[j]) != k
  {
    if env == [] then -1
    else if EnvName(env[|env| - 1]) == k then |env| - 1
    else LastAssignment(env[..|env| - 1], k)
  }

  /** The environment wins over the labels, and its last assignment over the earlier ones. */
  lemma {:induction false} EnvTakesPrecedence(labels: map<string, string>, env: seq<string>, k: string)
    requires AllAssign(env)
    ensures var i, m := LastAssignment(env, k), Merge(labels, env);
            && (k in m <==> i >= 0 || k in labels)
            && (i >= 0 ==> m[k] == EnvValue(env[i]))
            && (i < 0 && k in labels ==> m[k] == labels[k])
  {
    if env != [] {
      EnvTakesPrecedence(labels, env[..|env| - 1], k);
    }
  }

  /** A second call on the container whose labels the first one rewrote sees the same settings. */
  lemma MergeTwice(labels: map<string, string>, env: seq<string>)
    requires AllAssign(env)
    ensures Merge(Merge(labels, env), env) == Merge(labels, env)
  {
    var once := Merge(labels, env);
    var twice := Merge(once, env);
    forall k
      ensures k in twice <==> k in once
      ensures k in once ==> twice[k] == once[k]
    {
      EnvTakesPrecedence(labels, env, k);
      EnvTakesPrecedence(once, env, k);
    }
  }

  // ---------------------------------------------------------------- keys

  function DecimalValue(s: string): (n: nat)
    requires forall i :: 0 <= i < |s| ==> IsDigit(s[i])
  {
    if s == "" then 0
    else
      assert IsDigit(s[|s| - 1]);
      DecimalValue(s[..|s| - 1]) * 10 + (s[|s| - 1] - '0') as int
  }

  /** `strconv.Atoi` succeeds: an optional sign and digits, within 64 bits. */
  predicate IsInt(s: string)
  {
    var signed := s != "" && (s[0] == '+' || s[0] == '-');
    var digits := if signed then s[1..] else s;
    && Digits(digits)
    && DecimalValue(digits) <= if signed && s[0] == '-' then 0x8000_0000_0000_0000 else 0x7fff_ffff_ffff_ffff
  }

  const PREFIX: string := "SERVICE_"

  /** What a key means for one port. */
  datatype Role =
    | Foreign                            // no SERVICE_ prefix
    | OtherPort(key: string)             // qualified by some other number
    | Generic(key: string)
    | Own(key: string, name: string)     // qualified by this port

  function Classify(lower: Lower, port: string, ks: string): Role
  {
    if |ks| < |PREFIX| || ks[..|PREFIX|] != PREFIX then Foreign
    else
      var key := lower(ks[|PREFIX|..]);
      var i := IndexOf(key, '_');
      if IsInt(key[..i]) && i < |key| then
        if key[..i] != port then OtherPort(key) else Own(key, key[i + 1..])
      else Generic(key)
  }

  lemma OwnKey(lower: Lower, port: string, ks: string)
    requires Classify(lower, port, ks).Own?
    ensures Classify(lower, port, ks).key == port + "_" + Classify(lower, port, ks).name
  {
    var key := lower(ks[|PREFIX|..]);
    var i := IndexOf(key, '_');
    assert key == key[..i] + [key[i]] + key[i + 1..];
  }

  /** What each key means, for some port. */
  type Roles = string -> Role

  function RolesFor(lower: Lower, port: string): Roles
  {
    ks => Classify(lower, port, ks)
  }

  /** Keys qualified by the port begin with it. */
  ghost predicate WellKeyed(roles: Roles, port: string)
  {
    forall ks :: roles(ks).Own? ==> roles(ks).key == port + "_" + roles(ks).name
  }

  lemma RolesWellKeyed(lower: Lower, port: string)
    ensures WellKeyed(RolesFor(lower, port), port)
  {
    forall ks | RolesFor(lower, port)(ks).Own?
      ensures RolesFor(lower, port)(ks).key == port + "_" + RolesFor(lower, port)(ks).name
    {
      OwnKey(lower, port, ks);
    }
  }

  // ---------------------------------------------------------------- the fold

  /** The two maps under construction; the second holds only `true`. */
  datatype Result = Result(metadata: map<string, string>, fromPort: set<string>)

  /** One iteration of the loop. */
  function Visit(roles: Roles, meta: map<string, string>, r: Result, ks: string): Result
    requires ks in meta
  {
    var role := roles(ks);
    if role.Foreign? || role.key in r.fromPort || role.OtherPort? then r
    else if role.Own? then Result(r.metadata[role.name := meta[ks]], r.fromPort + {role.name})
    else Result(r.metadata[role.key := meta[ks]], r.fromPort)
  }

  function Fold(roles: Roles, meta: map<string, string>, order: seq<string>): Result
    requires forall i :: 0 <= i < |order| ==> order[i] in meta
  {
    if order == [] then Result(map[], {})
    else Visit(roles, meta, Fold(roles, meta, order[..|order| - 1]), order[|order| - 1])
  }

  /** Each key once, in some order. */
  ghost predicate IsOrder(order: seq<string>, meta: map<string, string>)
  {
    && (forall i :: 0 <= i < |order| ==> order[i] in meta)
    && (forall i, j :: 0 <= i < j < |order| ==> order[i] != order[j])
    && (forall k :: k in meta ==> k in order)
  }

  // ---------------------------------------------------------------- specification

  ghost predicate IsOwnName(roles: Roles, keys: set<string>, n: string)
  {
    exists ks :: ks in keys && roles(ks).Own? && roles(ks).name == n
  }

  ghost predicate IsGenericName(roles: Roles, keys: set<string>, n: string)
  {
    exists ks :: ks in keys && roles(ks).Generic? && roles(ks).key == n
  }

  /** The values qualified by the port, and the generic ones where there is none such. */
  ghost predicate Resolves(roles: Roles, meta: map<string, string>, r: Result)
  {
    && (forall n :: n in r.fromPort <==> IsOwnName(roles, meta.Keys, n))
    && (forall n :: n in r.metadata <==> IsOwnName(roles, meta.Keys, n) || IsGenericName(roles, meta.Keys, n))
    && (forall ks :: ks in meta && roles(ks).Own? ==>
          roles(ks).name in r.metadata && r.metadata[roles(ks).name] == meta[ks])
    && (forall ks :: ks in meta && roles(ks).Generic? && roles(ks).key !in r.fromPort ==>
          roles(ks).key in r.metadata && r.metadata[roles(ks).key] == meta[ks])
  }

  lemma ResolvesUnique(roles: Roles, meta: map<string, string>, r: Result, r': Result)
    requires Resolves(roles, meta, r) && Resolves(roles, meta, r')
    ensures r == r'
  {
    assert r.fromPort == r'.fromPort;
    assert r.metadata.Keys == r'.metadata.Keys;
    forall n | n in r.metadata
      ensures r.metadata[n] == r'.metadata[n]
    {
      if IsOwnName(roles, meta.Keys, n) {
        var ks :| ks in meta.Keys && roles(ks).Own? && roles(ks).name == n;
      } else {
        var ks :| ks in meta.Keys && roles(ks).Generic? && roles(ks).key == n;
      }
    }
  }

  /** No key is qualified twice over: the whole key of one is never the name of another. */
  ghost predicate NotNested(roles: Roles, meta: map<string, string>)
  {
    forall ks :: ks in meta && roles(ks).Own? ==> !IsOwnName(roles, meta.Keys, roles(ks).key)
  }

  predicate SameValue(meta: map<string, string>, ks: string, ks': string)
    requires ks in meta && ks' in meta
  {
    meta[ks] == meta[ks']
  }

  /** Two keys qualified by the port, for the same name. */
  predicate OwnPair(roles: Roles, ks: string, ks': string)
  {
    var role, role' := roles(ks), roles(ks');
    role.Own? && role'.Own? && role.name == role'.name
  }

  /** Two generic keys that lower to the same name. */
  predicate GenericPair(roles: Roles, ks: string, ks': string)
  {
    var role, role' := roles(ks), roles(ks');
    role.Generic? && role'.Generic? && role.key == role'.key
  }

  /** A generic key with no counterpart qualified by the port. */
  ghost predicate Unrivalled(roles: Roles, meta: map<string, string>, ks: string)
  {
    var role := roles(ks);
    role.Generic? && !IsOwnName(roles, meta.Keys, role.key)
  }

  /** Keys for the same setting, at the level that counts, carry the same value. */
  ghost predicate Unambiguous(roles: Roles, meta: map<string, string>)
  {
    && NotNested(roles, meta)
    && (forall ks, ks' :: ks in meta && ks' in meta && OwnPair(roles, ks, ks') ==> SameValue(meta, ks, ks'))
    && (forall ks, ks' :: ks in meta && ks' in meta && GenericPair(roles, ks, ks') && Unrivalled(roles, meta, ks) ==>
          SameValue(meta, ks, ks'))
  }

  // ---------------------------------------------------------------- unambiguous keys fold to the specification

  function Seen(order: seq<string>): set<string>
  {
    set i | 0 <= i < |order| :: order[i]
  }

  /** The names met among the keys in `seen`, in whatever order they came. */
  ghost predicate PartialNames(roles: Roles, seen: set<string>, r: Result)
  {
    && (forall n :: n in r.fromPort <==> IsOwnName(roles, seen, n))
    && (forall n :: n in r.metadata <==> IsOwnName(roles, seen, n) || IsGenericName(roles, seen, n))
  }

  /** The values given by the keys in `seen`. */
  ghost predicate PartialValues(roles: Roles, meta: map<string, string>, seen: set<string>, r: Result)
    requires seen <= meta.Keys
  {
    && (forall ks :: ks in seen && roles(ks).Own? ==>
          roles(ks).name in r.metadata && r.metadata[roles(ks).name] == meta[ks])
    && (forall ks :: ks in seen && Unrivalled(roles, meta, ks) ==>
          roles(ks).key in r.metadata && r.metadata[roles(ks).key] == meta[ks])
  }

  lemma NamesStep(roles: Roles, seen: set<string>, ks: string, n: string)
    ensures IsOwnName(roles, seen + {ks}, n) <==>
            IsOwnName(roles, seen, n) || (roles(ks).Own? && roles(ks).name == n)
    ensures IsGenericName(roles, seen + {ks}, n) <==>
            IsGenericName(roles, seen, n) || (roles(ks).Generic? && roles(ks).key == n)
  {
    var both := seen + {ks};
    if IsOwnName(roles, seen, n) {
      var k :| k in seen && roles(k).Own? && roles(k).name == n;
      assert k in both;
    }
    if IsGenericName(roles, seen, n) {
      var k :| k in seen && roles(k).Generic? && roles(k).key == n;
      assert k in both;
    }
    assert ks in both;
  }

  lemma OwnNameGrows(roles: Roles, seen: set<string>, keys: set<string>, n: string)
    requires seen <= keys && IsOwnName(roles, seen, n)
    ensures IsOwnName(roles, keys, n)
  {
    var k :| k in seen && roles(k).Own? && roles(k).name == n;
    assert k in keys;
  }

  /** A key qualified by the port is never skipped. */
  lemma OwnNotBlocked(roles: Roles, meta: map<string, string>, seen: set<string>, r: Result, ks: string)
    requires NotNested(roles, meta) && ks in meta && seen <= meta.Keys
    requires PartialNames(roles, seen, r) && roles(ks).Own?
    ensures roles(ks).key !in r.fromPort
  {
    var key := roles(ks).key;
    if IsOwnName(roles, seen, key) {
      OwnNameGrows(roles, seen, meta.Keys, key);
    }
  }

  lemma PartialNamesStep(roles: Roles, meta: map<string, string>, seen: set<string>, r: Result, ks: string)
    requires NotNested(roles, meta) && ks in meta && seen <= meta.Keys
    requires PartialNames(roles, seen, r)
    ensures PartialNames(roles, seen + {ks}, Visit(roles, meta, r, ks))
  {
    var role := roles(ks);
    if role.Own? {
      OwnNotBlocked(roles, meta, seen, r, ks);
    }
    forall n
      ensures IsOwnName(roles, seen + {ks}, n) <==>
              IsOwnName(roles, seen, n) || (role.Own? && role.name == n)
      ensures IsGenericName(roles, seen + {ks}, n) <==>
              IsGenericName(roles, seen, n) || (role.Generic? && role.key == n)
    {
      NamesStep(roles, seen, ks, n);
    }
  }

  lemma OwnValueStep(roles: Roles, meta: map<string, string>, seen: set<string>, r: Result, ks: string, k: string)
    requires Unambiguous(roles, meta) && ks in meta && seen <= meta.Keys
    requires PartialNames(roles, seen, r) && PartialValues(roles, meta, seen, r)
    requires k in seen + {ks} && roles(k).Own?
    ensures var name, r' := roles(k).name, Visit(roles, meta, r, ks);
            name in r'.metadata && r'.metadata[name] == meta[k]
  {
    var role := roles(ks);
    if role.Own? {
      OwnNotBlocked(roles, meta, seen, r, ks);
    }
    if OwnPair(roles, k, ks) {
      assert SameValue(meta, k, ks);
    } else if role.Generic? && role.key == roles(k).name {
      assert IsOwnName(roles, seen, role.key);
    }
  }

  lemma GenericValueStep(roles: Roles, meta: map<string, string>, seen: set<string>, r: Result, ks: string, k: string)
    requires Unambiguous(roles, meta) && ks in meta && seen <= meta.Keys
    requires PartialNames(roles, seen, r) && PartialValues(roles, meta, seen, r)
    requires k in seen + {ks} && Unrivalled(roles, meta, k)
    ensures var key, r' := roles(k).key, Visit(roles, meta, r, ks);
            key in r'.metadata && r'.metadata[key] == meta[k]
  {
    var role, key := roles(ks), roles(k).key;
    assert role.Own? ==> IsOwnName(roles, meta.Keys, role.name);
    if GenericPair(roles, k, ks) {
      assert SameValue(meta, k, ks);
      if IsOwnName(roles, seen, key) {
        OwnNameGrows(roles, seen, meta.Keys, key);
      }
    }
  }

  lemma PartialValuesStep(roles: Roles, meta: map<string, string>, seen: set<string>, r: Result, ks: string)
    requires Unambiguous(roles, meta) && ks in meta && seen <= meta.Keys
    requires PartialNames(roles, seen, r) && PartialValues(roles, meta, seen, r)
    ensures PartialValues(roles, meta, seen + {ks}, Visit(roles, meta, r, ks))
  {
    var r' := Visit(roles, meta, r, ks);
    forall k | k in seen + {ks} && roles(k).Own?
      ensures roles(k).name in r'.metadata && r'.metadata[roles(k).name] == meta[k]
    {
      OwnValueStep(roles, meta, seen, r, ks, k);
    }
    forall k | k in seen + {ks} && Unrivalled(roles, meta, k)
      ensures roles(k).key in r'.metadata && r'.metadata[roles(k).key] == meta[k]
    {
      GenericValueStep(roles, meta, seen, r, ks, k);
    }
  }

  lemma SeenSnoc(front: seq<string>, last: string)
    ensures Seen(front + [last]) == Seen(front) + {last}
  {
    var order := front + [last];
    assert forall i :: 0 <= i < |front| ==> front[i] == order[i];
    assert order[|front|] == last;
  }

  ghost predicate Partial(roles: Roles, meta: map<string, string>, seen: set<string>, r: Result)
  {
    seen <= meta.Keys && PartialNames(roles, seen, r) && PartialValues(roles, meta, seen, r)
  }

  lemma PartialStep(roles: Roles, meta: map<string, string>, front: seq<string>, r: Result, last: string)
    requires Unambiguous(roles, meta) && last in meta && Partial(roles, meta, Seen(front), r)
    ensures Partial(roles, meta, Seen(front + [last]), Visit(roles, meta, r, last))
  {
    SeenSnoc(front, last);
    PartialNamesStep(roles, meta, Seen(front), r, last);
    PartialValuesStep(roles, meta, Seen(front), r, last);
  }

  lemma {:induction false} FoldPartial(roles: Roles, meta: map<string, string>, order: seq<string>)
    requires Unambiguous(roles, meta) && forall i :: 0 <= i < |order| ==> order[i] in meta
    ensures Partial(roles, meta, Seen(order), Fold(roles, meta, order))
  {
    if order != [] {
      var front, last := order[..|order| - 1], order[|order| - 1];
      FoldPartial(roles, meta, front);
      PartialStep(roles, meta, front, Fold(roles, meta, front), last);
      assert order == front + [last];
    }
  }

  lemma FoldResolves(roles: Roles, meta: map<string, string>, order: seq<string>)
    requires Unambiguous(roles, meta) && IsOrder(order, meta)
    ensures Resolves(roles, meta, Fold(roles, meta, order))
  {
    FoldPartial(roles, meta, order);
    assert Seen(order) == meta.Keys by {
      forall k | k in meta
        ensures k in Seen(order)
      {
        var i :| 0 <= i < |order| && order[i] == k;
      }
    }
  }

  // ---------------------------------------------------------------- ambiguous keys depend on the order

  lemma {:induction false} SomeOrder(keys: set<string>) returns (order: seq<string>)
    ensures forall i :: 0 <= i < |order| ==> order[i] in keys
    ensures forall i, j :: 0 <= i < j < |order| ==> order[i] != order[j]
    ensures forall k :: k in keys ==> k in order
    decreases keys
  {
    if keys == {} {
      order := [];
    } else {
      var k :| k in keys;
      var rest := SomeOrder(keys - {k});
      order := rest + [k];
    }
  }

  lemma OrderStartingWith(meta: map<string, string>, first: string) returns (rest: seq<string>)
    requires first in meta
    ensures IsOrder([first] + rest, meta)
  {
    rest := SomeOrder(meta.Keys - {first});
  }

  lemma OrderEndingWith(meta: map<string, string>, last: string) returns (rest: seq<string>)
    requires last in meta
    ensures IsOrder(rest + [last], meta)
  {
    rest := SomeOrder(meta.Keys - {last});
  }

  lemma {:induction false} FromPortGrows(roles: Roles, meta: map<string, string>, first: string, rest: seq<string>)
    requires forall i :: 0 <= i < |[first] + rest| ==> ([first] + rest)[i] in meta
    requires roles(first).Own?
    ensures roles(first).name in Fold(roles, meta, [first] + rest).fromPort
  {
    var order := [first] + rest;
    if rest == [] {
      assert order == [first] && order[..0] == [];
    } else {
      assert order[..|order| - 1] == [first] + rest[..|rest| - 1];
      FromPortGrows(roles, meta, first, rest[..|rest| - 1]);
    }
  }

  /** With the doubly qualified key first, the name it shadows never comes from the port. */
  lemma {:induction false} NameShutOut(roles: Roles, port: string, meta: map<string, string>, first: string,
                                       rest: seq<string>, n: string)
    requires WellKeyed(roles, port) && forall i :: 0 <= i < |[first] + rest| ==> ([first] + rest)[i] in meta
    requires roles(first).Own? && roles(first).name == port + "_" + n
    ensures n !in Fold(roles, meta, [first] + rest).fromPort
  {
    var order := [first] + rest;
    if rest == [] {
      assert order == [first] && order[..0] == [];
      assert |port + "_" + n| > |n|;
    } else {
      var front, last := [first] + rest[..|rest| - 1], rest[|rest| - 1];
      assert order[..|order| - 1] == front && order[|order| - 1] == last;
      NameShutOut(roles, port, meta, first, rest[..|rest| - 1], n);
      FromPortGrows(roles, meta, first, rest[..|rest| - 1]);
    }
  }

  lemma {:induction false} FromPortIsOwn(roles: Roles, meta: map<string, string>, order: seq<string>, n: string)
    requires forall i :: 0 <= i < |order| ==> order[i] in meta
    requires n in Fold(roles, meta, order).fromPort
    ensures IsOwnName(roles, meta.Keys, n)
  {
    if order != [] {
      if n in Fold(roles, meta, order[..|order| - 1]).fromPort {
        FromPortIsOwn(roles, meta, order[..|order| - 1], n);
      } else {
        assert order[|order| - 1] in meta.Keys;
      }
    }
  }

  /** The last key of an order writes its value, unless a name from the port blocks it. */
  lemma LastWrites(roles: Roles, meta: map<string, string>, rest: seq<string>, ks: string, n: string)
    requires IsOrder(rest + [ks], meta)
    requires var role := roles(ks);
             || (role.Own? && role.name == n && !IsOwnName(roles, meta.Keys, role.key))
             || (role.Generic? && role.key == n && !IsOwnName(roles, meta.Keys, n))
    ensures var r := Fold(roles, meta, rest + [ks]); n in r.metadata && r.metadata[n] == meta[ks]
  {
    var order := rest + [ks];
    assert order[..|order| - 1] == rest;
    var before := Fold(roles, meta, rest);
    var key := roles(ks).key;
    if key in before.fromPort {
      FromPortIsOwn(roles, meta, rest, key);
    }
  }

  lemma NestedDiffers(roles: Roles, port: string, meta: map<string, string>)
    returns (one: seq<string>, two: seq<string>)
    requires WellKeyed(roles, port) && !NotNested(roles, meta)
    ensures IsOrder(one, meta) && IsOrder(two, meta)
    ensures Fold(roles, meta, one) != Fold(roles, meta, two)
  {
    var w :| w in meta && roles(w).Own? && IsOwnName(roles, meta.Keys, roles(w).key);
    var v :| v in meta.Keys && roles(v).Own? && roles(v).name == roles(w).key;
    var n := roles(w).name;
    var rest := OrderStartingWith(meta, v);
    one := [v] + rest;
    NameShutOut(roles, port, meta, v, rest, n);
    rest := OrderStartingWith(meta, w);
    two := [w] + rest;
    FromPortGrows(roles, meta, w, rest);
  }

  lemma ConflictDiffers(roles: Roles, meta: map<string, string>, ks: string, ks': string, n: string)
    returns (one: seq<string>, two: seq<string>)
    requires ks in meta && ks' in meta && meta[ks] != meta[ks'] && NotNested(roles, meta)
    requires var role, role' := roles(ks), roles(ks');
             || (role.Own? && role'.Own? && role.name == role'.name == n)
             || (role.Generic? && role'.Generic? && role.key == role'.key == n && !IsOwnName(roles, meta.Keys, n))
    ensures IsOrder(one, meta) && IsOrder(two, meta)
    ensures Fold(roles, meta, one) != Fold(roles, meta, two)
  {
    var rest := OrderEndingWith(meta, ks);
    one := rest + [ks];
    LastWrites(roles, meta, rest, ks, n);
    rest := OrderEndingWith(meta, ks');
    two := rest + [ks'];
    LastWrites(roles, meta, rest, ks', n);
  }

  lemma AmbiguousDiffers(roles: Roles, port: string, meta: map<string, string>)
    returns (one: seq<string>, two: seq<string>)
    requires WellKeyed(roles, port) && !Unambiguous(roles, meta)
    ensures IsOrder(one, meta) && IsOrder(two, meta)
    ensures Fold(roles, meta, one) != Fold(roles, meta, two)
  {
    if !NotNested(roles, meta) {
      one, two := NestedDiffers(roles, port, meta);
    } else if ks, ks' :| ks in meta && ks' in meta && OwnPair(roles, ks, ks') && !SameValue(meta, ks, ks') {
      one, two := ConflictDiffers(roles, meta, ks, ks', roles(ks).name);
    } else {
      var ks, ks' :| ks in meta && ks' in meta && GenericPair(roles, ks, ks')
                     && Unrivalled(roles, meta, ks) && !SameValue(meta, ks, ks');
      one, two := ConflictDiffers(roles, meta, ks, ks', roles(ks).key);
    }
  }

  ghost predicate OrderIndependent(roles: Roles, meta: map<string, string>)
  {
    forall one, two :: IsOrder(one, meta) && IsOrder(two, meta) ==> Fold(roles, meta, one) == Fold(roles, meta, two)
  }

  /** Every iteration order gives the same metadata exactly when the keys are unambiguous. */
  lemma OrderIndependentIff(lower: Lower, port: string, meta: map<string, string>)
    ensures OrderIndependent(RolesFor(lower, port), meta) <==> Unambiguous(RolesFor(lower, port), meta)
  {
    var roles := RolesFor(lower, port);
    RolesWellKeyed(lower, port);
    if Unambiguous(roles, meta) {
      forall one, two | IsOrder(one, meta) && IsOrder(two, meta)
        ensures Fold(roles, meta, one) == Fold(roles, meta, two)
      {
        FoldResolves(roles, meta, one);
        FoldResolves(roles, meta, two);
        ResolvesUnique(roles, meta, Fold(roles, meta, one), Fold(roles, meta, two));
      }
    } else {
      var one, two := AmbiguousDiffers(roles, port, meta);
    }
  }

  // ---------------------------------------------------------------- the result, key by key

  /** `ks` is `SERVICE_` and something that lowers to the port, an underscore and `n`. */
  ghost predicate Qualifies(lower: Lower, port: string, ks: string, n: string)
  {
    IsInt(port) && exists x :: ks == "SERVICE_" + x && lower(x) == port + "_" + n
  }

  /** An integer, an underscore and a rest. */
  ghost predicate HasPort(n: string)
  {
    exists a, b :: n == a + "_" + b && IsInt(a)
  }

  /** `ks` is `SERVICE_` and something that lowers to `n`, which names no port. */
  ghost predicate Names(lower: Lower, ks: string, n: string)
  {
    !HasPort(n) && exists x :: ks == "SERVICE_" + x && lower(x) == n
  }

  lemma IntHasNoUnderscore(a: string)
    requires IsInt(a)
    ensures '_' !in a
  {
    if i :| 0 <= i < |a| && a[i] == '_' {
      assert i > 0 ==> a[i] == a[1..][i - 1];
    }
  }

  lemma {:induction false} FirstIndexIs(s: string, c: char, i: nat)
    requires i < |s| && s[i] == c && c !in s[..i]
    ensures IndexOf(s, c) == i
  {
    if i > 0 {
      assert s[..i][0] == s[0];
      assert s[1..][..i - 1] == s[..i][1..];
      FirstIndexIs(s[1..], c, i - 1);
    }
  }

  /** A string that is cut at its first `c`. */
  lemma CutAt(a: string, c: char, b: string)
    requires c !in a
    ensures var s := a + [c] + b; |a| < |s| && IndexOf(s, c) == |a| && s[..|a|] == a && s[|a| + 1..] == b
  {
    var s := a + [c] + b;
    assert s[..|a|] == a && s[|a| + 1..] == b;
    FirstIndexIs(s, c, |a|);
  }

  lemma Rejoined(s: string, c: char)
    requires c in s
    ensures IndexOf(s, c) < |s| && s == s[..IndexOf(s, c)] + [c] + s[IndexOf(s, c) + 1..]
  {
  }

  /** Where a key splits, in terms of the strings it is made of. */
  lemma HasPortIff(key: string)
    ensures HasPort(key) <==> IndexOf(key, '_') < |key| && IsInt(key[..IndexOf(key, '_')])
  {
    var i := IndexOf(key, '_');
    if i < |key| && IsInt(key[..i]) {
      Rejoined(key, '_');
      assert key == key[..i] + "_" + key[i + 1..];
    }
    if HasPort(key) {
      var a, b :| key == a + "_" + b && IsInt(a);
      IntHasNoUnderscore(a);
      CutAt(a, '_', b);
    }
  }

  lemma QualifiedIff(key: string, port: string, n: string)
    ensures IsInt(port) && key == port + "_" + n <==>
            var i := IndexOf(key, '_'); i < |key| && IsInt(key[..i]) && key[..i] == port && key[i + 1..] == n
  {
    if IsInt(port) && key == port + "_" + n {
      IntHasNoUnderscore(port);
      CutAt(port, '_', n);
    } else if IndexOf(key, '_') < |key| {
      Rejoined(key, '_');
    }
  }

  lemma Prefixed(ks: string)
    ensures |ks| >= |PREFIX| && ks[..|PREFIX|] == PREFIX <==> exists x :: ks == "SERVICE_" + x
    ensures forall x :: ks == "SERVICE_" + x ==> x == ks[|PREFIX|..]
  {
    if |ks| >= |PREFIX| && ks[..|PREFIX|] == PREFIX {
      assert ks == "SERVICE_" + ks[|PREFIX|..];
    }
  }

  /** What the loop makes of a key, said of the key itself. */
  lemma ClassifyIff(lower: Lower, port: string, ks: string, n: string)
    ensures var role := Classify(lower, port, ks);
            && (role.Own? && role.name == n <==> Qualifies(lower, port, ks, n))
            && (role.Generic? && role.key == n <==> Names(lower, ks, n))
  {
    Prefixed(ks);
    if |ks| >= |PREFIX| && ks[..|PREFIX|] == PREFIX {
      var x := ks[|PREFIX|..];
      assert ks == "SERVICE_" + x;
      QualifiedIff(lower(x), port, n);
      HasPortIff(lower(x));
    }
  }

  ghost predicate SomeQualifies(lower: Lower, port: string, meta: map<string, string>, n: string)
  {
    exists ks :: ks in meta && Qualifies(lower, port, ks, n)
  }

  ghost predicate SomeNames(lower: Lower, meta: map<string, string>, n: string)
  {
    exists ks :: ks in meta && Names(lower, ks, n)
  }

  /** The settings of a port, said of the keys themselves: those qualified by the port, with their values, and
      where there is none such, those that name no port. */
  ghost predicate Settings(lower: Lower, port: string, meta: map<string, string>, r: Result)
  {
    && (forall n :: n in r.fromPort <==> SomeQualifies(lower, port, meta, n))
    && (forall n :: n in r.metadata <==> SomeQualifies(lower, port, meta, n) || SomeNames(lower, meta, n))
    && (forall ks, n :: ks in meta && Qualifies(lower, port, ks, n) ==> n in r.metadata && r.metadata[n] == meta[ks])
    && (forall ks, n :: ks in meta && Names(lower, ks, n) && n !in r.fromPort ==>
          n in r.metadata && r.metadata[n] == meta[ks])
  }

  lemma NamesByKeys(lower: Lower, port: string, meta: map<string, string>, n: string)
    ensures IsOwnName(RolesFor(lower, port), meta.Keys, n) <==> SomeQualifies(lower, port, meta, n)
    ensures IsGenericName(RolesFor(lower, port), meta.Keys, n) <==> SomeNames(lower, meta, n)
  {
    var roles := RolesFor(lower, port);
    forall ks
      ensures roles(ks).Own? && roles(ks).name == n <==> Qualifies(lower, port, ks, n)
      ensures roles(ks).Generic? && roles(ks).key == n <==> Names(lower, ks, n)
    {
      ClassifyIff(lower, port, ks, n);
    }
  }

  /** Resolving the roles of the keys is finding the settings. */
  lemma ResolvesSettings(lower: Lower, port: string, meta: map<string, string>, r: Result)
    requires Resolves(RolesFor(lower, port), meta, r)
    ensures Settings(lower, port, meta, r)
  {
    forall n
      ensures n in r.fromPort <==> SomeQualifies(lower, port, meta, n)
      ensures n in r.metadata <==> SomeQualifies(lower, port, meta, n) || SomeNames(lower, meta, n)
    {
      NamesByKeys(lower, port, meta, n);
    }
    forall ks, n | ks in meta && Qualifies(lower, port, ks, n)
      ensures n in r.metadata && r.metadata[n] == meta[ks]
    {
      ClassifyIff(lower, port, ks, n);
      assert RolesFor(lower, port)(ks).Own?;
    }
    forall ks, n | ks in meta && Names(lower, ks, n) && n !in r.fromPort
      ensures n in r.metadata && r.metadata[n] == meta[ks]
    {
      ClassifyIff(lower, port, ks, n);
      assert RolesFor(lower, port)(ks).Generic?;
    }
  }

  /** A key qualified by another port changes nothing, whatever else there is and whenever it comes. */
  lemma OtherPortIgnored(lower: Lower, port: string, other: string, n: string, meta: map<string, string>, r: Result,
                         ks: string)
    requires ks in meta && Qualifies(lower, other, ks, n) && other != port
    ensures Visit(RolesFor(lower, port), meta, r, ks) == r
  {
    Prefixed(ks);
    QualifiedIff(lower(ks[|PREFIX|..]), other, n);
  }

  /** Nor does a key without the prefix. */
  lemma ForeignIgnored(lower: Lower, port: string, meta: map<string, string>, r: Result, ks: string)
    requires ks in meta && !("SERVICE_" <= ks)
    ensures Visit(RolesFor(lower, port), meta, r, ks) == r
  {
  }

  // ---------------------------------------------------------------- the strings themselves

  /** An entry of the environment splits at its first `=`. */
  lemma EnvSpelled(k: string, v: string)
    requires '=' !in k
    ensures '=' in k + "=" + v && EnvName(k + "=" + v) == k && EnvValue(k + "=" + v) == v
  {
    CutAt(k, '=', v);
  }

  lemma {:induction false} ValueOfText(n: nat)
    ensures DecimalValue(NatText(n)) == n
  {
    var s := NatText(n);
    assert s[|s| - 1] == '0' + (n % 10) as char;
    if n >= 10 {
      ValueOfText(n / 10);
      assert s[..|s| - 1] == NatText(n / 10);
    } else {
      assert s[..|s| - 1] == "";
    }
  }

  /** The integers `strconv.Atoi` reads are those of 64 bits, in particular all port numbers. */
  lemma IntsAre64Bit(n: int)
    ensures IsInt(Itoa(n)) <==> -0x8000_0000_0000_0000 <= n < 0x8000_0000_0000_0000
  {
    if n < 0 {
      assert Itoa(n)[1..] == NatText(-n);
      ValueOfText(-n);
    } else {
      assert IsDigit(NatText(n)[0]);
      ValueOfText(n);
    }
  }

  predicate KeysDiffer(roles: Roles, ks: string, ks': string)
  {
    var role, role' := roles(ks), roles(ks');
    role.Foreign? || role'.Foreign? || role.key != role'.key
  }

  /** In particular when the lowered keys are distinct and none is qualified twice. */
  lemma DistinctKeysUnambiguous(roles: Roles, port: string, meta: map<string, string>)
    requires WellKeyed(roles, port) && NotNested(roles, meta)
    requires forall ks, ks' :: ks in meta && ks' in meta && ks != ks' ==> KeysDiffer(roles, ks, ks')
    ensures Unambiguous(roles, meta)
  {
    forall ks, ks' | ks in meta && ks' in meta && OwnPair(roles, ks, ks')
      ensures SameValue(meta, ks, ks')
    {
      assert ks != ks' ==> KeysDiffer(roles, ks, ks');
    }
    forall ks, ks' | ks in meta && ks' in meta && GenericPair(roles, ks, ks')
      ensures SameValue(meta, ks, ks')
    {
      assert ks != ks' ==> KeysDiffer(roles, ks, ks');
    }
  }

  // ---------------------------------------------------------------- the method

  /** The part of a container's configuration that is read and rewritten; nil labels are None. */
  class ContainerConfig {
    var env: seq<string>
    var labels: Option<map<string, string>>

    constructor (env: seq<string>, labels: Option<map<string, string>>)
      ensures this.env == env && this.labels == labels
    {
      this.env, this.labels := env, labels;
    }
  }

  function LabelMap(labels: Option<map<string, string>>): map<string, string>
  {
    if labels.None? then map[] else labels.value
  }

  /** `serviceMetaData`: panics on an entry without `=` and on writing to a nil map; otherwise leaves
      the environment in the labels, and resolves the settings whatever order Go ranges in. */
  method ServiceMetaData(config: ContainerConfig, lower: Lower, port: string) returns (panicked: bool, r: Result)
    modifies config`labels
    ensures panicked <==> !AllAssign(config.env) || (old(config.labels).None? && config.env != [])
    ensures !panicked ==> LabelMap(config.labels) == Merge(LabelMap(old(config.labels)), config.env)
    ensures !panicked && Unambiguous(RolesFor(lower, port), LabelMap(config.labels)) ==>
              && Resolves(RolesFor(lower, port), LabelMap(config.labels), r)
              && Settings(lower, port, LabelMap(config.labels), r)
    ensures !panicked ==>
              exists order :: IsOrder(order, LabelMap(config.labels))
                              && r == Fold(RolesFor(lower, port), LabelMap(config.labels), order)
  {
    r := Result(map[], {});
    panicked := MergeEnv(config);
    if panicked {
      return;
    }
    ghost var order;
    r, order := VisitAll(LabelMap(config.labels), lower, port);
    if Unambiguous(RolesFor(lower, port), LabelMap(config.labels)) {
      ResolvesSettings(lower, port, LabelMap(config.labels), r);
    }
  }

  /** The loop over the environment, which writes into the labels themselves. */
  method MergeEnv(config: ContainerConfig) returns (panicked: bool)
    modifies config`labels
    ensures panicked <==> !AllAssign(config.env) || (old(config.labels).None? && config.env != [])
    ensures !panicked ==> LabelMap(config.labels) == Merge(LabelMap(old(config.labels)), config.env)
  {
    for i := 0 to |config.env|
      invariant AllAssign(config.env[..i])
      invariant LabelMap(config.labels) == Merge(LabelMap(old(config.labels)), config.env[..i])
      invariant i > 0 ==> old(config.labels).Some?
      invariant config.labels.Some? <==> old(config.labels).Some?
    {
      var v := config.env[i];
      if '=' !in v || config.labels.None? {
        return true;
      }
      assert config.env[..i + 1][..i] == config.env[..i];
      config.labels := Some(config.labels.value[EnvName(v) := EnvValue(v)]);
    }
    assert config.env[..|config.env|] == config.env;
    panicked := false;
  }

  /** Ranges over the map in any order. */
  method VisitAll(meta: map<string, string>, lower: Lower, port: string) returns (r: Result, ghost order: seq<string>)
    ensures IsOrder(order, meta) && r == Fold(RolesFor(lower, port), meta, order)
    ensures Unambiguous(RolesFor(lower, port), meta) ==> Resolves(RolesFor(lower, port), meta, r)
  {
    r, order := Result(map[], {}), [];
    var todo := meta.Keys;
    while todo != {}
      invariant todo <= meta.Keys && Seen(order) == meta.Keys - todo
      invariant forall i :: 0 <= i < |order| ==> order[i] in meta
      invariant forall i, j :: 0 <= i < j < |order| ==> order[i] != order[j]
      invariant r == Fold(RolesFor(lower, port), meta, order)
      decreases todo
    {
      var ks :| ks in todo;
      todo := todo - {ks};
      assert ks !in Seen(order);
      assert (order + [ks])[..|order|] == order;
      SeenSnoc(order, ks);
      r := VisitKey(meta, lower, port, r, ks);
      order := order + [ks];
    }
    assert IsOrder(order, meta) by {
      forall k | k in meta
        ensures k in order
      {
        assert k in Seen(order);
      }
    }
    if Unambiguous(RolesFor(lower, port), meta) {
      FoldResolves(RolesFor(lower, port), meta, order);
    }
  }

  /** The body of the loop. */
  method VisitKey(meta: map<string, string>, lower: Lower, port: string, r: Result, ks: string) returns (r': Result)
    requires ks in meta
    ensures r' == Visit(RolesFor(lower, port), meta, r, ks)
  {
    r' := r;
    var role := Classify(lower, port, ks);
    if !role.Foreign? {
      if role.key in r.fromPort {
        return;
      }
      if role.Own? {
        r' := Result(r.metadata[role.name := meta[ks]], r.fromPort + {role.name});
      } else if role.Generic? {
        r' := Result(r.metadata[role.key := meta[ks]], r.fromPort);
      }
    }
  }
}
