/** The ECS service of a task, looked up in batches of at most ten names (aws/elb.go). */
module ServiceLookup {
  import opened Options

  datatype EcsService = EcsService(name: string, taskDefinition: string)

  /** `DescribeServices`; None is an error. */
  type Describe = seq<string> -> Option<seq<EcsService>>

  function Matching(services: seq<EcsService>, taskDef: string): (names: seq<string>)
  {
    if services == [] then []
    else
      var last := services[|services| - 1];
      Matching(services[..|services| - 1], taskDef) + MatchOf(last, taskDef)
  }

  /** The one service that runs the task definition, or "" if there is none or more than one. */
  function Decide(services: seq<EcsService>, taskDef: string): string
  {
    var names := Matching(services, taskDef);
    if |names| == 1 then names[0] else ""
  }

  function Flatten<T>(batches: seq<seq<T>>): seq<T>
  {
    if batches == [] then [] else Flatten(batches[..|batches| - 1]) + batches[|batches| - 1]
  }

  predicate AllDescribed(describe: Describe, batches: seq<seq<string>>)
  {
    forall i :: 0 <= i < |batches| ==> describe(batches[i]).Some?
  }

  function Described(describe: Describe, batches: seq<seq<string>>): seq<EcsService>
    requires AllDescribed(describe, batches)
  {
    if batches == [] then []
    else Described(describe, batches[..|batches| - 1]) + describe(batches[|batches| - 1]).value
  }

  /** What one service adds to the matches. */
  function MatchOf(service: EcsService, taskDef: string): seq<string>
  {
    if service.taskDefinition == taskDef then [service.name] else []
  }

  lemma MatchingSnoc(services: seq<EcsService>, last: EcsService, taskDef: string)
    ensures Matching(services + [last], taskDef) == Matching(services, taskDef) + MatchOf(last, taskDef)
  {
    assert (services + [last])[..|services|] == services;
  }

  lemma ConcatThrice<T>(a: seq<T>, b: seq<T>, c: seq<T>)
    ensures (a + b) + c == a + (b + c)
  {
  }

  lemma MatchingStep(a: seq<EcsService>, front: seq<EcsService>, last: EcsService, taskDef: string)
    requires Matching(a + front, taskDef) == Matching(a, taskDef) + Matching(front, taskDef)
    ensures Matching(a + (front + [last]), taskDef) == Matching(a, taskDef) + Matching(front + [last], taskDef)
  {
    ConcatThrice(a, front, [last]);
    MatchingSnoc(front, last, taskDef);
    MatchingSnoc(a + front, last, taskDef);
    ConcatThrice(Matching(a, taskDef), Matching(front, taskDef), MatchOf(last, taskDef));
  }

  lemma {:induction false} MatchingConcat(a: seq<EcsService>, b: seq<EcsService>, taskDef: string)
    ensures Matching(a + b, taskDef) == Matching(a, taskDef) + Matching(b, taskDef)
  {
    if b == [] {
      assert a + b == a;
    } else {
      var front, last := b[..|b| - 1], b[|b| - 1];
      assert b == front + [last];
      MatchingConcat(a, front, taskDef);
      MatchingStep(a, front, last, taskDef);
    }
  }

  predicate Filled(batches: seq<seq<string>>)
  {
    forall i :: 0 <= i < |batches| ==> |batches[i]| == 10
  }

  /** Ten names each, but for the last batch, which has one to ten. */
  predicate Sized(batches: seq<seq<string>>)
  {
    forall i :: 0 <= i < |batches| ==> 1 <= |batches[i]| <= 10 && (i < |batches| - 1 ==> |batches[i]| == 10)
  }

  /** Batches in order, none empty, all but the last full. */
  predicate Batched(batches: seq<seq<string>>, names: seq<string>)
  {
    Flatten(batches) == names && Sized(batches)
  }

  method CollectMatches(services: seq<EcsService>, taskDef: string) returns (names: seq<string>)
    ensures names == Matching(services, taskDef)
  {
    names := [];
    for j := 0 to |services|
      invariant names == Matching(services[..j], taskDef)
    {
      assert services[..j + 1][..j] == services[..j];
      if services[j].taskDefinition == taskDef {
        names := names + [services[j].name];
      }
    }
    assert services[..|services|] == services;
  }

  lemma OneMoreBatch(describe: Describe, batches: seq<seq<string>>, chunk: seq<string>, taskDef: string)
    requires AllDescribed(describe, batches)
    ensures Flatten(batches + [chunk]) == Flatten(batches) + chunk
    ensures AllDescribed(describe, batches + [chunk]) <==> describe(chunk).Some?
    ensures describe(chunk).Some? ==>
              Matching(Described(describe, batches + [chunk]), taskDef)
              == Matching(Described(describe, batches), taskDef) + Matching(describe(chunk).value, taskDef)
  {
    var calls := batches + [chunk];
    assert calls[..|calls| - 1] == batches && calls[|calls| - 1] == chunk;
    if describe(chunk).Some? {
      MatchingConcat(Described(describe, batches), describe(chunk).value, taskDef);
    }
  }

  /** Where the loop stands before name `i`: the names from `start` on are collected, the others described. */
  predicate Collecting(names: seq<string>, i: nat, start: nat, chunk: seq<string>, batches: seq<seq<string>>)
  {
    && start <= i <= |names| && chunk == names[start..i]
    && Flatten(batches) == names[..start]
    && (if i == |names| then start == i && Sized(batches) else |chunk| == i % 10 && Filled(batches))
  }

  /** A call is made after every tenth name and after the last one. */
  predicate CallAfter(names: seq<string>, i: nat)
  {
    ((i + 1) % 10 == 0 && i > 0) || i == |names| - 1
  }

  lemma NextName(names: seq<string>, i: nat, start: nat, chunk: seq<string>, batches: seq<seq<string>>)
    requires Collecting(names, i, start, chunk, batches) && i < |names|
    ensures var next := chunk + [names[i]];
            && 1 <= |next| <= 10 && Flatten(batches) + next == names[..i + 1]
            && (!CallAfter(names, i) ==> Collecting(names, i + 1, start, next, batches))
            && (CallAfter(names, i) && i < |names| - 1 ==> |next| == 10)
  {
    assert names[start..i] + [names[i]] == names[start..i + 1];
    assert names[..start] + names[start..i + 1] == names[..i + 1];
  }

  lemma NextBatch(names: seq<string>, i: nat, batches: seq<seq<string>>)
    requires i < |names| && CallAfter(names, i) && Flatten(batches) == names[..i + 1] && Sized(batches)
    requires i < |names| - 1 ==> Filled(batches)
    ensures Collecting(names, i + 1, i + 1, [], batches)
  {
    assert names[i + 1..i + 1] == [];
  }

  /** One API call with the names collected, and the search of its answer. */
  method DescribeBatch(batches: seq<seq<string>>, chunk: seq<string>, matched: seq<string>, taskDef: string,
                       describe: Describe)
    returns (ok: bool, batches': seq<seq<string>>, matched': seq<string>)
    requires AllDescribed(describe, batches) && matched == Matching(Described(describe, batches), taskDef)
    requires Filled(batches) && 1 <= |chunk| <= 10
    ensures |chunk| == 10 ==> Filled(batches')
    ensures Sized(batches') && batches' == batches + [chunk] && Flatten(batches') == Flatten(batches) + chunk
    ensures ok <==> describe(chunk).Some?
    ensures ok ==> AllDescribed(describe, batches')
    ensures ok ==> matched' == Matching(Described(describe, batches'), taskDef)
  {
    OneMoreBatch(describe, batches, chunk, taskDef);
    batches', matched' := batches + [chunk], matched;
    var out := describe(chunk);
    if out.None? {
      return false, batches', matched';
    }
    var found := CollectMatches(out.value, taskDef);
    matched' := matched + found;
    ok := true;
  }

  /** What was called when the last call failed: the batches so far, in order, all but the last described. */
  predicate GivenUp(describe: Describe, batches: seq<seq<string>>, names: seq<string>)
  {
    && Flatten(batches) <= names && Sized(batches)
    && batches != [] && AllDescribed(describe, batches[..|batches| - 1]) && describe(batches[|batches| - 1]).None?
  }

  lemma LastFailed(describe: Describe, batches: seq<seq<string>>, chunk: seq<string>, names: seq<string>, n: nat)
    requires AllDescribed(describe, batches) && Filled(batches) && 1 <= |chunk| <= 10 && describe(chunk).None?
    requires n <= |names| && Flatten(batches) + chunk == names[..n]
    ensures GivenUp(describe, batches + [chunk], names)
  {
    assert (batches + [chunk])[..|batches|] == batches;
  }

  /** The loop's variables before name `i`. */
  datatype Scan = Scan(chunk: seq<string>, batches: seq<seq<string>>, matched: seq<string>)

  predicate Scanned(names: seq<string>, taskDef: string, describe: Describe, i: nat, start: nat, scan: Scan)
  {
    && Collecting(names, i, start, scan.chunk, scan.batches) && AllDescribed(describe, scan.batches)
    && scan.matched == Matching(Described(describe, scan.batches), taskDef)
  }

  /** One iteration: the name is collected, and the names collected are described if it is time for that. */
  method NextScan(names: seq<string>, taskDef: string, describe: Describe, i: nat, ghost start: nat, scan: Scan)
    returns (ok: bool, scan': Scan, ghost start': nat)
    requires i < |names| && Scanned(names, taskDef, describe, i, start, scan)
    ensures ok ==> Scanned(names, taskDef, describe, i + 1, start', scan')
    ensures !ok ==> GivenUp(describe, scan'.batches, names)
  {
    NextName(names, i, start, scan.chunk, scan.batches);
    var chunk := scan.chunk + [names[i]];
    if !CallAfter(names, i) {
      return true, scan.(chunk := chunk), start;
    }
    var batches, matched;
    ok, batches, matched := DescribeBatch(scan.batches, chunk, scan.matched, taskDef, describe);
    scan', start' := Scan([], batches, matched), i + 1;
    if ok {
      NextBatch(names, i, batches);
    } else {
      LastFailed(describe, scan.batches, chunk, names, i + 1);
    }
  }

  /** The loop of `lookupServiceName`; the first failed call gives up. */
  method DescribeAll(names: seq<string>, taskDef: string, describe: Describe)
    returns (ok: bool, matched: seq<string>, batches: seq<seq<string>>)
    ensures ok ==> Batched(batches, names) && AllDescribed(describe, batches)
    ensures ok ==> matched == Matching(Described(describe, batches), taskDef)
    ensures !ok ==> GivenUp(describe, batches, names)
  {
    var scan := Scan([], [], []);
    ghost var start := 0;
    for i := 0 to |names|
      invariant Scanned(names, taskDef, describe, i, start, scan)
    {
      ok, scan, start := NextScan(names, taskDef, describe, i, start, scan);
      if !ok {
        return false, scan.matched, scan.batches;
      }
    }
    assert names[..|names|] == names;
    return true, scan.matched, scan.batches;
  }

  /** `lookupServiceName`, with the batches it asked for. */
  method LookupServiceName(names: seq<string>, taskDef: string, describe: Describe)
    returns (service: string, batches: seq<seq<string>>)
    ensures AllDescribed(describe, batches) ==>
              Batched(batches, names) && service == Decide(Described(describe, batches), taskDef)
    ensures !AllDescribed(describe, batches) ==> service == "" && GivenUp(describe, batches, names)
  {
    var ok, matched;
    ok, matched, batches := DescribeAll(names, taskDef, describe);
    if ok && |matched| == 1 {
      return matched[0], batches;
    }
    return "", batches;
  }

  /** A service that describes each name on its own, so that batching makes no difference to it. */
  ghost predicate Pointwise(describe: Describe)
  {
    && describe([]) == Some([])
    && forall a, b :: describe(a).Some? && describe(b).Some? ==>
         describe(a + b).Some? && describe(a + b).value == describe(a).value + describe(b).value
  }

  lemma {:induction false} BatchesDescribeAll(describe: Describe, batches: seq<seq<string>>)
    requires Pointwise(describe) && AllDescribed(describe, batches)
    ensures describe(Flatten(batches)) == Some(Described(describe, batches))
  {
    if batches != [] {
      BatchesDescribeAll(describe, batches[..|batches| - 1]);
    }
  }

  /** Looking names up in batches gives what one call for all of them would give. */
  lemma ChunkedEqualsUnchunked(describe: Describe, batches: seq<seq<string>>, names: seq<string>, taskDef: string)
    requires Pointwise(describe) && Batched(batches, names) && AllDescribed(describe, batches)
    ensures describe(names).Some?
    ensures Decide(Described(describe, batches), taskDef) == Decide(describe(names).value, taskDef)
  {
    BatchesDescribeAll(describe, batches);
  }

  lemma {:induction false} NoMatches(services: seq<EcsService>, taskDef: string)
    requires forall i :: 0 <= i < |services| ==> services[i].taskDefinition != taskDef
    ensures Matching(services, taskDef) == []
  {
    if services != [] {
      NoMatches(services[..|services| - 1], taskDef);
    }
  }

  lemma MatchAt(services: seq<EcsService>, taskDef: string, i: nat)
    requires i < |services| && services[i].taskDefinition == taskDef
    ensures Matching(services, taskDef)
         == Matching(services[..i], taskDef) + [services[i].name] + Matching(services[i + 1..], taskDef)
  {
    assert services == services[..i] + [services[i]] + services[i + 1..];
    MatchingConcat(services[..i] + [services[i]], services[i + 1..], taskDef);
    MatchingConcat(services[..i], [services[i]], taskDef);
    assert [services[i]][..0] == [];
    assert Matching([services[i]], taskDef) == [services[i].name];
  }

  /** The one service with the task definition is named, when it is the only one. */
  lemma DecideUnique(services: seq<EcsService>, taskDef: string, i: nat)
    requires i < |services| && services[i].taskDefinition == taskDef
    requires forall j :: 0 <= j < |services| && j != i ==> services[j].taskDefinition != taskDef
    ensures Decide(services, taskDef) == services[i].name
  {
    MatchAt(services, taskDef, i);
    NoMatches(services[..i], taskDef);
    NoMatches(services[i + 1..], taskDef);
  }

  /** None or several with the task definition name nothing. */
  lemma DecideNone(services: seq<EcsService>, taskDef: string)
    requires (forall j :: 0 <= j < |services| ==> services[j].taskDefinition != taskDef)
             || (exists i, j :: 0 <= i < j < |services|
                               && services[i].taskDefinition == taskDef == services[j].taskDefinition)
    ensures Decide(services, taskDef) == ""
  {
    if i, j :| 0 <= i < j < |services| && services[i].taskDefinition == taskDef == services[j].taskDefinition {
      MatchAt(services, taskDef, i);
      assert services[i + 1..][j - i - 1] == services[j];
      MatchAt(services[i + 1..], taskDef, j - i - 1);
    } else {
      NoMatches(services, taskDef);
    }
  }
}
