/** The search for a container's load balancer when no service name is known: page by page over all
    target groups, then over the listeners of the load balancer found (aws/elb.go).
  */
module TargetSearch {
  import opened Options

  datatype Target = Target(id: string, port: int)

  /** What the (possibly cached) health lookup of a group gives.  `Unusable` stands for a cached value of
      another type under the same key, and for a missing list. */
  datatype Health = Failed | Unusable | Targets(list: seq<Option<Target>>)

  /** A target group; nil load balancer lists are None. */
  datatype Group = Group(arn: string, lbArns: Option<seq<string>>, health: Health)

  type Page = seq<Option<Group>>

  datatype Outcome = HealthError | NoLoadBalancer | Found(lbArns: seq<string>, tgArn: string)

  // ---------------------------------------------------------------- specification

  predicate Contains(g: Group, target: Target)
  {
    g.health.Targets? && Some(target) in g.health.list
  }

  /** The last group that contains the target. */
  function LastMatch(groups: Page, target: Target): (m: Option<Group>)
    ensures m.Some? ==> m in groups && Contains(m.value, target)
    ensures m.None? ==> forall g :: Some(g) in groups ==> !Contains(g, target)
  {
    if groups == [] then None
    else
      var last := groups[|groups| - 1];
      if last.Some? && Contains(last.value, target) then last else LastMatch(groups[..|groups| - 1], target)
  }

  /** The groups of the first `k` pages. */
  function UpTo(pages: seq<Page>, k: nat): Page
    requires k <= |pages|
  {
    if k == 0 then [] else UpTo(pages, k - 1) + pages[k - 1]
  }

  predicate AnyFailed(groups: Page)
  {
    exists i :: 0 <= i < |groups| && groups[i].Some? && groups[i].value.health.Failed?
  }

  /** The scan may stop after page `k`: the last match so far has a load balancer and a name. */
  predicate StopsAt(pages: seq<Page>, target: Target, k: nat)
    requires k <= |pages|
  {
    var m := LastMatch(UpTo(pages, k), target);
    m.Some? && m.value.lbArns.Some? && m.value.arn != ""
  }

  /** No page before `k` ends the scan, and none of their lookups failed. */
  ghost predicate Reaches(pages: seq<Page>, target: Target, k: nat)
    requires k <= |pages|
  {
    && (forall j :: 0 <= j < k ==> !StopsAt(pages, target, j))
    && (k > 0 ==> !AnyFailed(UpTo(pages, k - 1)))
  }

  function Chosen(m: Option<Group>): Outcome
  {
    if m.None? || m.value.lbArns.None? then NoLoadBalancer else Found(m.value.lbArns.value, m.value.arn)
  }

  /** The page at which the scan ends: at a failed lookup, at the first match with a load balancer, or at the end. */
  ghost predicate EndsAt(pages: seq<Page>, target: Target, k: nat)
    requires k <= |pages|
  {
    Reaches(pages, target, k) && (AnyFailed(UpTo(pages, k)) || StopsAt(pages, target, k) || k == |pages|)
  }

  function OutcomeAt(pages: seq<Page>, target: Target, k: nat): Outcome
    requires k <= |pages|
  {
    if AnyFailed(UpTo(pages, k)) then HealthError else Chosen(LastMatch(UpTo(pages, k), target))
  }

  lemma AnyFailedConcat(a: Page, b: Page)
    ensures AnyFailed(a + b) <==> AnyFailed(a) || AnyFailed(b)
  {
    if AnyFailed(a) {
      var i :| 0 <= i < |a| && a[i].Some? && a[i].value.health.Failed?;
      assert (a + b)[i] == a[i];
    }
    if AnyFailed(b) {
      var i :| 0 <= i < |b| && b[i].Some? && b[i].value.health.Failed?;
      assert (a + b)[|a| + i] == b[i];
    }
  }

  lemma {:induction false} FailedStays(pages: seq<Page>, j: nat, k: nat)
    requires j <= k <= |pages| && AnyFailed(UpTo(pages, j))
    ensures AnyFailed(UpTo(pages, k))
  {
    if j < k {
      FailedStays(pages, j, k - 1);
      AnyFailedConcat(UpTo(pages, k - 1), pages[k - 1]);
    }
  }

  /** The scan ends at one page only, so the outcome is determined. */
  lemma EndsOnce(pages: seq<Page>, target: Target, j: nat, k: nat)
    requires j <= |pages| && k <= |pages| && EndsAt(pages, target, j) && EndsAt(pages, target, k)
    ensures j == k
  {
    if j < k && AnyFailed(UpTo(pages, j)) {
      FailedStays(pages, j, k - 1);
    }
    if k < j && AnyFailed(UpTo(pages, k)) {
      FailedStays(pages, k, j - 1);
    }
  }

  // ---------------------------------------------------------------- the search

  lemma LastMatchSnoc(groups: Page, g: Option<Group>, target: Target)
    ensures LastMatch(groups + [g], target)
         == if g.Some? && Contains(g.value, target) then g else LastMatch(groups, target)
  {
    assert (groups + [g])[..|groups|] == groups;
  }

  /** `lbArns` and `tgArn` as they follow from the last match. */
  predicate Follows(m: Option<Group>, lbArns: Option<seq<string>>, tgArn: string)
  {
    if m.None? then lbArns.None? && tgArn == "" else lbArns == m.value.lbArns && tgArn == m.value.arn
  }

  /** One page: nil groups are skipped, a failed lookup returns, an unusable one is passed over, and
      a group with the target overwrites both variables. */
  method ScanPage(page: Page, target: Target, before: Page, lbArns: Option<seq<string>>, tgArn: string)
    returns (failed: bool, lbArns': Option<seq<string>>, tgArn': string)
    requires Follows(LastMatch(before, target), lbArns, tgArn)
    ensures failed <==> AnyFailed(page)
    ensures !failed ==> Follows(LastMatch(before + page, target), lbArns', tgArn')
  {
    lbArns', tgArn' := lbArns, tgArn;
    assert before + page[..0] == before;
    for n := 0 to |page|
      invariant !AnyFailed(page[..n])
      invariant Follows(LastMatch(before + page[..n], target), lbArns', tgArn')
    {
      assert page[..n + 1] == page[..n] + [page[n]];
      assert before + page[..n + 1] == (before + page[..n]) + [page[n]];
      LastMatchSnoc(before + page[..n], page[n], target);
      if page[n].None? {
        continue;
      }
      var tg := page[n].value;
      if tg.health.Failed? {
        return true, lbArns', tgArn';
      }
      if tg.health.Unusable? {
        continue;
      }
      var list := tg.health.list;
      for i := 0 to |list|
        invariant Some(target) !in list[..i]
        invariant Follows(LastMatch(before + page[..n], target), lbArns', tgArn')
      {
        if list[i].None? {
          continue;
        }
        if list[i].value.port == target.port && list[i].value.id == target.id {
          lbArns' := tg.lbArns;
          tgArn' := tg.arn;
          break;
        }
      }
    }
    assert page[..|page|] == page;
    failed := false;
  }

  /** The nested loops of the search, with their partial breaks. */
  method FindTargetGroup(pages: seq<Page>, target: Target) returns (r: Outcome)
    ensures exists k :: 0 <= k <= |pages| && EndsAt(pages, target, k) && r == OutcomeAt(pages, target, k)
  {
    var lbArns: Option<seq<string>>, tgArn := None, "";
    var n := 0;
    while n < |pages|
      invariant 0 <= n <= |pages|
      invariant Reaches(pages, target, n) && !AnyFailed(UpTo(pages, n)) && !StopsAt(pages, target, n)
      invariant Follows(LastMatch(UpTo(pages, n), target), lbArns, tgArn)
    {
      AnyFailedConcat(UpTo(pages, n), pages[n]);
      var failed;
      failed, lbArns, tgArn := ScanPage(pages[n], target, UpTo(pages, n), lbArns, tgArn);
      n := n + 1;
      assert UpTo(pages, n) == UpTo(pages, n - 1) + pages[n - 1];
      assert Reaches(pages, target, n);
      if failed {
        assert EndsAt(pages, target, n);
        return HealthError;
      }
      if lbArns.Some? && tgArn != "" {
        assert EndsAt(pages, target, n);
        return Found(lbArns.value, tgArn);
      }
    }
    assert EndsAt(pages, target, n);
    r := if lbArns.None? then NoLoadBalancer else Found(lbArns.value, tgArn);
  }

  /** The last match after page `k` has a load balancer, and a name unless the pages end there. */
  predicate FindsAt(pages: seq<Page>, target: Target, k: nat)
    requires k <= |pages|
  {
    var m := LastMatch(UpTo(pages, k), target);
    m.Some? && m.value.lbArns.Some? && (m.value.arn != "" || k == |pages|)
  }

  /** For all inputs: the search finds the last match so far at the first page end where that match has a load
      balancer, unless a lookup fails up to there, and succeeds exactly when there is such a page end. */
  lemma SearchResult(pages: seq<Page>, target: Target, k: nat)
    requires k <= |pages| && EndsAt(pages, target, k)
    ensures OutcomeAt(pages, target, k).Found? <==>
            exists j :: 0 <= j <= |pages| && FindsAt(pages, target, j) && !AnyFailed(UpTo(pages, j))
    ensures OutcomeAt(pages, target, k).NoLoadBalancer? <==>
            !AnyFailed(UpTo(pages, |pages|)) && forall j :: 0 <= j <= |pages| ==> !FindsAt(pages, target, j)
    ensures OutcomeAt(pages, target, k).Found? ==>
              && FindsAt(pages, target, k)
              && (forall j :: 0 <= j < k ==> !FindsAt(pages, target, j))
              && var g := LastMatch(UpTo(pages, k), target).value;
                 Contains(g, target) && OutcomeAt(pages, target, k) == Found(g.lbArns.value, g.arn)
  {
    assert forall j :: 0 <= j < |pages| ==> (FindsAt(pages, target, j) <==> StopsAt(pages, target, j));
    if AnyFailed(UpTo(pages, k)) {
      FailedStays(pages, k, |pages|);
    }
    if j :| 0 <= j <= |pages| && FindsAt(pages, target, j) && !AnyFailed(UpTo(pages, j)) {
      assert j >= k;
      if AnyFailed(UpTo(pages, k)) {
        FailedStays(pages, k, j);
      }
    }
  }

  // ---------------------------------------------------------------- listeners

  datatype Listener = Listener(port: Option<int>, actions: seq<string>)

  /** The port of the last listener with a default action on the group. */
  function LastListenerPort(listeners: seq<Listener>, tgArn: string): Option<int>
  {
    if listeners == [] then None
    else
      var last := listeners[|listeners| - 1];
      if tgArn in last.actions then last.port else LastListenerPort(listeners[..|listeners| - 1], tgArn)
  }

  /** Listener `i` is the last with a default action on the group. */
  predicate IsLast(listeners: seq<Listener>, tgArn: string, i: nat)
  {
    && i < |listeners| && tgArn in listeners[i].actions
    && forall j :: i < j < |listeners| ==> tgArn !in listeners[j].actions
  }

  method ListenerPort(listeners: seq<Listener>, tgArn: string) returns (port: Option<int>)
    ensures port == LastListenerPort(listeners, tgArn)
    ensures port.Some? ==>
              exists i :: 0 <= i < |listeners| && IsLast(listeners, tgArn, i) && listeners[i].port == port
    ensures port.None? ==> forall i :: 0 <= i < |listeners| && IsLast(listeners, tgArn, i) ==> listeners[i].port.None?
  {
    port := None;
    ghost var at := -1;
    for n := 0 to |listeners|
      invariant port == LastListenerPort(listeners[..n], tgArn)
      invariant -1 <= at < n
      invariant port.Some? ==> at >= 0
      invariant at >= 0 ==> tgArn in listeners[at].actions && listeners[at].port == port
      invariant forall j :: at < j < n ==> tgArn !in listeners[j].actions
    {
      assert listeners[..n + 1][..n] == listeners[..n];
      var actions := listeners[n].actions;
      for i := 0 to |actions|
        invariant tgArn !in actions[..i]
        invariant port == LastListenerPort(listeners[..n], tgArn)
      {
        if actions[i] == tgArn {
          port := listeners[n].port;
          at := n;
          break;
        }
      }
    }
    assert listeners[..|listeners|] == listeners;
    assert at >= 0 ==> IsLast(listeners, tgArn, at);
  }
}
