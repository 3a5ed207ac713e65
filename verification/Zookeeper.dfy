/** The Zookeeper adapter keeps a two-level tree of nodes, by path, and should keep a set of endpoints
    (zookeeper/zookeeper.go).
  */
module Zookeeper {

  /** The paths of the nodes that exist. */
  type Tree = set<string>

  /** A registered service as the adapter sees it: its name, and `IP:port`. */
  datatype Endpoint = Endpoint(name: string, address: string)

  predicate Component(s: string) { s != "" && '/' !in s }

  /** The address has no slash, though it may be empty. */
  predicate Shaped(e: Endpoint) { Component(e.name) && '/' !in e.address }

  predicate Legal(e: Endpoint) { Component(e.name) && Component(e.address) }

  /** A path under which nodes can be made. */
  predicate LegalRoot(root: string)
  {
    root != "" && (root == "/" || root[|root| - 1] != '/')
  }

  // ---------------------------------------------------------------- the server

  /** Index of the last slash, or -1. */
  function LastSlash(p: string): (i: int)
    ensures -1 <= i < |p|
    ensures i >= 0 ==> p[i] == '/'
    ensures forall j :: i < j < |p| ==> p[j] != '/'
  {
    if p == "" then -1 else if p[|p| - 1] == '/' then |p| - 1 else LastSlash(p[..|p| - 1])
  }

  function Parent(p: string): string
  {
    var i := LastSlash(p);
    if i <= 0 then "/" else p[..i]
  }

  function Children(tree: Tree, p: string): set<string>
  {
    set q | q in tree && q != "/" && Parent(q) == p
  }

  /** Creating fails, and changes nothing, if the node exists or its parent does not. */
  function Create(tree: Tree, p: string): Tree
  {
    if p in tree || Parent(p) !in tree then tree else tree + {p}
  }

  /** Deleting fails, and changes nothing, if the node is missing or has children. */
  function Delete(tree: Tree, p: string): Tree
  {
    if Children(tree, p) != {} then tree else tree - {p}
  }

  // ---------------------------------------------------------------- the adapter

  function BasePath(root: string, name: string): string
  {
    if root == "/" then root + name else root + "/" + name
  }

  function LeafPath(root: string, e: Endpoint): string
  {
    BasePath(root, e.name) + "/" + e.address
  }

  class ZkAdapter {
    const path: string
    var tree: Tree

    constructor (path: string, tree: Tree)
      ensures this.path == path && this.tree == tree
    {
      this.path, this.tree := path, tree;
    }

    /** Errors of Create are logged and forgotten; the error returned is that of Exists. */
    method Register(e: Endpoint)
      modifies this
      ensures tree == Registered(path, old(tree), e)
      ensures LegalRoot(path) && Legal(e) ==> forall s :: Refines(path, old(tree), s) ==> Refines(path, tree, s + {e})
    {
      var basePath := BasePath(path, e.name);
      var present := basePath in tree;
      if !present {
        tree := Create(tree, basePath);
      }
      tree := Create(tree, basePath + "/" + e.address);
      if LegalRoot(path) && Legal(e) {
        forall s | Refines(path, old(tree), s)
          ensures Refines(path, tree, s + {e})
        {
          RegisterRefines(path, old(tree), s, e);
        }
      }
    }

    /** Deletes the endpoint's node, then the name's node if it has no children left; the error
        returned is that of asking for the children. */
    method Deregister(e: Endpoint) returns (failed: bool)
      modifies this
      ensures tree == Deregistered(path, old(tree), e)
      ensures LegalRoot(path) && Legal(e) ==> forall s :: Refines(path, old(tree), s) ==> Refines(path, tree, s - {e})
      ensures failed <==> BasePath(path, e.name) !in Delete(old(tree), LeafPath(path, e))
    {
      var basePath := BasePath(path, e.name);
      tree := Delete(tree, basePath + "/" + e.address);
      failed := basePath !in tree;
      var children := if failed then {} else Children(tree, basePath);
      if |children| == 0 {
        tree := Delete(tree, basePath);
      }
      if LegalRoot(path) && Legal(e) {
        forall s | Refines(path, old(tree), s)
          ensures Refines(path, tree, s - {e})
        {
          DeregisterRefines(path, old(tree), s, e);
        }
      }
    }
  }

  function Registered(root: string, tree: Tree, e: Endpoint): Tree
  {
    Create(Create(tree, BasePath(root, e.name)), LeafPath(root, e))
  }

  function Deregistered(root: string, tree: Tree, e: Endpoint): Tree
  {
    var tree1 := Delete(tree, LeafPath(root, e));
    var base := BasePath(root, e.name);
    if base !in tree1 || Children(tree1, base) == {} then Delete(tree1, base) else tree1
  }

  // ---------------------------------------------------------------- paths

  lemma LastSlashIs(p: string, i: nat)
    requires i < |p| && p[i] == '/' && '/' !in p[i + 1..]
    ensures LastSlash(p) == i
  {
    assert forall k :: i < k < |p| ==> p[k] == p[i + 1..][k - i - 1];
  }

  lemma BaseParent(root: string, name: string)
    requires LegalRoot(root) && Component(name)
    ensures Parent(BasePath(root, name)) == root
    ensures |BasePath(root, name)| > |root| && BasePath(root, name) != "/"
  {
    var p := BasePath(root, name);
    var i := if root == "/" then 0 else |root|;
    assert p[i + 1..] == name;
    LastSlashIs(p, i);
    assert root != "/" ==> p[..i] == root;
  }

  lemma LeafParent(root: string, e: Endpoint)
    requires LegalRoot(root) && Shaped(e)
    ensures Parent(LeafPath(root, e)) == BasePath(root, e.name)
    ensures |LeafPath(root, e)| > |root| && LeafPath(root, e) != "/"
  {
    BaseParent(root, e.name);
    var base, p := BasePath(root, e.name), LeafPath(root, e);
    assert p[|base| + 1..] == e.address && p[|base|] == '/' && p[..|base|] == base;
    LastSlashIs(p, |base|);
  }

  lemma BaseInjective(root: string, n: string, m: string)
    requires BasePath(root, n) == BasePath(root, m)
    ensures n == m
  {
    var i := if root == "/" then 1 else |root| + 1;
    assert BasePath(root, n)[i..] == n && BasePath(root, m)[i..] == m;
  }

  lemma LeafInjective(root: string, e: Endpoint, f: Endpoint)
    requires LegalRoot(root) && Shaped(e) && Shaped(f) && LeafPath(root, e) == LeafPath(root, f)
    ensures e == f
  {
    LeafParent(root, e);
    LeafParent(root, f);
    BaseInjective(root, e.name, f.name);
    var i := |BasePath(root, e.name)| + 1;
    assert LeafPath(root, e)[i..] == e.address && LeafPath(root, f)[i..] == f.address;
  }

  lemma LeafIsNotBase(root: string, e: Endpoint, n: string)
    requires LegalRoot(root) && Shaped(e) && Component(n)
    ensures LeafPath(root, e) != BasePath(root, n)
  {
    BaseParent(root, n);
    BaseParent(root, e.name);
    LeafParent(root, e);
  }

  /** Whatever lies right under a name's node is the path of an endpoint of that name. */
  lemma ChildIsLeaf(root: string, name: string, q: string) returns (e: Endpoint)
    requires LegalRoot(root) && Component(name) && Parent(q) == BasePath(root, name)
    ensures e.name == name && Shaped(e) && q == LeafPath(root, e)
  {
    BaseParent(root, name);
    var i := LastSlash(q);
    e := Endpoint(name, q[i + 1..]);
    assert q == q[..i] + "/" + q[i + 1..];
  }

  /** A path as the server takes it: it begins with a slash, and has no empty component and no trailing slash. */
  predicate WellFormed(p: string)
  {
    && p != "" && p[0] == '/' && (|p| > 1 ==> p[|p| - 1] != '/')
    && forall i :: 0 <= i < |p| - 1 ==> !(p[i] == '/' && p[i + 1] == '/')
  }

  lemma WellFormedChild(p: string, name: string)
    requires WellFormed(p) && Component(name)
    ensures WellFormed(if p == "/" then p + name else p + "/" + name)
  {
    var q := if p == "/" then p + name else p + "/" + name;
    var n := |q| - |name|;
    assert forall i :: n <= i < |q| ==> q[i] == name[i - n];
    assert forall i :: 0 <= i < |name| ==> name[i] in name;
    assert q[n - 1] == '/';
  }

  /** The nodes the adapter makes are the root, a slash, the name, a slash and the address, and well-formed, under
      the root directory as under any other. */
  lemma PathsSpelled(root: string, e: Endpoint)
    requires WellFormed(root) && Legal(e)
    ensures BasePath(root, e.name) == (if root == "/" then "/" + e.name else root + "/" + e.name)
    ensures LeafPath(root, e) == BasePath(root, e.name) + "/" + e.address
    ensures WellFormed(BasePath(root, e.name)) && WellFormed(LeafPath(root, e)) && LegalRoot(root)
  {
    WellFormedChild(root, e.name);
    WellFormedChild(BasePath(root, e.name), e.address);
  }

  // ---------------------------------------------------------------- the tree refines a set

  ghost predicate HasName(s: set<Endpoint>, name: string)
  {
    exists e :: e in s && e.name == name
  }

  /** The endpoint nodes are exactly those of `s`, there are no deeper nodes, and a name with an endpoint has a
      node; a name without one may have a node only while it is in `busy`. */
  ghost predicate Loose(root: string, tree: Tree, s: set<Endpoint>, busy: set<string>)
  {
    && root in tree
    && (forall e :: e in s ==> Legal(e))
    && (forall e: Endpoint :: Shaped(e) ==> (LeafPath(root, e) in tree <==> e in s))
    && (forall e: Endpoint :: Shaped(e) ==> Children(tree, LeafPath(root, e)) == {})
    && (forall n :: Component(n) ==> NameOk(root, tree, s, busy, n))
  }

  ghost predicate NameOk(root: string, tree: Tree, s: set<Endpoint>, busy: set<string>, n: string)
  {
    && (HasName(s, n) ==> BasePath(root, n) in tree)
    && (BasePath(root, n) in tree ==> HasName(s, n) || n in busy)
  }

  /** With no name busy: a name has a node exactly when it has an endpoint. */
  ghost predicate Refines(root: string, tree: Tree, s: set<Endpoint>)
  {
    Loose(root, tree, s, {})
  }

  /** Trees that differ in one node of a name or an endpoint have the same nodes below the endpoints. */
  lemma NoDeeperNodes(root: string, tree: Tree, tree': Tree, e: Endpoint, f: Endpoint)
    requires LegalRoot(root) && Shaped(e) && Shaped(f) && Children(tree, LeafPath(root, f)) == {}
    requires tree' <= tree + {BasePath(root, e.name), LeafPath(root, e)}
    ensures Children(tree', LeafPath(root, f)) == {}
  {
    BaseParent(root, e.name);
    LeafParent(root, e);
    LeafParent(root, f);
    LeafIsNotBase(root, f, e.name);
  }

  lemma NamesAfterAdd(s: set<Endpoint>, e: Endpoint, n: string)
    ensures HasName(s + {e}, n) <==> HasName(s, n) || e.name == n
  {
    if HasName(s, n) {
      var f :| f in s && f.name == n;
      assert f in s + {e};
    }
    assert e in s + {e};
  }

  lemma NamesAfterRemoval(s: set<Endpoint>, e: Endpoint, n: string)
    ensures HasName(s - {e}, n) ==> HasName(s, n)
    ensures n != e.name ==> (HasName(s - {e}, n) <==> HasName(s, n))
  {
    if HasName(s - {e}, n) {
      var f :| f in s - {e} && f.name == n;
      assert f in s;
    }
    if n != e.name && HasName(s, n) {
      var f :| f in s && f.name == n;
      assert f in s - {e};
    }
  }

  /** A name's node has a child exactly when the name has an endpoint. */
  lemma ChildrenIff(root: string, tree: Tree, s: set<Endpoint>, busy: set<string>, n: string)
    requires LegalRoot(root) && Component(n) && Loose(root, tree, s, busy)
    ensures Children(tree, BasePath(root, n)) != {} <==> HasName(s, n)
  {
    if HasName(s, n) {
      var f :| f in s && f.name == n;
      LeafParent(root, f);
      assert LeafPath(root, f) in Children(tree, BasePath(root, n));
    }
    if q :| q in Children(tree, BasePath(root, n)) {
      var f := ChildIsLeaf(root, n, q);
      assert f in s;
    }
  }

  // ---------------------------------------------------------------- one client call

  /** A tree that gains or loses the node of name `e.name` only. */
  lemma BaseOnly(root: string, tree: Tree, tree': Tree, s: set<Endpoint>, busy: set<string>, busy': set<string>,
                 e: Endpoint)
    requires LegalRoot(root) && Shaped(e) && Loose(root, tree, s, busy)
    requires tree' - {BasePath(root, e.name)} == tree - {BasePath(root, e.name)}
    requires busy' - {e.name} == busy - {e.name} && NameOk(root, tree', s, busy', e.name)
    ensures Loose(root, tree', s, busy')
  {
    var base := BasePath(root, e.name);
    BaseParent(root, e.name);
    assert forall p :: p != base ==> (p in tree' <==> p in tree' - {base});
    assert forall p :: p != base ==> (p in tree <==> p in tree - {base});
    forall f: Endpoint | Shaped(f)
      ensures LeafPath(root, f) in tree' <==> f in s
      ensures Children(tree', LeafPath(root, f)) == {}
    {
      LeafIsNotBase(root, f, e.name);
      NoDeeperNodes(root, tree, tree', e, f);
    }
    forall n | Component(n)
      ensures NameOk(root, tree', s, busy', n)
    {
      if BasePath(root, n) == base {
        BaseInjective(root, n, e.name);
      } else {
        assert NameOk(root, tree, s, busy, n);
        assert n in busy' - {e.name} <==> n in busy - {e.name};
      }
    }
  }

  lemma CreateBase(root: string, tree: Tree, s: set<Endpoint>, busy: set<string>, e: Endpoint)
    requires LegalRoot(root) && Legal(e) && Loose(root, tree, s, busy)
    ensures var tree' := Create(tree, BasePath(root, e.name));
            BasePath(root, e.name) in tree' && Loose(root, tree', s, busy + {e.name})
  {
    BaseParent(root, e.name);
    BaseOnly(root, tree, Create(tree, BasePath(root, e.name)), s, busy, busy + {e.name}, e);
  }

  lemma DeleteBase(root: string, tree: Tree, s: set<Endpoint>, busy: set<string>, e: Endpoint)
    requires LegalRoot(root) && Legal(e) && Loose(root, tree, s, busy)
    ensures Loose(root, Delete(tree, BasePath(root, e.name)), s, busy - {e.name})
  {
    BaseParent(root, e.name);
    ChildrenIff(root, tree, s, busy, e.name);
    BaseOnly(root, tree, Delete(tree, BasePath(root, e.name)), s, busy, busy - {e.name}, e);
  }

  /** Trees that agree but for the endpoint's node agree on names and on other endpoints. */
  lemma LeafOnly(root: string, tree: Tree, tree': Tree, s: set<Endpoint>, s': set<Endpoint>, busy: set<string>,
                 e: Endpoint, f: Endpoint)
    requires LegalRoot(root) && Legal(e) && Shaped(f) && Loose(root, tree, s, busy)
    requires tree' == (if e in s' then tree + {LeafPath(root, e)} else tree - {LeafPath(root, e)})
    requires s' == s + {e} || s' == s - {e}
    ensures LeafPath(root, f) in tree' <==> f in s'
    ensures Children(tree', LeafPath(root, f)) == {}
  {
    if LeafPath(root, f) == LeafPath(root, e) {
      LeafInjective(root, f, e);
    }
    NoDeeperNodes(root, tree, tree', e, f);
  }

  /** Creating the endpoint's node works exactly when the name's node is there. */
  lemma CreateLeaf(root: string, tree: Tree, s: set<Endpoint>, busy: set<string>, e: Endpoint)
    requires LegalRoot(root) && Legal(e) && Loose(root, tree, s, busy)
    ensures var tree', based := Create(tree, LeafPath(root, e)), BasePath(root, e.name) in tree;
            && (LeafPath(root, e) in tree' <==> based)
            && Loose(root, tree', if based then s + {e} else s - {e}, busy - {e.name})
  {
    var tree' := Create(tree, LeafPath(root, e));
    LeafParent(root, e);
    assert e in s ==> HasName(s, e.name);
    assert NameOk(root, tree, s, busy, e.name);
    var s' := if BasePath(root, e.name) in tree then s + {e} else s - {e};
    forall f: Endpoint | Shaped(f)
      ensures LeafPath(root, f) in tree' <==> f in s'
      ensures Children(tree', LeafPath(root, f)) == {}
    {
      LeafOnly(root, tree, tree', s, s', busy, e, f);
    }
    forall n | Component(n)
      ensures NameOk(root, tree', s', busy - {e.name}, n)
    {
      LeafIsNotBase(root, e, n);
      assert NameOk(root, tree, s, busy, n);
      NamesAfterAdd(s, e, n);
      NamesAfterRemoval(s, e, n);
    }
  }

  lemma DeleteLeaf(root: string, tree: Tree, s: set<Endpoint>, busy: set<string>, e: Endpoint)
    requires LegalRoot(root) && Legal(e) && Loose(root, tree, s, busy)
    ensures Loose(root, Delete(tree, LeafPath(root, e)), s - {e}, busy + {e.name})
  {
    var tree' := Delete(tree, LeafPath(root, e));
    LeafParent(root, e);
    forall f: Endpoint | Shaped(f)
      ensures LeafPath(root, f) in tree' <==> f in s - {e}
      ensures Children(tree', LeafPath(root, f)) == {}
    {
      LeafOnly(root, tree, tree', s, s - {e}, busy, e, f);
    }
    forall n | Component(n)
      ensures NameOk(root, tree', s - {e}, busy + {e.name}, n)
    {
      LeafIsNotBase(root, e, n);
      assert NameOk(root, tree, s, busy, n);
      NamesAfterRemoval(s, e, n);
    }
  }

  // ---------------------------------------------------------------- whole operations, uninterrupted

  lemma RegisterRefines(root: string, tree: Tree, s: set<Endpoint>, e: Endpoint)
    requires LegalRoot(root) && Legal(e) && Refines(root, tree, s)
    ensures Refines(root, Registered(root, tree, e), s + {e})
  {
    CreateBase(root, tree, s, {}, e);
    CreateLeaf(root, Create(tree, BasePath(root, e.name)), s, {} + {e.name}, e);
    assert {} + {e.name} - {e.name} == {};
  }

  lemma DeregisterRefines(root: string, tree: Tree, s: set<Endpoint>, e: Endpoint)
    requires LegalRoot(root) && Legal(e) && Refines(root, tree, s)
    ensures Refines(root, Deregistered(root, tree, e), s - {e})
  {
    var tree1, busy := Delete(tree, LeafPath(root, e)), {} + {e.name};
    DeleteLeaf(root, tree, s, {}, e);
    assert busy - {e.name} == {};
    if BasePath(root, e.name) !in tree1 || Children(tree1, BasePath(root, e.name)) == {} {
      DeleteBase(root, tree1, s - {e}, busy, e);
    } else {
      ChildrenIff(root, tree1, s - {e}, busy, e.name);
      assert NameOk(root, tree1, s - {e}, busy, e.name);
      BaseOnly(root, tree1, tree1, s - {e}, busy, {}, e);
    }
  }

  // ---------------------------------------------------------------- runs of whole operations

  datatype Op = Register(e: Endpoint) | Deregister(e: Endpoint)

  function Run(root: string, tree: Tree, ops: seq<Op>): Tree
  {
    if ops == [] then tree
    else
      var before, last := Run(root, tree, ops[..|ops| - 1]), ops[|ops| - 1];
      match last
      case Register(e) => Registered(root, before, e)
      case Deregister(e) => Deregistered(root, before, e)
  }

  /** The last operation on `e` is a Register; `initially` if there is none. */
  function LastIsRegister(ops: seq<Op>, e: Endpoint, initially: bool): bool
  {
    if ops == [] then initially
    else if ops[|ops| - 1].e == e then ops[|ops| - 1].Register?
    else LastIsRegister(ops[..|ops| - 1], e, initially)
  }

  function Endpoints(ops: seq<Op>, s: set<Endpoint>): (r: set<Endpoint>)
    ensures forall e :: e in r <==> LastIsRegister(ops, e, e in s)
  {
    if ops == [] then s
    else
      var before, last := Endpoints(ops[..|ops| - 1], s), ops[|ops| - 1];
      match last
      case Register(e) => before + {e}
      case Deregister(e) => before - {e}
  }

  /** When operations do not overlap, the nodes are exactly those of the endpoints whose last operation was
      Register, and a service name has a node exactly when one of its endpoints has. */
  lemma {:induction false} TreeRefinesSet(root: string, tree: Tree, s: set<Endpoint>, ops: seq<Op>)
    requires LegalRoot(root) && Refines(root, tree, s)
    requires forall i :: 0 <= i < |ops| ==> Legal(ops[i].e)
    ensures Refines(root, Run(root, tree, ops), Endpoints(ops, s))
  {
    if ops != [] {
      var front, last := ops[..|ops| - 1], ops[|ops| - 1];
      TreeRefinesSet(root, tree, s, front);
      match last
      case Register(e) => RegisterRefines(root, Run(root, tree, front), Endpoints(front, s), e);
      case Deregister(e) => DeregisterRefines(root, Run(root, tree, front), Endpoints(front, s), e);
    }
  }

  /** The same, node by node. */
  lemma NodesAfterRun(root: string, tree: Tree, s: set<Endpoint>, ops: seq<Op>, e: Endpoint)
    requires LegalRoot(root) && Refines(root, tree, s) && Legal(e)
    requires forall i :: 0 <= i < |ops| ==> Legal(ops[i].e)
    ensures var after := Run(root, tree, ops);
            && (LeafPath(root, e) in after <==> LastIsRegister(ops, e, e in s))
            && (BasePath(root, e.name) in after <==> Children(after, BasePath(root, e.name)) != {})
  {
    TreeRefinesSet(root, tree, s, ops);
    ChildrenIff(root, Run(root, tree, ops), Endpoints(ops, s), {}, e.name);
    assert NameOk(root, Run(root, tree, ops), Endpoints(ops, s), {}, e.name);
  }
}
