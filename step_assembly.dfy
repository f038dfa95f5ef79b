/**
 * `buildAssemblyTree` and `buildNodeRecursive` of `StepDataAnalyzer`:
 * the parent -> child adjacency of the assembly relations, root inference,
 * the shared `NodeBudget`, and the depth-first expansion with its path-set
 * cycle guard and depth cap.
 *
 * The root set is a `LinkedHashSet` filled in `HashMap` key order, so the
 * order in which roots are expanded is left open. The path set and the
 * warning list that the Java method mutates are threaded through as
 * in/out values; the budget is an object, as in the source.
 */
module StepAssembly {
  import opened JavaText
  import opened StepRecords
  import opened StepParts

  /** `Edge`: one child of a parent, with the usage's reference designator. */
  datatype Edge = Edge(child: int, refDes: Option<JString>)

  /** `StepAssemblyNode`. */
  datatype AssemblyNode = AssemblyNode(pdId: int, refDes: Option<JString>, part: Option<PartInfo>, children: seq<AssemblyNode>)

  /** `StepAssemblyTree`. */
  datatype AssemblyTree = AssemblyTree(roots: seq<AssemblyNode>, truncated: bool, maxDepth: int, maxNodes: int)

  // ---------------------------------------------------------------------
  // Effective relations
  // ---------------------------------------------------------------------

  /** The usage relation types the tree prefers. */
  predicate IsUsage(r: Relation) {
    r.relationType == NAUO || r.relationType == ACU
  }

  /** The usage relations, in order. */
  function Usages(rels: seq<Relation>): (r: seq<Relation>)
    ensures forall x :: x in r <==> x in rels && IsUsage(x)
  {
    if rels == [] then []
    else (if IsUsage(rels[0]) then [rels[0]] else []) + Usages(rels[1..])
  }

  /** The relations the tree is built from: the usages if there are any, otherwise all of them. */
  function EffectiveRelations(rels: seq<Relation>): (r: seq<Relation>)
    ensures (exists x :: x in rels && IsUsage(x)) ==> r == Usages(rels)
    ensures (forall x | x in rels :: !IsUsage(x)) ==> r == rels
    ensures r == [] <==> rels == []
  {
    var usages := Usages(rels);
    assert usages != [] ==> usages[0] in usages;
    if usages == [] then rels else usages
  }

  // ---------------------------------------------------------------------
  // Adjacency
  // ---------------------------------------------------------------------

  /** The edges out of `p`, in relation order. */
  function EdgesOf(rels: seq<Relation>, p: int): (r: seq<Edge>)
    ensures |r| <= |rels|
  {
    if rels == [] then []
    else (if rels[0].parent == p then [Edge(rels[0].child, rels[0].refDes)] else []) + EdgesOf(rels[1..], p)
  }

  /** The parents that occur in the relations. */
  function ParentSet(rels: seq<Relation>): set<int> {
    set r | r in rels :: r.parent
  }

  /** The children that occur in the relations. */
  function ChildSet(rels: seq<Relation>): set<int> {
    set r | r in rels :: r.child
  }

  /** `childrenByParent`: every parent with its edges. */
  function Adjacency(rels: seq<Relation>): (r: map<int, seq<Edge>>)
    ensures r.Keys == ParentSet(rels)
  {
    map p | p in ParentSet(rels) :: EdgesOf(rels, p)
  }

  lemma {:induction false} EdgesOfAppend(rels: seq<Relation>, x: Relation, p: int)
    ensures EdgesOf(rels + [x], p) == EdgesOf(rels, p) + (if x.parent == p then [Edge(x.child, x.refDes)] else [])
  {
    if rels == [] {
      assert rels + [x] == [x];
    } else {
      assert (rels + [x])[1..] == rels[1..] + [x];
      EdgesOfAppend(rels[1..], x, p);
    }
  }

  lemma {:induction false} EdgesOfAbsent(rels: seq<Relation>, p: int)
    requires p !in ParentSet(rels)
    ensures EdgesOf(rels, p) == []
  {
    if rels != [] {
      assert rels[0] in rels;
      assert ParentSet(rels[1..]) <= ParentSet(rels) by {
        forall y | y in ParentSet(rels[1..])
          ensures y in ParentSet(rels)
        {
          var r :| r in rels[1..] && r.parent == y;
          assert r in rels;
        }
      }
      EdgesOfAbsent(rels[1..], p);
    }
  }

  /** Every parent has at least one edge. */
  lemma {:induction false} EdgesOfPresent(rels: seq<Relation>, p: int)
    requires p in ParentSet(rels)
    ensures EdgesOf(rels, p) != []
  {
    if rels[0].parent != p {
      var r :| r in rels && r.parent == p;
      assert r in rels[1..];
      EdgesOfPresent(rels[1..], p);
    }
  }

  /** The edges out of `p` in the adjacency, none when `p` is not a parent. */
  function EdgesFrom(adj: map<int, seq<Edge>>, p: int): seq<Edge> {
    if p in adj then adj[p] else []
  }

  /** Adding one relation appends its edge to its parent's list and its child to the child set. */
  lemma AdjacencyStep(rels: seq<Relation>, x: Relation)
    ensures Adjacency(rels + [x]) == Adjacency(rels)[x.parent := EdgesFrom(Adjacency(rels), x.parent) + [Edge(x.child, x.refDes)]]
  {
    var a := Adjacency(rels + [x]);
    var b := Adjacency(rels)[x.parent := EdgesFrom(Adjacency(rels), x.parent) + [Edge(x.child, x.refDes)]];
    SetsStep(rels, x);
    forall p | p in a
      ensures a[p] == b[p]
    {
      EdgesOfAppend(rels, x, p);
      if p == x.parent && p !in ParentSet(rels) {
        EdgesOfAbsent(rels, p);
      }
    }
  }

  lemma SetsStep(rels: seq<Relation>, x: Relation)
    ensures ParentSet(rels + [x]) == ParentSet(rels) + {x.parent}
    ensures ChildSet(rels + [x]) == ChildSet(rels) + {x.child}
  {
  }

  /** The adjacency loop of `buildAssemblyTree`: edges grouped by parent, and the set of children. */
  method BuildAdjacency(rels: seq<Relation>) returns (adj: map<int, seq<Edge>>, children: set<int>)
    ensures adj == Adjacency(rels)
    ensures children == ChildSet(rels)
  {
    adj := map[];
    children := {};
    var i := 0;
    while i < |rels|
      invariant 0 <= i <= |rels|
      invariant adj == Adjacency(rels[..i])
      invariant children == ChildSet(rels[..i])
    {
      var r := rels[i];
      assert rels[..i + 1] == rels[..i] + [r];
      AdjacencyStep(rels[..i], r);
      SetsStep(rels[..i], r);
      var existing := if r.parent in adj then adj[r.parent] else [];
      adj := adj[r.parent := existing + [Edge(r.child, r.refDes)]];
      children := children + {r.child};
      i := i + 1;
    }
    assert rels[..i] == rels;
  }

  // ---------------------------------------------------------------------
  // Roots
  // ---------------------------------------------------------------------

  /** Parents that are nobody's child; every parent when there are none. */
  function RootSet(rels: seq<Relation>): (r: set<int>)
    ensures r <= ParentSet(rels)
    ensures forall p | p in ParentSet(rels) && p !in ChildSet(rels) :: p in r
    ensures r == {} <==> rels == []
  {
    var candidates := set p | p in ParentSet(rels) && p !in ChildSet(rels);
    assert rels != [] ==> rels[0].parent in ParentSet(rels);
    if candidates == {} then ParentSet(rels) else candidates
  }

  /** When some parent is nobody's child, no root is anybody's child. */
  lemma RootsAreNotChildren(rels: seq<Relation>, q: int)
    requires q in ParentSet(rels) && q !in ChildSet(rels)
    ensures forall p | p in RootSet(rels) :: p !in ChildSet(rels)
  {
    var candidates := set p | p in ParentSet(rels) && p !in ChildSet(rels);
    assert q in candidates;
    assert RootSet(rels) == candidates;
  }

  // ---------------------------------------------------------------------
  // The part index
  // ---------------------------------------------------------------------

  /** `partByPd`: each part under its definition id, a later part replacing an earlier one. */
  function PartIndex(parts: seq<PartInfo>): (r: map<int, PartInfo>)
    ensures forall i | 0 <= i < |parts| :: parts[i].productDefinitionId in r
    ensures forall k | k in r :: exists i | 0 <= i < |parts| :: parts[i].productDefinitionId == k && r[k] == parts[i]
  {
    if parts == [] then map[]
    else
      var last := parts[|parts| - 1];
      var r := PartIndex(parts[..|parts| - 1])[last.productDefinitionId := last];
      assert forall i | 0 <= i < |parts| - 1 :: parts[..|parts| - 1][i] == parts[i];
      r
  }

  /** With distinct ids, every part is found under its own id. */
  lemma PartIndexFinds(parts: seq<PartInfo>)
    requires forall i, j | 0 <= i < j < |parts| :: parts[i].productDefinitionId != parts[j].productDefinitionId
    ensures forall i | 0 <= i < |parts| :: PartIndex(parts)[parts[i].productDefinitionId] == parts[i]
  {
    var r := PartIndex(parts);
    forall i | 0 <= i < |parts|
      ensures r[parts[i].productDefinitionId] == parts[i]
    {
      var k := parts[i].productDefinitionId;
      var j :| 0 <= j < |parts| && parts[j].productDefinitionId == k && r[k] == parts[j];
      assert i == j;
    }
  }

  /** The part-index loop of `buildAssemblyTree`. */
  method BuildPartIndex(parts: seq<PartInfo>) returns (index: map<int, PartInfo>)
    ensures index == PartIndex(parts)
  {
    index := map[];
    var i := 0;
    while i < |parts|
      invariant 0 <= i <= |parts|
      invariant index == PartIndex(parts[..i])
    {
      assert parts[..i + 1][..i] == parts[..i];
      index := index[parts[i].productDefinitionId := parts[i]];
      i := i + 1;
    }
    assert parts[..i] == parts;
  }

  /** `partByPd.get(id)`. */
  function Lookup(index: map<int, PartInfo>, id: int): Option<PartInfo> {
    if id in index then Some(index[id]) else None
  }

  // ---------------------------------------------------------------------
  // NodeBudget
  // ---------------------------------------------------------------------

  /** `NodeBudget`: a node counter shared by the whole tree. */
  class NodeBudget {
    const maxNodes: int
    var used: int
    var truncated: bool

    /** At most one consumption past the cap, and only once the tree is marked truncated. */
    ghost predicate Valid()
      reads this
    {
      maxNodes >= 1 && 0 <= used <= maxNodes + 1 && (used > maxNodes ==> truncated)
    }

    constructor (maxNodes: int)
      ensures Valid() && this.maxNodes == Max(1, maxNodes) && used == 0 && !truncated
    {
      this.maxNodes := Max(1, maxNodes);
      used := 0;
      truncated := false;
    }

    /** `tryConsume()`: counts one node and says whether it is within the cap. */
    method TryConsume() returns (ok: bool)
      modifies this
      ensures used == old(used) + 1 && ok == (used <= maxNodes) && truncated == old(truncated)
    {
      used := used + 1;
      ok := used <= maxNodes;
    }

    /** The consumptions that succeeded so far. */
    function Passed(): int
      reads this
    {
      Min(used, maxNodes)
    }
  }

  // ---------------------------------------------------------------------
  // Tree shape
  // ---------------------------------------------------------------------

  /**
   * A built node follows the adjacency: it carries the part of its id,
   * and its children are the first edges out of it, in order, each
   * built the same way.
   */
  predicate Follows(adj: map<int, seq<Edge>>, index: map<int, PartInfo>, n: AssemblyNode)
    decreases n
  {
    n.part == Lookup(index, n.pdId) &&
    |n.children| <= |EdgesFrom(adj, n.pdId)| &&
    forall i | 0 <= i < |n.children| ::
      (n.children[i].pdId == EdgesFrom(adj, n.pdId)[i].child
       && n.children[i].refDes == EdgesFrom(adj, n.pdId)[i].refDes
       && Follows(adj, index, n.children[i]))
  }

  /**
   * A node built while the budget lasts is expanded in full: a node whose id
   * is already on the path from the root is a leaf (the cycle guard); any
   * other node has a child for every edge out of it, each expanded with
   * the node's id added to the path.
   */
  predicate Expanded(adj: map<int, seq<Edge>>, onPath: set<int>, n: AssemblyNode)
    decreases n
  {
    if n.pdId in onPath then n.children == []
    else
      |n.children| == |EdgesFrom(adj, n.pdId)|
      && forall i | 0 <= i < |n.children| :: Expanded(adj, onPath + {n.pdId}, n.children[i])
  }

  /**
   * The nodes that take a node from the budget or stand for the one that
   * was refused: every node except those whose id is already on the path
   * from the root (the cycle leaves).
   */
  function Counted(onPath: set<int>, n: AssemblyNode): nat
    decreases n, 1
  {
    if n.pdId in onPath then 0 else 1 + CountedFrom(onPath + {n.pdId}, n.children, 0)
  }

  /** The counted nodes of `ns[i..]`, all below the same path. */
  function CountedFrom(onPath: set<int>, ns: seq<AssemblyNode>, i: nat): nat
    requires i <= |ns|
    decreases ns, |ns| - i
  {
    if i == |ns| then 0 else Counted(onPath, ns[i]) + CountedFrom(onPath, ns, i + 1)
  }

  lemma {:induction false} CountedSnoc(onPath: set<int>, ns: seq<AssemblyNode>, c: AssemblyNode, i: nat)
    requires i <= |ns|
    ensures CountedFrom(onPath, ns + [c], i) == CountedFrom(onPath, ns, i) + Counted(onPath, c)
    decreases |ns| - i
  {
    if i < |ns| {
      assert (ns + [c])[i] == ns[i];
      CountedSnoc(onPath, ns, c, i + 1);
    } else {
      assert (ns + [c])[i] == c;
    }
  }

  // ---------------------------------------------------------------------
  // buildNodeRecursive
  // ---------------------------------------------------------------------

  /**
   * `buildNodeRecursive`. Nothing is built once the budget is truncated.
   * A node deeper than `maxDepth` becomes a leaf and truncates the tree;
   * an id already on the path becomes a leaf with a cycle warning; a node
   * the budget refuses becomes a leaf and truncates the tree. Otherwise the
   * node is expanded along its edges until the budget truncates. The path
   * comes back as it went in unless the budget ran out on the way, in
   * which case it may keep the ids whose expansion was cut short.
   */
  method BuildNode(pdId: int, refDes: Option<JString>, adj: map<int, seq<Edge>>, index: map<int, PartInfo>,
                   depth: int, maxDepth: int, budget: NodeBudget, path: set<int>, warnings: seq<Warning>)
    returns (node: Option<AssemblyNode>, pathOut: set<int>, warningsOut: seq<Warning>)
    requires budget.Valid()
    modifies budget
    decreases maxDepth - depth + 1, 1
    ensures budget.Valid()
    ensures old(budget.truncated) ==> node.None? && pathOut == path && warningsOut == warnings && unchanged(budget)
    ensures !old(budget.truncated) ==> node.Some? && node.value.pdId == pdId && node.value.refDes == refDes
    ensures node.Some? ==> Follows(adj, index, node.value)
    ensures !old(budget.truncated) && depth > maxDepth ==>
      node.value.children == [] && budget.truncated && budget.used == old(budget.used)
      && pathOut == path && warningsOut == warnings
    ensures !old(budget.truncated) && depth <= maxDepth && pdId in path ==>
      node.value.children == [] && !budget.truncated && budget.used == old(budget.used)
      && pathOut == path && warningsOut == warnings + [AssemblyCycle(pdId)]
    ensures old(budget.truncated) ==> budget.truncated
    ensures path <= pathOut && (!budget.truncated ==> pathOut == path)
    ensures old(budget.used) <= budget.used
    ensures node.Some? && !budget.truncated ==> Expanded(adj, path, node.value)
    ensures node.Some? ==>
      budget.Passed() - old(budget.Passed()) <= Counted(path, node.value)
      <= budget.Passed() - old(budget.Passed()) + (if budget.truncated then 1 else 0)
    ensures |warnings| <= |warningsOut| && warningsOut[..|warnings|] == warnings
    ensures forall k | |warnings| <= k < |warningsOut| :: warningsOut[k].AssemblyCycle?
  {
    if budget.truncated {
      return None, path, warnings;
    }
    var part := Lookup(index, pdId);
    if depth > maxDepth {
      budget.truncated := true;
      return Some(AssemblyNode(pdId, refDes, part, [])), path, warnings;
    }
    if pdId in path {
      return Some(AssemblyNode(pdId, refDes, part, [])), path, warnings + [AssemblyCycle(pdId)];
    }
    var p := path + {pdId};
    var ok := budget.TryConsume();
    if !ok {
      budget.truncated := true;
      return Some(AssemblyNode(pdId, refDes, part, [])), p, warnings;
    }
    var edges := EdgesFrom(adj, pdId);
    if edges == [] {
      return Some(AssemblyNode(pdId, refDes, part, [])), p - {pdId}, warnings;
    }
    var children, p2, w := BuildChildren(edges, adj, index, depth, maxDepth, budget, p, warnings);
    p := p2;
    node := Some(AssemblyNode(pdId, refDes, part, children));
    pathOut := p - {pdId};
    warningsOut := w;
  }

  /**
   * The edge loop of `buildNodeRecursive`: each edge's child is built one
   * level deeper, in edge order, until the budget truncates.
   */
  method BuildChildren(edges: seq<Edge>, adj: map<int, seq<Edge>>, index: map<int, PartInfo>,
                       depth: int, maxDepth: int, budget: NodeBudget, path: set<int>, warnings: seq<Warning>)
    returns (children: seq<AssemblyNode>, pathOut: set<int>, warningsOut: seq<Warning>)
    requires budget.Valid() && !budget.truncated && depth <= maxDepth
    modifies budget
    decreases maxDepth - depth + 1, 0
    ensures budget.Valid()
    ensures |children| <= |edges| && (!budget.truncated ==> |children| == |edges|)
    ensures forall k | 0 <= k < |children| ::
      (children[k].pdId == edges[k].child && children[k].refDes == edges[k].refDes
       && Follows(adj, index, children[k]))
    ensures path <= pathOut && (!budget.truncated ==> pathOut == path)
    ensures old(budget.used) <= budget.used
    ensures forall k | 0 <= k < |children| && (k < |children| - 1 || !budget.truncated) ::
      Expanded(adj, path, children[k])
    ensures budget.Passed() - old(budget.Passed()) <= CountedFrom(path, children, 0)
      <= budget.Passed() - old(budget.Passed()) + (if budget.truncated then 1 else 0)
    ensures |warnings| <= |warningsOut| && warningsOut[..|warnings|] == warnings
    ensures forall k | |warnings| <= k < |warningsOut| :: warningsOut[k].AssemblyCycle?
  {
    children := [];
    pathOut := path;
    warningsOut := warnings;
    var i := 0;
    while i < |edges|
      invariant 0 <= i <= |edges| && |children| == i
      invariant budget.Valid() && !budget.truncated && pathOut == path
      invariant old(budget.used) <= budget.used
      invariant forall k | 0 <= k < i ::
        (children[k].pdId == edges[k].child && children[k].refDes == edges[k].refDes
         && Follows(adj, index, children[k]))
      invariant forall k | 0 <= k < i :: Expanded(adj, path, children[k])
      invariant CountedFrom(path, children, 0) == budget.Passed() - old(budget.Passed())
      invariant |warnings| <= |warningsOut| && warningsOut[..|warnings|] == warnings
      invariant forall k | |warnings| <= k < |warningsOut| :: warningsOut[k].AssemblyCycle?
    {
      var child, p2, w2 := BuildNode(edges[i].child, edges[i].refDes, adj, index, depth + 1, maxDepth, budget, pathOut, warningsOut);
      CountedSnoc(path, children, child.value, 0);
      children := children + [child.value];
      CyclesAppendedTrans(warnings, warningsOut, w2);
      warningsOut := w2;
      if budget.truncated {
        pathOut := p2;
        return;
      }
      i := i + 1;
    }
  }

  // ---------------------------------------------------------------------
  // buildAssemblyTree
  // ---------------------------------------------------------------------

  /** The roots: parents that are never children, or every parent when there are none. */
  method InferRoots(ghost rels: seq<Relation>, adj: map<int, seq<Edge>>, children: set<int>) returns (roots: set<int>)
    requires adj == Adjacency(rels) && children == ChildSet(rels)
    ensures roots == RootSet(rels)
  {
    roots := set p | p in adj && p !in children;
    if roots == {} {
      roots := adj.Keys;
    }
  }

  /**
   * The root loop of `buildAssemblyTree`: each root, in any order, is expanded
   * from depth 0 with no reference designator and a fresh path, until the
   * shared budget truncates.
   */
  method ExpandRoots(roots: set<int>, adj: map<int, seq<Edge>>, index: map<int, PartInfo>, maxDepth: int,
                     budget: NodeBudget, warnings: seq<Warning>)
    returns (out: seq<AssemblyNode>, warningsOut: seq<Warning>)
    requires budget.Valid() && !budget.truncated && budget.used == 0
    modifies budget
    ensures budget.Valid()
    ensures RootsBuilt(adj, index, roots, out)
    ensures !budget.truncated ==> |out| == |roots|
    ensures AllExpanded(adj, {}, out, budget.truncated)
    ensures budget.Passed() <= CountedFrom({}, out, 0) <= budget.Passed() + (if budget.truncated then 1 else 0)
    ensures |warnings| <= |warningsOut| && warningsOut[..|warnings|] == warnings
    ensures forall k | |warnings| <= k < |warningsOut| :: warningsOut[k].AssemblyCycle?
  {
    var remaining := roots;
    out := [];
    warningsOut := warnings;
    while remaining != {}
      invariant remaining <= roots
      invariant budget.Valid() && !budget.truncated
      invariant |out| == |roots| - |remaining|
      invariant RootsBuilt(adj, index, roots - remaining, out)
      invariant AllExpanded(adj, {}, out, false)
      invariant CountedFrom({}, out, 0) == budget.Passed()
      invariant |warnings| <= |warningsOut| && warningsOut[..|warnings|] == warnings
      invariant forall k | |warnings| <= k < |warningsOut| :: warningsOut[k].AssemblyCycle?
      decreases |remaining|
    {
      SomeMember(remaining);
      var root :| root in remaining;
      ghost var done := roots - remaining;
      remaining := remaining - {root};
      assert done + {root} == roots - remaining;
      var node, _, w2 := BuildNode(root, None, adj, index, 0, maxDepth, budget, {}, warningsOut);
      CyclesAppendedTrans(warnings, warningsOut, w2);
      warningsOut := w2;
      RootsBuiltSnoc(adj, index, done, out, node.value);
      ExpandedSnoc(adj, {}, out, node.value, budget.truncated);
      out := out + [node.value];
      if budget.truncated {
        break;
      }
    }
  }

  /** Warnings appended in two steps, cycle warnings only each time, are cycle warnings appended once. */
  lemma CyclesAppendedTrans(a: seq<Warning>, b: seq<Warning>, c: seq<Warning>)
    requires |a| <= |b| && b[..|a|] == a && forall k | |a| <= k < |b| :: b[k].AssemblyCycle?
    requires |b| <= |c| && c[..|b|] == b && forall k | |b| <= k < |c| :: c[k].AssemblyCycle?
    ensures |a| <= |c| && c[..|a|] == a && forall k | |a| <= k < |c| :: c[k].AssemblyCycle?
  {
    assert c[..|b|][..|a|] == c[..|a|];
    forall k | |a| <= k < |b| ensures c[k].AssemblyCycle? {
      assert c[..|b|][k] == c[k];
    }
  }

  /** Every node of `ns` is expanded under `path`, except the last when the walk was truncated. */
  predicate AllExpanded(adj: map<int, seq<Edge>>, path: set<int>, ns: seq<AssemblyNode>, truncated: bool) {
    forall i | 0 <= i < |ns| && (i < |ns| - 1 || !truncated) :: Expanded(adj, path, ns[i])
  }

  /** Appending a node built under `path` keeps the siblings' expansion and count. */
  lemma ExpandedSnoc(adj: map<int, seq<Edge>>, path: set<int>, ns: seq<AssemblyNode>, n: AssemblyNode, truncated: bool)
    requires AllExpanded(adj, path, ns, false)
    requires !truncated ==> Expanded(adj, path, n)
    ensures AllExpanded(adj, path, ns + [n], truncated)
    ensures CountedFrom(path, ns + [n], 0) == CountedFrom(path, ns, 0) + Counted(path, n)
  {
    CountedSnoc(path, ns, n, 0);
    assert forall i | 0 <= i < |ns| :: (ns + [n])[i] == ns[i];
  }

  /** Distinct roots, each from `done`, with no reference designator, following the adjacency. */
  predicate RootsBuilt(adj: map<int, seq<Edge>>, index: map<int, PartInfo>, done: set<int>, out: seq<AssemblyNode>) {
    (forall i | 0 <= i < |out| :: out[i].pdId in done && out[i].refDes.None? && Follows(adj, index, out[i]))
    && forall i, j | 0 <= i < j < |out| :: out[i].pdId != out[j].pdId
  }

  lemma RootsBuiltSnoc(adj: map<int, seq<Edge>>, index: map<int, PartInfo>, done: set<int>, out: seq<AssemblyNode>,
                       n: AssemblyNode)
    requires RootsBuilt(adj, index, done, out) && n.pdId !in done
    requires n.refDes.None? && Follows(adj, index, n)
    ensures RootsBuilt(adj, index, done + {n.pdId}, out + [n])
  {
    var out' := out + [n];
    assert forall i | 0 <= i < |out| :: out'[i] == out[i];
    assert out'[|out|] == n;
  }

  /**
   * The tree `buildAssemblyTree` reports for `parts` and `rels`: none
   * exactly without relations; otherwise distinct roots from `RootSet` of
   * the effective relations, each following their adjacency and the part
   * index, all of them unless truncated, every root but a truncating last
   * one expanded in full, and at most the budget's nodes other than cycle
   * leaves, plus the refused one when truncated.
   */
  predicate TreeBuilt(parts: seq<PartInfo>, rels: seq<Relation>, limits: Limits, tree: Option<AssemblyTree>) {
    (rels == [] <==> tree.None?)
    && (tree.Some? ==>
          tree.value.maxDepth == limits.maxAssemblyDepth && tree.value.maxNodes == limits.maxAssemblyNodes
          && RootsBuilt(Adjacency(EffectiveRelations(rels)), PartIndex(parts), RootSet(EffectiveRelations(rels)),
                        tree.value.roots)
          && (!tree.value.truncated ==> |tree.value.roots| == |RootSet(EffectiveRelations(rels))|)
          && AllExpanded(Adjacency(EffectiveRelations(rels)), {}, tree.value.roots, tree.value.truncated)
          && CountedFrom({}, tree.value.roots, 0)
             <= Max(1, limits.maxAssemblyNodes) + (if tree.value.truncated then 1 else 0))
  }

  /**
   * `buildAssemblyTree`: null without relations; otherwise the inferred
   * roots are expanded under one budget, and a truncated tree gets one more
   * warning naming the node cap.
   */
  method BuildAssemblyTree(parts: seq<PartInfo>, rels: seq<Relation>, limits: Limits, warnings: seq<Warning>)
    returns (tree: Option<AssemblyTree>, warningsOut: seq<Warning>)
    ensures rels == [] ==> tree.None? && warningsOut == warnings
    ensures rels != [] ==> tree.Some? && tree.value.maxDepth == limits.maxAssemblyDepth
                           && tree.value.maxNodes == limits.maxAssemblyNodes
    ensures tree.Some? ==>
      RootsBuilt(Adjacency(EffectiveRelations(rels)), PartIndex(parts), RootSet(EffectiveRelations(rels)), tree.value.roots)
    ensures tree.Some? && !tree.value.truncated ==> |tree.value.roots| == |RootSet(EffectiveRelations(rels))|
    ensures tree.Some? ==> AllExpanded(Adjacency(EffectiveRelations(rels)), {}, tree.value.roots, tree.value.truncated)
    ensures tree.Some? ==>
      CountedFrom({}, tree.value.roots, 0) <= Max(1, limits.maxAssemblyNodes) + (if tree.value.truncated then 1 else 0)
    ensures TreeBuilt(parts, rels, limits, tree)
    ensures tree.Some? && !tree.value.truncated ==>
      |warnings| <= |warningsOut| && warningsOut[..|warnings|] == warnings
      && forall k | |warnings| <= k < |warningsOut| :: warningsOut[k].AssemblyCycle?
    ensures tree.Some? && tree.value.truncated ==>
      |warnings| < |warningsOut| && warningsOut[..|warnings|] == warnings
      && warningsOut[|warningsOut| - 1] == AssemblyTruncated(limits.maxAssemblyNodes)
      && forall k | |warnings| <= k < |warningsOut| - 1 :: warningsOut[k].AssemblyCycle?
  {
    if rels == [] {
      return None, warnings;
    }
    var eff := EffectiveRelations(rels);
    var index := BuildPartIndex(parts);
    var adj, children := BuildAdjacency(eff);
    var roots := InferRoots(eff, adj, children);
    var budget := new NodeBudget(limits.maxAssemblyNodes);
    var out, w := ExpandRoots(roots, adj, index, limits.maxAssemblyDepth, budget, warnings);
    var truncated := budget.truncated;
    if truncated {
      ghost var before := w;
      w := w + [AssemblyTruncated(limits.maxAssemblyNodes)];
      assert w[..|warnings|] == before[..|warnings|];
      assert forall k | 0 <= k < |before| :: w[k] == before[k];
    }
    tree := Some(AssemblyTree(out, truncated, limits.maxAssemblyDepth, limits.maxAssemblyNodes));
    warningsOut := w;
  }
}
