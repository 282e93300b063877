/** The hierarchical view of device groups: rows with parent ids become a forest of nodes. */
module GroupForest {
  import opened Common

  datatype Group = Group(id: string, name: string, parentId: Option<string>, depth: int)

  ghost predicate DistinctIds(groups: seq<Group>) {
    forall i, j :: 0 <= i < j < |groups| ==> groups[i].id != groups[j].id
  }

  predicate Present(groups: seq<Group>, id: string) {
    exists i :: 0 <= i < |groups| && groups[i].id == id
  }

  /** The parent a group is filed under; an empty or absent parent counts as none. */
  function FiledUnder(groups: seq<Group>, g: Group): Option<string> {
    if g.parentId.Some? && g.parentId.value != "" && Present(groups, g.parentId.value) then g.parentId else None
  }

  /** The ids among the first n groups filed under `parent`, in order. */
  function Filed(groups: seq<Group>, n: nat, parent: Option<string>): seq<string>
    requires n <= |groups|
  {
    if n == 0 then []
    else Filed(groups, n - 1, parent) + if FiledUnder(groups, groups[n - 1]) == parent then [groups[n - 1].id] else []
  }

  function Children(groups: seq<Group>, id: string): seq<string> {
    Filed(groups, |groups|, Some(id))
  }

  function Roots(groups: seq<Group>): seq<string> {
    Filed(groups, |groups|, None)
  }

  // ----- Building the nodes -----

  class Node {
    const id: string
    const name: string
    const parentId: Option<string>
    const depth: int
    const memberCount: nat
    var children: seq<Node>

    constructor (g: Group, memberCount: nat)
      ensures id == g.id && name == g.name && parentId == g.parentId && depth == g.depth
      ensures this.memberCount == memberCount && children == []
    {
      id, name, parentId, depth := g.id, g.name, g.parentId, g.depth;
      this.memberCount := memberCount;
      children := [];
    }
  }

  /** The nodes of the first n groups filed under `parent`, in order. */
  function Under(groups: seq<Group>, nodes: seq<Node>, n: nat, parent: Option<string>): seq<Node>
    requires n <= |groups| == |nodes|
  {
    if n == 0 then []
    else Under(groups, nodes, n - 1, parent) + if FiledUnder(groups, groups[n - 1]) == parent then [nodes[n - 1]] else []
  }

  /** The node repeats the group's own data. */
  predicate Mirrors(n: Node, g: Group, memberCounts: map<string, nat>) {
    && n.id == g.id && n.name == g.name && n.parentId == g.parentId && n.depth == g.depth
    && n.memberCount == if g.id in memberCounts then memberCounts[g.id] else 0
  }

  ghost predicate NodeMapOf(groups: seq<Group>, nodes: seq<Node>, nodeMap: map<string, Node>) {
    && |nodes| == |groups|
    && (forall id :: id in nodeMap <==> Present(groups, id))
    && (forall i :: 0 <= i < |groups| ==> groups[i].id in nodeMap && nodeMap[groups[i].id] == nodes[i])
  }

  /** Every group gets one node; each node's children, and the roots, are the nodes filed there, in order. */
  method BuildTree(groups: seq<Group>, memberCounts: map<string, nat>) returns (roots: seq<Node>, ghost nodes: seq<Node>)
    requires DistinctIds(groups)
    ensures |nodes| == |groups| && forall i :: 0 <= i < |nodes| ==>
      && fresh(nodes[i]) && nodes[i].id == groups[i].id && nodes[i].name == groups[i].name
      && nodes[i].parentId == groups[i].parentId && nodes[i].depth == groups[i].depth
      && nodes[i].memberCount == if groups[i].id in memberCounts then memberCounts[groups[i].id] else 0
    ensures roots == Under(groups, nodes, |groups|, None)
    ensures IsBuilt(groups, nodes) && Closed(nodes) && Among(nodes, roots)
    ensures Walk(nodes, roots, |groups|) == Forest(groups)
  {
    var nodeMap, inOrder := CreateNodes(groups, memberCounts);
    nodes := inOrder;
    roots := FileNodes(groups, inOrder, nodeMap);
    RootsWalkTheForest(groups, inOrder, roots, |groups|);
  }

  ghost predicate Among(nodes: seq<Node>, ns: seq<Node>) {
    forall i :: 0 <= i < |ns| ==> ns[i] in nodes
  }

  /** Each group's node carries its id and has as children the nodes filed under it, in order. */
  ghost predicate IsBuilt(groups: seq<Group>, nodes: seq<Node>)
    reads nodes
  {
    && |nodes| == |groups|
    && forall i :: 0 <= i < |nodes| ==>
         nodes[i].id == groups[i].id && nodes[i].children == Under(groups, nodes, |groups|, Some(groups[i].id)) && Among(nodes, nodes[i].children)
  }

  ghost predicate Closed(nodes: seq<Node>)
    reads nodes
  {
    forall n :: n in nodes ==> Among(nodes, n.children)
  }

  /** The ids met by walking the nodes and, before their siblings, their children, up to a depth. */
  ghost function Walk(nodes: seq<Node>, ns: seq<Node>, depth: nat): seq<string>
    requires Closed(nodes) && Among(nodes, ns)
    reads nodes
    decreases depth, |ns|
  {
    if ns == [] || depth == 0 then []
    else [ns[0].id] + Walk(nodes, ns[0].children, depth - 1) + Walk(nodes, ns[1..], depth)
  }

  ghost predicate Carry(ns: seq<Node>, ids: seq<string>) {
    |ns| == |ids| && forall i :: 0 <= i < |ns| ==> ns[i].id == ids[i]
  }

  /** Every node's children carry the ids filed under it. */
  ghost predicate AllCarry(groups: seq<Group>, nodes: seq<Node>)
    reads nodes
  {
    forall n :: n in nodes ==> Carry(n.children, Children(groups, n.id))
  }

  /** Walking the built nodes meets the ids in the order of the listing. */
  lemma {:induction false} WalkIsListing(groups: seq<Group>, nodes: seq<Node>, ns: seq<Node>, ids: seq<string>, depth: nat)
    requires AllCarry(groups, nodes) && Closed(nodes) && Among(nodes, ns) && Carry(ns, ids)
    ensures Walk(nodes, ns, depth) == Listing(groups, ids, depth)
    decreases depth, |ns|
  {
    if ns != [] && depth > 0 {
      assert Carry(ns[0].children, Children(groups, ns[0].id));
      WalkIsListing(groups, nodes, ns[0].children, Children(groups, ids[0]), depth - 1);
      WalkIsListing(groups, nodes, ns[1..], ids[1..], depth);
    }
  }

  lemma ChildrenCarry(groups: seq<Group>, nodes: seq<Node>, n: Node)
    requires IsBuilt(groups, nodes) && n in nodes
    ensures Carry(n.children, Children(groups, n.id))
  {
    var k :| 0 <= k < |nodes| && nodes[k] == n;
    UnderCarriesFiled(groups, nodes, |groups|, Some(groups[k].id));
  }

  lemma RootsWalkTheForest(groups: seq<Group>, nodes: seq<Node>, roots: seq<Node>, depth: nat)
    requires |nodes| == |groups| && forall i :: 0 <= i < |nodes| ==> nodes[i].id == groups[i].id
    requires forall i :: 0 <= i < |nodes| ==> nodes[i].children == Under(groups, nodes, |groups|, Some(groups[i].id))
    requires roots == Under(groups, nodes, |groups|, None)
    ensures IsBuilt(groups, nodes) && Closed(nodes) && Among(nodes, roots)
    ensures Walk(nodes, roots, depth) == Listing(groups, Roots(groups), depth)
  {
    forall i | 0 <= i < |nodes|
      ensures Among(nodes, nodes[i].children)
    {
      UnderCarriesFiled(groups, nodes, |groups|, Some(groups[i].id));
    }
    UnderCarriesFiled(groups, nodes, |groups|, None);
    forall n | n in nodes
      ensures Carry(n.children, Children(groups, n.id))
    {
      ChildrenCarry(groups, nodes, n);
    }
    WalkIsListing(groups, nodes, roots, Roots(groups), depth);
  }

  /** The nodes of the first pass: one for each group, all different, known under their ids. */
  ghost predicate Prepared(groups: seq<Group>, nodes: seq<Node>, nodeMap: map<string, Node>) {
    && NodeMapOf(groups, nodes, nodeMap) && DistinctIds(groups)
    && (forall i :: 0 <= i < |nodes| ==> nodes[i].parentId == groups[i].parentId)
    && forall i, j :: 0 <= i < j < |nodes| ==> nodes[i] != nodes[j]
  }

  /** The second pass: each node goes to its parent's children or to the roots. */
  method FileNodes(groups: seq<Group>, nodes: seq<Node>, nodeMap: map<string, Node>) returns (roots: seq<Node>)
    requires Prepared(groups, nodes, nodeMap) && FiledSoFar(groups, nodes, 0)
    modifies nodes
    ensures Filing(groups, nodes, |groups|, roots)
  {
    roots := [];
    for n := 0 to |nodes|
      invariant Filing(groups, nodes, n, roots)
    {
      roots := FileNode(groups, nodes, nodeMap, n, roots);
    }
  }

  /** Every node's children are the nodes filed there among the first n. */
  ghost predicate FiledSoFar(groups: seq<Group>, nodes: seq<Node>, n: nat)
    requires n <= |groups| == |nodes|
    reads nodes
  {
    forall i {:trigger nodes[i].children} :: 0 <= i < |nodes| ==> nodes[i].children == Under(groups, nodes, n, Some(groups[i].id))
  }

  ghost predicate Filing(groups: seq<Group>, nodes: seq<Node>, n: nat, roots: seq<Node>)
    requires n <= |groups| == |nodes|
    reads nodes
  {
    roots == Under(groups, nodes, n, None) && FiledSoFar(groups, nodes, n)
  }

  /** Pushes node n to its parent's children, or to the roots where there is no parent. */
  method FileNode(groups: seq<Group>, nodes: seq<Node>, nodeMap: map<string, Node>, n: nat, before: seq<Node>) returns (roots: seq<Node>)
    requires Prepared(groups, nodes, nodeMap) && n < |groups|
    modifies nodes
    requires Filing(groups, nodes, n, before)
    ensures Filing(groups, nodes, n + 1, roots)
  {
    var node := nodes[n];
    UnderGrows(groups, nodes, n, None);
    if node.parentId.Some? && node.parentId.value != "" && node.parentId.value in nodeMap {
      ghost var p :| 0 <= p < |groups| && groups[p].id == node.parentId.value;
      var parent := nodeMap[node.parentId.value];
      assert parent == nodes[p];
      assert FiledUnder(groups, groups[n]) == Some(groups[p].id);
      FiledBelow(groups, nodes, n, p);
      parent.children := parent.children + [node];
      return before;
    }
    FiledAtRoot(groups, nodes, n);
    return before + [node];
  }

  lemma UnderGrows(groups: seq<Group>, nodes: seq<Node>, n: nat, parent: Option<string>)
    requires n < |groups| == |nodes|
    ensures Under(groups, nodes, n + 1, parent)
         == Under(groups, nodes, n, parent) + if FiledUnder(groups, groups[n]) == parent then [nodes[n]] else []
  {
  }

  /** A group with a parent adds its node to that parent's children and to no others. */
  lemma FiledBelow(groups: seq<Group>, nodes: seq<Node>, n: nat, p: nat)
    requires DistinctIds(groups) && n < |groups| == |nodes| && p < |groups| && FiledUnder(groups, groups[n]) == Some(groups[p].id)
    ensures forall i {:trigger nodes[i]} :: 0 <= i < |groups| ==>
      Under(groups, nodes, n + 1, Some(groups[i].id)) == Under(groups, nodes, n, Some(groups[i].id)) + if i == p then [nodes[n]] else []
  {
    forall i | 0 <= i < |groups|
      ensures Under(groups, nodes, n + 1, Some(groups[i].id)) == Under(groups, nodes, n, Some(groups[i].id)) + if i == p then [nodes[n]] else []
    {
      UnderGrows(groups, nodes, n, Some(groups[i].id));
      assert i != p ==> groups[i].id != groups[p].id;
    }
  }

  lemma FiledAtRoot(groups: seq<Group>, nodes: seq<Node>, n: nat)
    requires n < |groups| == |nodes| && FiledUnder(groups, groups[n]).None?
    ensures forall i {:trigger nodes[i]} :: 0 <= i < |groups| ==>
      Under(groups, nodes, n + 1, Some(groups[i].id)) == Under(groups, nodes, n, Some(groups[i].id))
  {
    forall i | 0 <= i < |groups|
      ensures Under(groups, nodes, n + 1, Some(groups[i].id)) == Under(groups, nodes, n, Some(groups[i].id))
    {
      UnderGrows(groups, nodes, n, Some(groups[i].id));
    }
  }

  method CreateNodes(groups: seq<Group>, memberCounts: map<string, nat>) returns (nodeMap: map<string, Node>, nodes: seq<Node>)
    requires DistinctIds(groups)
    ensures Prepared(groups, nodes, nodeMap)
    ensures forall i :: 0 <= i < |nodes| ==> fresh(nodes[i]) && Mirrors(nodes[i], groups[i], memberCounts) && nodes[i].children == []
  {
    nodeMap, nodes := map[], [];
    for n := 0 to |groups|
      invariant |nodes| == n
      invariant forall i :: 0 <= i < n ==> fresh(nodes[i]) && Mirrors(nodes[i], groups[i], memberCounts) && nodes[i].children == []
      invariant NodeMapOf(groups[..n], nodes, nodeMap)
    {
      var g := groups[n];
      var node := new Node(g, if g.id in memberCounts then memberCounts[g.id] else 0);
      nodeMap := nodeMap[g.id := node];
      nodes := nodes + [node];
      PresentAppend(groups, n);
    }
    assert groups[..|groups|] == groups;
  }

  lemma PresentAppend(groups: seq<Group>, n: nat)
    requires n < |groups|
    ensures forall id :: Present(groups[..n + 1], id) <==> Present(groups[..n], id) || id == groups[n].id
  {
    assert groups[..n + 1] == groups[..n] + [groups[n]];
    assert (groups[..n] + [groups[n]])[n] == groups[n];
    assert forall i :: 0 <= i < n ==> (groups[..n] + [groups[n]])[i] == groups[..n][i];
  }

  /** The nodes filed somewhere carry the ids filed there. */
  lemma {:induction false} UnderCarriesFiled(groups: seq<Group>, nodes: seq<Node>, n: nat, parent: Option<string>)
    requires n <= |groups| == |nodes| && forall i :: 0 <= i < |nodes| ==> nodes[i].id == groups[i].id
    ensures var under, filed := Under(groups, nodes, n, parent), Filed(groups, n, parent);
      |under| == |filed| && forall i :: 0 <= i < |under| ==> under[i] in nodes && under[i].id == filed[i]
  {
    if n > 0 {
      UnderCarriesFiled(groups, nodes, n - 1, parent);
    }
  }

  // ----- Who is whose child -----

  /** The nodes filed somewhere among the first n are those of the groups filed there, in the order of the groups. */
  lemma {:induction false} UnderMembers(groups: seq<Group>, nodes: seq<Node>, n: nat, parent: Option<string>, i: nat)
    requires n <= |groups| == |nodes| && i < |nodes| && forall j, k :: 0 <= j < k < |nodes| ==> nodes[j] != nodes[k]
    ensures nodes[i] in Under(groups, nodes, n, parent) <==> i < n && FiledUnder(groups, groups[i]) == parent
  {
    if n > 0 {
      UnderMembers(groups, nodes, n - 1, parent, i);
    }
  }

  lemma {:induction false} UnderInOrder(groups: seq<Group>, nodes: seq<Node>, n: nat, parent: Option<string>, x: nat, y: nat, i: nat, k: nat)
    requires n <= |groups| == |nodes| && forall j, l :: 0 <= j < l < |nodes| ==> nodes[j] != nodes[l]
    requires x < y < |Under(groups, nodes, n, parent)| && i < |nodes| && k < |nodes|
    requires Under(groups, nodes, n, parent)[x] == nodes[i] && Under(groups, nodes, n, parent)[y] == nodes[k]
    ensures i < k
  {
    var before := Under(groups, nodes, n - 1, parent);
    if y < |before| {
      UnderInOrder(groups, nodes, n - 1, parent, x, y, i, k);
    } else {
      assert before[x] == nodes[i];
      UnderMembers(groups, nodes, n - 1, parent, i);
    }
  }

  /**
   A built node is a child of another exactly if its group names the other's group as parent, by an id that is not
   empty; it is a root exactly if it names no parent, or one that is not among the groups.
   */
  lemma ChildrenNameTheirParent(groups: seq<Group>, nodes: seq<Node>, roots: seq<Node>, i: nat, j: nat)
    requires DistinctIds(groups) && IsBuilt(groups, nodes) && roots == Under(groups, nodes, |groups|, None)
    requires i < |groups| && j < |groups|
    ensures nodes[i] in nodes[j].children <==> groups[i].parentId == Some(groups[j].id) && groups[j].id != ""
    ensures nodes[i] in roots <==>
      groups[i].parentId == None || groups[i].parentId == Some("") || forall k :: 0 <= k < |groups| ==> groups[i].parentId != Some(groups[k].id)
  {
    forall k, l | 0 <= k < l < |nodes|
      ensures nodes[k] != nodes[l]
    {
      assert nodes[k].id != nodes[l].id;
    }
    UnderMembers(groups, nodes, |groups|, Some(groups[j].id), i);
    UnderMembers(groups, nodes, |groups|, None, i);
  }

  // ----- Ancestors -----

  lemma FiledMembers(groups: seq<Group>, n: nat, parent: Option<string>, id: string)
    requires n <= |groups|
    ensures id in Filed(groups, n, parent) <==> exists i :: 0 <= i < n && groups[i].id == id && FiledUnder(groups, groups[i]) == parent
  {
    if n > 0 {
      FiledMembers(groups, n - 1, parent, id);
    }
  }

  lemma {:induction false} FiledDistinct(groups: seq<Group>, n: nat, parent: Option<string>)
    requires n <= |groups| && DistinctIds(groups)
    ensures Distinct(Filed(groups, n, parent))
  {
    if n > 0 {
      FiledDistinct(groups, n - 1, parent);
      FiledMembers(groups, n - 1, parent, groups[n - 1].id);
    }
  }

  ghost predicate Distinct(ids: seq<string>) {
    forall i, j :: 0 <= i < j < |ids| ==> ids[i] != ids[j]
  }

  /** The group with the given id. */
  ghost function Find(groups: seq<Group>, id: string): (g: Option<Group>)
    ensures g.Some? <==> Present(groups, id)
    ensures g.Some? ==> g.value in groups && g.value.id == id
  {
    if Present(groups, id) then
      var i :| 0 <= i < |groups| && groups[i].id == id;
      Some(groups[i])
    else None
  }

  ghost function Parent(groups: seq<Group>, id: string): Option<string> {
    var g := Find(groups, id);
    if g.Some? then FiledUnder(groups, g.value) else None
  }

  /** The k-th ancestor along the parents that are present; None where the chain has ended before. */
  ghost function Ancestor(groups: seq<Group>, id: string, k: nat): Option<string> {
    if k == 0 then Some(id)
    else
      var a := Ancestor(groups, id, k - 1);
      if a.Some? then Parent(groups, a.value) else None
  }

  /** The parent chain ends at a group without a present parent. */
  ghost predicate ChainEnds(groups: seq<Group>, id: string) {
    exists k: nat :: Ancestor(groups, id, k).None?
  }

  /** Some ancestor, or the group itself, is its own ancestor. */
  ghost predicate OnOrBelowCycle(groups: seq<Group>, id: string) {
    exists i: nat, j: nat :: SameAncestor(groups, id, i, j)
  }

  ghost predicate SameAncestor(groups: seq<Group>, id: string, i: nat, j: nat) {
    i < j && Ancestor(groups, id, i).Some? && Ancestor(groups, id, i) == Ancestor(groups, id, j)
  }

  lemma {:induction false} AncestorsAdd(groups: seq<Group>, id: string, j: nat, k: nat)
    ensures Ancestor(groups, id, j + k)
         == var a := Ancestor(groups, id, j); if a.Some? then Ancestor(groups, a.value, k) else None
  {
    if k > 0 {
      AncestorsAdd(groups, id, j, k - 1);
      assert j + k - 1 == j + (k - 1);
    } else {
      assert j + 0 == j;
    }
  }

  lemma {:induction false} AncestorsStayNone(groups: seq<Group>, id: string, j: nat, k: nat)
    requires Ancestor(groups, id, j).None? && j <= k
    ensures Ancestor(groups, id, k).None?
  {
    AncestorsAdd(groups, id, j, k - j);
    assert j + (k - j) == k;
  }

  /** Along a cycle the chain never ends. */
  lemma {:induction false} CycleNeverEnds(groups: seq<Group>, id: string, i: nat, j: nat, n: nat)
    requires SameAncestor(groups, id, i, j)
    ensures Ancestor(groups, id, n).Some?
    decreases n
  {
    if n <= j {
      if Ancestor(groups, id, n).None? {
        AncestorsStayNone(groups, id, n, j);
      }
    } else {
      CycleRepeats(groups, id, i, j, n - j);
      CycleNeverEnds(groups, id, i, j, i + (n - j));
      assert j + (n - j) == n;
    }
  }

  lemma CycleRepeats(groups: seq<Group>, id: string, i: nat, j: nat, m: nat)
    requires SameAncestor(groups, id, i, j)
    ensures Ancestor(groups, id, i + m) == Ancestor(groups, id, j + m)
  {
    AncestorsAdd(groups, id, i, m);
    AncestorsAdd(groups, id, j, m);
  }

  // ----- At most |groups| generations -----

  function IdSet(groups: seq<Group>): set<string> {
    set i | 0 <= i < |groups| :: groups[i].id
  }

  lemma {:induction false} IdSetSize(groups: seq<Group>)
    ensures |IdSet(groups)| <= |groups|
  {
    if groups != [] {
      IdSetSize(groups[1..]);
      forall id | id in IdSet(groups)
        ensures id in IdSet(groups[1..]) + {groups[0].id}
      {
        var i :| 0 <= i < |groups| && groups[i].id == id;
        assert i > 0 ==> groups[1..][i - 1].id == id;
      }
      SubsetIsSmaller(IdSet(groups), IdSet(groups[1..]) + {groups[0].id});
    }
  }

  /** Pigeonhole: more values than the set has members repeat somewhere. */
  lemma {:induction false} Repeats(s: seq<string>, ids: set<string>) returns (i: nat, j: nat)
    requires |s| > |ids| && forall k :: 0 <= k < |s| ==> s[k] in ids
    ensures i < j < |s| && s[i] == s[j]
  {
    var last := |s| - 1;
    if k :| 0 <= k < last && s[k] == s[last] {
      return k, last;
    }
    i, j := Repeats(s[..last], ids - {s[last]});
  }

  lemma {:induction false} AncestorPresent(groups: seq<Group>, id: string, k: nat)
    requires Present(groups, id) && Ancestor(groups, id, k).Some?
    ensures Present(groups, Ancestor(groups, id, k).value)
  {
    if k > 0 {
      AncestorPresent(groups, id, k - 1);
    }
  }

  /** The ancestors up to the k-th, the group itself first. */
  ghost function Chain(groups: seq<Group>, id: string, k: nat): (chain: seq<string>)
    requires Ancestor(groups, id, k).Some?
    ensures |chain| == k + 1 && forall i :: 0 <= i <= k ==> Ancestor(groups, id, i) == Some(chain[i])
  {
    if k == 0 then [id] else Chain(groups, id, k - 1) + [Ancestor(groups, id, k).value]
  }

  /** A chain of |groups| ancestors repeats itself. */
  lemma LongChainCycles(groups: seq<Group>, id: string)
    requires Present(groups, id) && Ancestor(groups, id, |groups|).Some?
    ensures OnOrBelowCycle(groups, id)
  {
    var chain := Chain(groups, id, |groups|);
    forall k | 0 <= k < |chain|
      ensures chain[k] in IdSet(groups)
    {
      AncestorPresent(groups, id, k);
    }
    IdSetSize(groups);
    var i, j := Repeats(chain, IdSet(groups));
    assert SameAncestor(groups, id, i, j);
  }

  /** A chain that ends does so within |groups| steps, and the others are on or below a cycle. */
  lemma ChainEndsOrCycles(groups: seq<Group>, id: string)
    requires Present(groups, id)
    ensures ChainEnds(groups, id) <==> Ancestor(groups, id, |groups|).None?
    ensures ChainEnds(groups, id) <==> !OnOrBelowCycle(groups, id)
  {
    if OnOrBelowCycle(groups, id) {
      var i: nat, j: nat :| SameAncestor(groups, id, i, j);
      forall n: nat
        ensures Ancestor(groups, id, n).Some?
      {
        CycleNeverEnds(groups, id, i, j, n);
      }
    } else if Ancestor(groups, id, |groups|).Some? {
      LongChainCycles(groups, id);
    }
  }

  // ----- What can be reached from the roots -----

  /** All nodes reached from the given ones in at most `depth` generations, each followed by its descendants. */
  function Listing(groups: seq<Group>, ids: seq<string>, depth: nat): seq<string>
    decreases depth, |ids|
  {
    if ids == [] || depth == 0 then []
    else [ids[0]] + Listing(groups, Children(groups, ids[0]), depth - 1) + Listing(groups, ids[1..], depth)
  }

  /** 1 where the k-th ancestor is among the ids, else 0. */
  ghost function Hit(groups: seq<Group>, id: string, ids: seq<string>, k: nat): nat {
    var a := Ancestor(groups, id, k);
    if a.Some? && a.value in ids then 1 else 0
  }

  ghost function Hits(groups: seq<Group>, id: string, ids: seq<string>, n: nat): nat {
    if n == 0 then 0 else Hits(groups, id, ids, n - 1) + Hit(groups, id, ids, n - 1)
  }

  lemma {:induction false} HitsSplit(groups: seq<Group>, id: string, ids: seq<string>, n: nat)
    requires ids != [] && Distinct(ids)
    ensures Hits(groups, id, ids, n) == Hits(groups, id, [ids[0]], n) + Hits(groups, id, ids[1..], n)
  {
    if n > 0 {
      HitsSplit(groups, id, ids, n - 1);
      var a := Ancestor(groups, id, n - 1);
      if a.Some? {
        assert a.value in ids <==> a.value == ids[0] || a.value in ids[1..];
        assert ids[0] !in ids[1..];
      }
    }
  }

  /** Being found at a node k + 1 generations up is being found at one of its children k generations up. */
  lemma {:induction false} HitsBelow(groups: seq<Group>, id: string, parent: string, n: nat)
    requires n > 0 && DistinctIds(groups) && Present(groups, id)
    ensures Hits(groups, id, [parent], n) == (if id == parent then 1 else 0) + Hits(groups, id, Children(groups, parent), n - 1)
  {
    if n == 1 {
      assert Hits(groups, id, [parent], 1) == Hits(groups, id, [parent], 0) + Hit(groups, id, [parent], 0);
    } else {
      HitsBelow(groups, id, parent, n - 1);
      HitOnChild(groups, id, parent, n - 2);
    }
  }

  lemma HitOnChild(groups: seq<Group>, id: string, parent: string, k: nat)
    requires DistinctIds(groups) && Present(groups, id)
    ensures Hit(groups, id, [parent], k + 1) == Hit(groups, id, Children(groups, parent), k)
  {
    var a := Ancestor(groups, id, k);
    if a.Some? {
      AncestorPresent(groups, id, k);
      FiledMembers(groups, |groups|, Some(parent), a.value);
      FindUnique(groups, a.value);
    }
  }

  lemma FindUnique(groups: seq<Group>, id: string)
    requires DistinctIds(groups) && Present(groups, id)
    ensures forall i :: 0 <= i < |groups| && groups[i].id == id ==> Find(groups, id) == Some(groups[i])
  {
  }

  /** How often a group is listed: once for each generation in which its ancestor is among the ids. */
  lemma {:induction false} ListingCounts(groups: seq<Group>, ids: seq<string>, depth: nat, id: string)
    requires DistinctIds(groups) && Present(groups, id) && Distinct(ids)
    ensures Count(Listing(groups, ids, depth), id) == Hits(groups, id, ids, depth)
    decreases depth, |ids|
  {
    if ids == [] {
      NoHits(groups, id, depth);
      assert Listing(groups, ids, depth) == [];
    } else if depth == 0 {
      assert Listing(groups, ids, depth) == [];
    } else {
      FiledDistinct(groups, |groups|, Some(ids[0]));
      ListingAdds(groups, ids, depth, id);
      HitsAdd(groups, ids, depth, id);
      var children, rest := Children(groups, ids[0]), ids[1..];
      ListingCounts(groups, children, depth - 1, id);
      assert |rest| < |ids|;
      ListingCounts(groups, rest, depth, id);
    }
  }

  lemma HitsAdd(groups: seq<Group>, ids: seq<string>, depth: nat, id: string)
    requires DistinctIds(groups) && Present(groups, id) && ids != [] && Distinct(ids) && depth > 0
    ensures Hits(groups, id, ids, depth)
         == (if id == ids[0] then 1 else 0) + Hits(groups, id, Children(groups, ids[0]), depth - 1) + Hits(groups, id, ids[1..], depth)
  {
    HitsSplit(groups, id, ids, depth);
    HitsBelow(groups, id, ids[0], depth);
  }

  lemma ListingAdds(groups: seq<Group>, ids: seq<string>, depth: nat, id: string)
    requires ids != [] && depth > 0
    ensures Count(Listing(groups, ids, depth), id)
         == (if id == ids[0] then 1 else 0)
          + Count(Listing(groups, Children(groups, ids[0]), depth - 1), id) + Count(Listing(groups, ids[1..], depth), id)
  {
    var below, beside := Listing(groups, Children(groups, ids[0]), depth - 1), Listing(groups, ids[1..], depth);
    CountAppend([ids[0]] + below, beside, id);
    CountAppend([ids[0]], below, id);
  }

  /** How often x occurs in s. */
  function Count(s: seq<string>, x: string): nat {
    if s == [] then 0 else (if s[0] == x then 1 else 0) + Count(s[1..], x)
  }

  lemma {:induction false} CountAppend(s: seq<string>, t: seq<string>, x: string)
    ensures Count(s + t, x) == Count(s, x) + Count(t, x)
  {
    if s == [] {
      assert s + t == t;
    } else {
      assert (s + t)[1..] == s[1..] + t;
      CountAppend(s[1..], t, x);
    }
  }

  lemma {:induction false} NoHits(groups: seq<Group>, id: string, n: nat)
    ensures Hits(groups, id, [], n) == 0
  {
    if n > 0 {
      NoHits(groups, id, n - 1);
    }
  }

  /** An ancestor is a root exactly where the chain ends after it. */
  lemma RootHit(groups: seq<Group>, id: string, k: nat)
    requires DistinctIds(groups) && Present(groups, id)
    ensures Hit(groups, id, Roots(groups), k) == 1 <==> Ancestor(groups, id, k).Some? && Ancestor(groups, id, k + 1).None?
  {
    var a := Ancestor(groups, id, k);
    if a.Some? {
      AncestorPresent(groups, id, k);
      FiledMembers(groups, |groups|, None, a.value);
      FindUnique(groups, a.value);
    }
  }

  lemma HitsGrow(groups: seq<Group>, id: string, ids: seq<string>, n: nat)
    ensures Hits(groups, id, ids, n + 1) == Hits(groups, id, ids, n) + Hit(groups, id, ids, n)
  {
  }

  /** They are hit by the ancestor after which the chain ends. */
  lemma RootHitIsLast(groups: seq<Group>, id: string, k: nat)
    requires DistinctIds(groups) && Present(groups, id)
    ensures Hit(groups, id, Roots(groups), k) == EndsBy(groups, id, k + 1) - EndsBy(groups, id, k)
  {
    RootHit(groups, id, k);
    if Ancestor(groups, id, k).None? {
      AncestorsStayNone(groups, id, k, k + 1);
    }
  }

  /** 1 if the parent chain ends within k steps. */
  ghost function EndsBy(groups: seq<Group>, id: string, k: nat): nat {
    if Ancestor(groups, id, k).None? then 1 else 0
  }

  /** The roots are hit once if the chain ends within n steps, else never. */
  lemma {:induction false} RootHits(groups: seq<Group>, id: string, n: nat)
    requires DistinctIds(groups) && Present(groups, id)
    ensures Hits(groups, id, Roots(groups), n) == EndsBy(groups, id, n)
  {
    if n > 0 {
      RootHits(groups, id, n - 1);
      RootHitIsLast(groups, id, n - 1);
      HitsGrow(groups, id, Roots(groups), n - 1);
    }
  }

  /** The forest, listed from its roots. */
  function Forest(groups: seq<Group>): seq<string> {
    Listing(groups, Roots(groups), |groups|)
  }

  /**
   A group whose parent chain ends is in the forest exactly once; the groups on or below
   a parent cycle, and no others, are missing from it.
   */
  lemma ForestHoldsGroundedGroups(groups: seq<Group>, id: string)
    requires DistinctIds(groups) && Present(groups, id)
    ensures Count(Forest(groups), id) == if ChainEnds(groups, id) then 1 else 0
    ensures Count(Forest(groups), id) == 0 <==> OnOrBelowCycle(groups, id)
  {
    FiledDistinct(groups, |groups|, None);
    ListingCounts(groups, Roots(groups), |groups|, id);
    RootHits(groups, id, |groups|);
    ChainEndsOrCycles(groups, id);
  }

  /** Nothing deeper exists: listing further generations adds nothing. */
  lemma ForestIsComplete(groups: seq<Group>, id: string, depth: nat)
    requires DistinctIds(groups) && Present(groups, id) && |groups| <= depth
    ensures Count(Listing(groups, Roots(groups), depth), id) == Count(Forest(groups), id)
  {
    FiledDistinct(groups, |groups|, None);
    ListingCounts(groups, Roots(groups), depth, id);
    ListingCounts(groups, Roots(groups), |groups|, id);
    RootHits(groups, id, depth);
    RootHits(groups, id, |groups|);
    ChainEndsOrCycles(groups, id);
    if Ancestor(groups, id, |groups|).None? {
      AncestorsStayNone(groups, id, |groups|, depth);
    }
  }
}
