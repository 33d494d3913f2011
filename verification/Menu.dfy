/**
Merging the menus of many extensions into one tree (core/gateway/menu.go).

A chain is the list of paths from a root to a node.  The merged tree is compared, chain by chain, with the
first visible declaration of that chain in the unmerged menus.
*/
module Menu {
  import opened Common
  import opened Ordering

  datatype Info = Info(title: string, icon: string, order: int, entry: string, roles: seq<string>)

  datatype Node = Node(path: string, info: Info, children: seq<Node>)

  type Chain = c: seq<string> | c != [] witness [""]

  function OrElse<T>(a: Option<T>, b: Option<T>): Option<T> {
    if a.Some? then a else b
  }

  // ----- roles -----

  predicate RoleAllowed(roles: seq<string>, role: string) {
    roles == [] || (role != "" && role in roles)
  }

  method CheckRole(roles: seq<string>, role: string) returns (allowed: bool)
    ensures allowed <==> RoleAllowed(roles, role)
    ensures allowed <==> |roles| == 0 || (role != "" && exists i :: 0 <= i < |roles| && roles[i] == role)
  {
    if |roles| == 0 {
      return true;
    }
    if role == "" {
      return false;
    }
    for i := 0 to |roles|
      invariant role !in roles[..i]
    {
      if roles[i] == role {
        return true;
      }
    }
    return false;
  }

  function FilterByRole(nodes: seq<Node>, role: string): seq<Node>
    decreases nodes, 0
  {
    if nodes == [] then [] else FilterHead(nodes[0], role) + FilterByRole(nodes[1..], role)
  }

  function FilterHead(node: Node, role: string): seq<Node>
    decreases node, 1
  {
    if RoleAllowed(node.info.roles, role) then [node.(children := FilterByRole(node.children, role))] else []
  }

  lemma FilterOne(node: Node, role: string)
    ensures FilterByRole([node], role) ==
            if RoleAllowed(node.info.roles, role) then [node.(children := FilterByRole(node.children, role))] else []
  {
    assert [node][1..] == [];
  }

  lemma {:induction false} FilterAppend(a: seq<Node>, b: seq<Node>, role: string)
    ensures FilterByRole(a + b, role) == FilterByRole(a, role) + FilterByRole(b, role)
    decreases |a|
  {
    if a == [] {
      assert a + b == b;
    } else {
      assert (a + b)[0] == a[0] && (a + b)[1..] == a[1..] + b;
      FilterAppend(a[1..], b, role);
      var head := FilterHead(a[0], role);
      assert head + (FilterByRole(a[1..], role) + FilterByRole(b, role)) == head + FilterByRole(a[1..], role) + FilterByRole(b, role);
    }
  }

  method FilterNodes(nodes: seq<Node>, role: string) returns (out: seq<Node>)
    ensures out == FilterByRole(nodes, role)
    decreases nodes
  {
    out := [];
    for i := 0 to |nodes|
      invariant out == FilterByRole(nodes[..i], role)
    {
      assert nodes[..i + 1] == nodes[..i] + [nodes[i]];
      FilterAppend(nodes[..i], [nodes[i]], role);
      FilterOne(nodes[i], role);
      var allowed := CheckRole(nodes[i].info.roles, role);
      if allowed {
        var children := FilterNodes(nodes[i].children, role);
        out := out + [nodes[i].(children := children)];
      }
    }
    assert nodes[..|nodes|] == nodes;
  }

  // ----- merging -----

  predicate NodeLeq(a: Node, b: Node) {
    if a.info.order != b.info.order then a.info.order < b.info.order else StrLeq(a.path, b.path)
  }

  function SortNodes(nodes: seq<Node>): seq<Node> {
    StableSort(NodeLeq, nodes)
  }

  function FindIndex(nodes: seq<Node>, path: string): (r: int)
    ensures -1 <= r < |nodes|
    ensures r >= 0 ==> nodes[r].path == path
    ensures forall i :: 0 <= i < (if r >= 0 then r else |nodes|) ==> nodes[i].path != path
  {
    if nodes == [] then -1
    else if nodes[0].path == path then 0
    else
      var r := FindIndex(nodes[1..], path);
      assert forall i :: 1 <= i < |nodes| ==> nodes[i] == nodes[1..][i - 1];
      if r < 0 then -1 else r + 1
  }

  /** The siblings with a node of this path among them: the first declaration brings its fields, not its children. */
  function Placed(siblings: seq<Node>, node: Node): (r: seq<Node>)
    ensures FindIndex(r, node.path) >= 0
  {
    if FindIndex(siblings, node.path) >= 0 then siblings
    else
      var r := siblings + [node.(children := [])];
      assert r[|siblings|].path == node.path;
      r
  }

  function MergeAll(siblings: seq<Node>, nodes: seq<Node>): seq<Node>
    decreases nodes
  {
    if nodes == [] then siblings
    else
      var base := Placed(siblings, nodes[0]);
      var k := FindIndex(base, nodes[0].path);
      var children := SortNodes(MergeAll(base[k].children, nodes[0].children));
      MergeAll(base[k := base[k].(children := children)], nodes[1..])
  }

  lemma {:induction false} MergeAllAppend(siblings: seq<Node>, a: seq<Node>, b: seq<Node>)
    ensures MergeAll(siblings, a + b) == MergeAll(MergeAll(siblings, a), b)
    decreases a
  {
    if a == [] {
      assert a + b == b;
    } else {
      var base := Placed(siblings, a[0]);
      var k := FindIndex(base, a[0].path);
      var children := SortNodes(MergeAll(base[k].children, a[0].children));
      assert (a + b)[0] == a[0] && (a + b)[1..] == a[1..] + b;
      MergeAllAppend(base[k := base[k].(children := children)], a[1..], b);
    }
  }

  function Flatten(menus: seq<seq<Node>>): seq<Node> {
    if menus == [] then [] else menus[0] + Flatten(menus[1..])
  }

  function Tree(menus: seq<seq<Node>>, role: string): seq<Node> {
    SortNodes(MergeAll([], FilterByRole(Flatten(menus), role)))
  }

  // ----- what the tree means -----

  /** The fields of the first declaration of a chain, reading the menus in order. */
  function FirstDecl(nodes: seq<Node>, c: Chain): Option<Info>
    decreases nodes
  {
    if nodes == [] then None
    else if nodes[0].path != c[0] then FirstDecl(nodes[1..], c)
    else if |c| == 1 then Some(nodes[0].info)
    else OrElse(FirstDecl(nodes[0].children, c[1..]), FirstDecl(nodes[1..], c))
  }

  /** The same, counting only declarations the role may see together with everything above them. */
  function FirstVisible(nodes: seq<Node>, role: string, c: Chain): Option<Info>
    decreases nodes
  {
    if nodes == [] then None
    else if nodes[0].path != c[0] || !RoleAllowed(nodes[0].info.roles, role) then FirstVisible(nodes[1..], role, c)
    else if |c| == 1 then Some(nodes[0].info)
    else OrElse(FirstVisible(nodes[0].children, role, c[1..]), FirstVisible(nodes[1..], role, c))
  }

  /** Some declaration of the chain is visible to the role. */
  ghost predicate HasChain(nodes: seq<Node>, role: string, c: Chain)
    decreases nodes
  {
    exists i :: 0 <= i < |nodes| && Starts(nodes[i], role, c[0]) && (|c| > 1 ==> HasChain(nodes[i].children, role, c[1..]))
  }

  predicate Starts(node: Node, role: string, path: string) {
    node.path == path && RoleAllowed(node.info.roles, role)
  }

  /** Siblings are unique and in order, at every level. */
  ghost predicate Tidy(nodes: seq<Node>)
    decreases nodes
  {
    UniquePaths(nodes) && Sorted(NodeLeq, nodes) && forall i :: 0 <= i < |nodes| ==> Tidy(nodes[i].children)
  }

  predicate UniquePaths(nodes: seq<Node>) {
    forall i, j :: 0 <= i < j < |nodes| ==> nodes[i].path != nodes[j].path
  }

  /** At every level the smaller order comes first, among equal ones the smaller path, and no path twice. */
  ghost predicate InOrder(nodes: seq<Node>)
    decreases nodes
  {
    && (forall i, j :: 0 <= i < j < |nodes| ==> nodes[i].path != nodes[j].path && ComesFirst(nodes[i], nodes[j]))
    && (forall i :: 0 <= i < |nodes| ==> InOrder(nodes[i].children))
  }

  predicate ComesFirst(a: Node, b: Node) {
    a.info.order < b.info.order || (a.info.order == b.info.order && StrLess(a.path, b.path))
  }

  lemma {:induction false} TidyIsInOrder(nodes: seq<Node>)
    ensures Tidy(nodes) <==> InOrder(nodes)
    decreases nodes
  {
    forall i | 0 <= i < |nodes|
      ensures Tidy(nodes[i].children) <==> InOrder(nodes[i].children)
    {
      TidyIsInOrder(nodes[i].children);
    }
    assert forall i, j :: 0 <= i < j < |nodes| && nodes[i].path != nodes[j].path ==>
        (NodeLeq(nodes[i], nodes[j]) <==> ComesFirst(nodes[i], nodes[j]));
  }

  /** Tidy but for the order of the top level, as during a merge. */
  ghost predicate Merging(nodes: seq<Node>) {
    UniquePaths(nodes) && forall i :: 0 <= i < |nodes| ==> Tidy(nodes[i].children)
  }

  // ----- filtering -----

  lemma {:induction false} FirstDeclAppend(a: seq<Node>, b: seq<Node>, c: Chain)
    ensures FirstDecl(a + b, c) == OrElse(FirstDecl(a, c), FirstDecl(b, c))
    decreases a
  {
    if a == [] {
      assert a + b == b;
    } else {
      assert (a + b)[0] == a[0] && (a + b)[1..] == a[1..] + b;
      FirstDeclAppend(a[1..], b, c);
    }
  }

  lemma {:induction false} FilterKeepsVisible(nodes: seq<Node>, role: string, c: Chain)
    ensures FirstDecl(FilterByRole(nodes, role), c) == FirstVisible(nodes, role, c)
    decreases nodes
  {
    if nodes != [] {
      FilterKeepsVisible(nodes[1..], role, c);
      if RoleAllowed(nodes[0].info.roles, role) {
        if |c| > 1 {
          FilterKeepsVisible(nodes[0].children, role, c[1..]);
        }
        var head := nodes[0].(children := FilterByRole(nodes[0].children, role));
        assert FilterByRole(nodes, role) == [head] + FilterByRole(nodes[1..], role);
        assert ([head] + FilterByRole(nodes[1..], role))[1..] == FilterByRole(nodes[1..], role);
      } else {
        assert FilterByRole(nodes, role) == FilterByRole(nodes[1..], role);
      }
    }
  }

  /** A chain is found exactly when some declaration of it is visible all the way up. */
  lemma {:induction false} FirstVisibleFindsChains(nodes: seq<Node>, role: string, c: Chain)
    ensures FirstVisible(nodes, role, c).Some? <==> HasChain(nodes, role, c)
    decreases nodes
  {
    if nodes != [] {
      FirstVisibleFindsChains(nodes[1..], role, c);
      if |c| > 1 {
        FirstVisibleFindsChains(nodes[0].children, role, c[1..]);
      }
      assert forall i :: 0 <= i < |nodes[1..]| ==> nodes[1..][i] == nodes[i + 1];
      if HasChain(nodes, role, c) {
        var i :| 0 <= i < |nodes| && Starts(nodes[i], role, c[0]) && (|c| > 1 ==> HasChain(nodes[i].children, role, c[1..]));
        if i > 0 {
          assert Starts(nodes[1..][i - 1], role, c[0]);
        }
      }
      if HasChain(nodes[1..], role, c) {
        var i :| 0 <= i < |nodes[1..]| && Starts(nodes[1..][i], role, c[0]) && (|c| > 1 ==> HasChain(nodes[1..][i].children, role, c[1..]));
        assert Starts(nodes[i + 1], role, c[0]);
      }
      if FirstVisible(nodes, role, c).Some? && !HasChain(nodes[1..], role, c) {
        assert Starts(nodes[0], role, c[0]);
      }
    }
  }

  // ----- forests with unique siblings -----

  /** What a chain denotes below one node. */
  function Below(node: Node, c: Chain): Option<Info> {
    if |c| == 1 then Some(node.info) else FirstDecl(node.children, c[1..])
  }

  lemma {:induction false} DeclAt(nodes: seq<Node>, i: nat, c: Chain)
    requires UniquePaths(nodes) && i < |nodes| && nodes[i].path == c[0]
    ensures FirstDecl(nodes, c) == Below(nodes[i], c)
  {
    if i > 0 {
      assert nodes[1..][i - 1] == nodes[i];
      DeclAt(nodes[1..], i - 1, c);
    } else {
      NoDecl(nodes[1..], c);
    }
  }

  lemma {:induction false} NoDecl(nodes: seq<Node>, c: Chain)
    requires forall i :: 0 <= i < |nodes| ==> nodes[i].path != c[0]
    ensures FirstDecl(nodes, c) == None
  {
    if nodes != [] {
      NoDecl(nodes[1..], c);
    }
  }

  lemma NodeOrder()
    ensures TotalPreorder(NodeLeq)
  {
    forall a: Node, b: Node
      ensures NodeLeq(a, b) || NodeLeq(b, a)
    {
      StrTotal(a.path, b.path);
    }
    forall a: Node, b: Node, c: Node | NodeLeq(a, b) && NodeLeq(b, c)
      ensures NodeLeq(a, c)
    {
      if a.info.order == b.info.order == c.info.order {
        StrTransitive(a.path, b.path, c.path);
      }
    }
  }

  lemma SortKeepsUnique(nodes: seq<Node>)
    requires UniquePaths(nodes)
    ensures UniquePaths(SortNodes(nodes)) && Sorted(NodeLeq, SortNodes(nodes))
    ensures forall n :: n in nodes <==> n in SortNodes(nodes)
  {
    NodeOrder();
    var t := SortNodes(nodes);
    StableSortSpec(NodeLeq, nodes);
    SameMembers(nodes, t);
    DistinctRearranged(nodes, t);
    forall i, j | 0 <= i < j < |t|
      ensures t[i].path != t[j].path
    {
      assert t[i] in nodes && t[j] in nodes;
    }
  }

  lemma SortKeepsDecls(nodes: seq<Node>, c: Chain)
    requires UniquePaths(nodes)
    ensures FirstDecl(SortNodes(nodes), c) == FirstDecl(nodes, c)
  {
    SortKeepsUnique(nodes);
    var t := SortNodes(nodes);
    if i :| 0 <= i < |nodes| && nodes[i].path == c[0] {
      assert nodes[i] in t;
      var j :| 0 <= j < |t| && t[j] == nodes[i];
      DeclAt(nodes, i, c);
      DeclAt(t, j, c);
    } else {
      assert forall j :: 0 <= j < |t| ==> t[j] in nodes;
      NoDecl(nodes, c);
      NoDecl(t, c);
    }
  }

  // ----- the merge -----

  lemma {:induction false} MergeStaysTidy(siblings: seq<Node>, nodes: seq<Node>)
    requires Merging(siblings)
    ensures Merging(MergeAll(siblings, nodes))
    decreases nodes
  {
    if nodes != [] {
      var base := Placed(siblings, nodes[0]);
      var k := FindIndex(base, nodes[0].path);
      MergeStaysTidy(base[k].children, nodes[0].children);
      SortedIsTidy(MergeAll(base[k].children, nodes[0].children));
      var children := SortNodes(MergeAll(base[k].children, nodes[0].children));
      MergeStaysTidy(base[k := base[k].(children := children)], nodes[1..]);
    }
  }

  lemma SortedIsTidy(nodes: seq<Node>)
    requires Merging(nodes)
    ensures Tidy(SortNodes(nodes))
  {
    SortKeepsUnique(nodes);
    var t := SortNodes(nodes);
    assert forall i :: 0 <= i < |t| ==> t[i] in nodes;
  }

  /** One placed node, its children merged: the chains of the siblings first, then those of the node. */
  lemma PlacedDecls(siblings: seq<Node>, node: Node, children: seq<Node>, c: Chain)
    requires UniquePaths(siblings)
    requires var base := Placed(siblings, node);
             var k := FindIndex(base, node.path);
             |c| > 1 ==> FirstDecl(children, c[1..]) == OrElse(FirstDecl(base[k].children, c[1..]), FirstDecl(node.children, c[1..]))
    ensures var base := Placed(siblings, node);
            var k := FindIndex(base, node.path);
            FirstDecl(base[k := base[k].(children := children)], c) == OrElse(FirstDecl(siblings, c), FirstDecl([node], c))
  {
    var base := Placed(siblings, node);
    var k := FindIndex(base, node.path);
    var merged := base[k := base[k].(children := children)];
    assert FirstDecl([node], c) == if node.path == c[0] then Below(node, c) else None;
    if node.path == c[0] {
      DeclAt(merged, k, c);
      if k < |siblings| {
        DeclAt(siblings, k, c);
      } else {
        NoDecl(siblings, c);
      }
    } else if i :| 0 <= i < |siblings| && siblings[i].path == c[0] {
      DeclAt(siblings, i, c);
      DeclAt(merged, i, c);
    } else {
      NoDecl(siblings, c);
      NoDecl(merged, c);
    }
  }

  lemma {:induction false} MergeDecls(siblings: seq<Node>, nodes: seq<Node>, c: Chain)
    requires Merging(siblings)
    ensures FirstDecl(MergeAll(siblings, nodes), c) == OrElse(FirstDecl(siblings, c), FirstDecl(nodes, c))
    decreases nodes, 1
  {
    if nodes != [] {
      var base := Placed(siblings, nodes[0]);
      var k := FindIndex(base, nodes[0].path);
      var children := SortNodes(MergeAll(base[k].children, nodes[0].children));
      MergedChildren(siblings, nodes, c);
      PlacedDecls(siblings, nodes[0], children, c);
      MergeDecls(base[k := base[k].(children := children)], nodes[1..], c);
      FirstDeclAppend([nodes[0]], nodes[1..], c);
      assert nodes == [nodes[0]] + nodes[1..];
    }
  }

  lemma {:induction false} MergedChildren(siblings: seq<Node>, nodes: seq<Node>, c: Chain)
    requires Merging(siblings) && nodes != []
    ensures var base := Placed(siblings, nodes[0]);
            var k := FindIndex(base, nodes[0].path);
            var children := SortNodes(MergeAll(base[k].children, nodes[0].children));
            && Merging(base[k := base[k].(children := children)])
            && (|c| > 1 ==> FirstDecl(children, c[1..]) ==
                              OrElse(FirstDecl(base[k].children, c[1..]), FirstDecl(nodes[0].children, c[1..])))
    decreases nodes, 0
  {
    var base := Placed(siblings, nodes[0]);
    var k := FindIndex(base, nodes[0].path);
    PlacedIsMerging(siblings, nodes[0]);
    SortedMerge(base[k].children, nodes[0].children);
    ReplacedIsMerging(base, k, SortNodes(MergeAll(base[k].children, nodes[0].children)));
    if |c| > 1 {
      MergeDecls(base[k].children, nodes[0].children, c[1..]);
      SortKeepsDecls(MergeAll(base[k].children, nodes[0].children), c[1..]);
    }
  }

  lemma PlacedIsMerging(siblings: seq<Node>, node: Node)
    requires Merging(siblings)
    ensures Merging(Placed(siblings, node))
  {
  }

  lemma ReplacedIsMerging(base: seq<Node>, k: nat, children: seq<Node>)
    requires Merging(base) && k < |base| && Tidy(children)
    ensures Merging(base[k := base[k].(children := children)])
  {
  }

  lemma SortedMerge(siblings: seq<Node>, nodes: seq<Node>)
    requires Tidy(siblings)
    ensures Merging(MergeAll(siblings, nodes)) && Tidy(SortNodes(MergeAll(siblings, nodes)))
  {
    MergeStaysTidy(siblings, nodes);
    SortedIsTidy(MergeAll(siblings, nodes));
  }

  /**
  The merged tree is tidy, it contains exactly the chains some menu declares visibly, and every node carries
  the fields of the first such declaration.
  */
  lemma TreeMeansItsMenus(menus: seq<seq<Node>>, role: string)
    ensures Tidy(Tree(menus, role)) && InOrder(Tree(menus, role))
    ensures forall c: Chain :: FirstDecl(Tree(menus, role), c) == FirstVisible(Flatten(menus), role, c)
  {
    var nodes := FilterByRole(Flatten(menus), role);
    MergeStaysTidy([], nodes);
    SortedIsTidy(MergeAll([], nodes));
    TidyIsInOrder(Tree(menus, role));
    forall c: Chain
      ensures FirstDecl(Tree(menus, role), c) == FirstVisible(Flatten(menus), role, c)
    {
      MergeDecls([], nodes, c);
      SortKeepsDecls(MergeAll([], nodes), c);
      FilterKeepsVisible(Flatten(menus), role, c);
    }
  }

  /** The chains of all the menus together are the union of the chains of each. */
  lemma {:induction false} ChainsAreTheUnion(menus: seq<seq<Node>>, role: string, c: Chain)
    ensures HasChain(Flatten(menus), role, c) <==> exists i :: 0 <= i < |menus| && HasChain(menus[i], role, c)
  {
    if menus != [] {
      ChainsAreTheUnion(menus[1..], role, c);
      var rest := Flatten(menus[1..]);
      FirstVisibleFindsChains(menus[0], role, c);
      FirstVisibleFindsChains(rest, role, c);
      FirstVisibleFindsChains(menus[0] + rest, role, c);
      FirstVisibleAppend(menus[0], rest, role, c);
      assert forall i :: 0 <= i < |menus[1..]| ==> menus[1..][i] == menus[i + 1];
      if i :| 0 <= i < |menus| && HasChain(menus[i], role, c) {
        assert i > 0 ==> HasChain(menus[1..][i - 1], role, c);
      }
    }
  }

  lemma {:induction false} FirstVisibleAppend(a: seq<Node>, b: seq<Node>, role: string, c: Chain)
    ensures FirstVisible(a + b, role, c) == OrElse(FirstVisible(a, role, c), FirstVisible(b, role, c))
    decreases a
  {
    if a == [] {
      assert a + b == b;
    } else {
      assert (a + b)[0] == a[0] && (a + b)[1..] == a[1..] + b;
      FirstVisibleAppend(a[1..], b, role, c);
    }
  }

  // ----- the meaning determines the tree -----

  lemma {:induction false} SameNode(a: seq<Node>, b: seq<Node>, i: nat) returns (j: nat)
    requires Tidy(a) && Tidy(b) && i < |a|
    requires forall c: Chain :: FirstDecl(a, c) == FirstDecl(b, c)
    ensures j < |b| && b[j] == a[i]
    decreases a, 0
  {
    var c: Chain := [a[i].path];
    DeclAt(a, i, c);
    if forall k :: 0 <= k < |b| ==> b[k].path != a[i].path {
      NoDecl(b, c);
    }
    j :| j < |b| && b[j].path == a[i].path;
    DeclAt(b, j, c);
    forall d: Chain
      ensures FirstDecl(a[i].children, d) == FirstDecl(b[j].children, d)
    {
      var e: Chain := [a[i].path] + d;
      assert e[1..] == d;
      DeclAt(a, i, e);
      DeclAt(b, j, e);
    }
    TidyIsDetermined(a[i].children, b[j].children);
  }

  lemma HeadIsMember(nodes: seq<Node>)
    ensures nodes != [] ==> nodes[0] in nodes
  {
  }

  lemma {:induction false} SortedByMembers(a: seq<Node>, b: seq<Node>)
    requires UniquePaths(a) && UniquePaths(b) && Sorted(NodeLeq, a) && Sorted(NodeLeq, b)
    requires forall n :: n in a <==> n in b
    ensures a == b
  {
    if a == [] {
      HeadIsMember(b);
    } else {
      assert a[0] in b;
      assert b[0] in a;
      StrTotal(a[0].path, a[0].path);
      assert NodeLeq(a[0], b[0]) && NodeLeq(b[0], a[0]);
      StrAntisymmetric(a[0].path, b[0].path);
      assert a[0] == b[0];
      assert forall n :: n in a[1..] <==> n in a && n != a[0];
      assert forall n :: n in b[1..] <==> n in b && n != b[0];
      SortedByMembers(a[1..], b[1..]);
      assert a == [a[0]] + a[1..] && b == [b[0]] + b[1..];
    }
  }

  /** Two tidy trees in which every chain means the same are the same tree. */
  lemma {:induction false} TidyIsDetermined(a: seq<Node>, b: seq<Node>)
    requires Tidy(a) && Tidy(b)
    requires forall c: Chain :: FirstDecl(a, c) == FirstDecl(b, c)
    ensures a == b
    decreases a
  {
    forall n
      ensures n in a <==> n in b
    {
      if n in a {
        var i :| 0 <= i < |a| && a[i] == n;
        var j := SameNode(a, b, i);
      }
      if n in b && n !in a {
        var j :| 0 <= j < |b| && b[j] == n;
        SameNodeBack(a, b, j);
      }
    }
    SortedByMembers(a, b);
  }

  lemma {:induction false} SameNodeBack(a: seq<Node>, b: seq<Node>, j: nat)
    requires Tidy(a) && Tidy(b) && j < |b|
    requires forall c: Chain :: FirstDecl(a, c) == FirstDecl(b, c)
    ensures b[j] in a
    decreases a, 1
  {
    var c: Chain := [b[j].path];
    DeclAt(b, j, c);
    if forall k :: 0 <= k < |a| ==> a[k].path != b[j].path {
      NoDecl(a, c);
    }
    var i: nat :| i < |a| && a[i].path == b[j].path;
    var k := SameNode(a, b, i);
  }

  // ----- the loops -----

  method Locate(nodes: seq<Node>, path: string) returns (r: int)
    ensures r == FindIndex(nodes, path)
  {
    for i := 0 to |nodes|
      invariant forall j :: 0 <= j < i ==> nodes[j].path != path
    {
      if nodes[i].path == path {
        return i;
      }
    }
    return -1;
  }

  /** Folds one node into its siblings. */
  method MergeInto(siblings: seq<Node>, node: Node) returns (out: seq<Node>)
    ensures out == MergeAll(siblings, [node])
    decreases node
  {
    out := siblings;
    var k := Locate(out, node.path);
    if k < 0 {
      out := out + [node.(children := [])];
      k := |out| - 1;
    }
    assert out == Placed(siblings, node) && k == FindIndex(out, node.path);
    var children := MergeChildren(out[k].children, node.children);
    out := out[k := out[k].(children := SortNodes(children))];
    MergeOne(siblings, node);
  }

  lemma MergeOne(siblings: seq<Node>, node: Node)
    ensures var base := Placed(siblings, node);
            var k := FindIndex(base, node.path);
            MergeAll(siblings, [node]) == base[k := base[k].(children := SortNodes(MergeAll(base[k].children, node.children)))]
  {
    assert [node][1..] == [];
  }

  method MergeChildren(siblings: seq<Node>, nodes: seq<Node>) returns (out: seq<Node>)
    ensures out == MergeAll(siblings, nodes)
    decreases nodes
  {
    out := siblings;
    for i := 0 to |nodes|
      invariant out == MergeAll(siblings, nodes[..i])
    {
      MergeNext(siblings, nodes, i);
      out := MergeInto(out, nodes[i]);
    }
    assert nodes[..|nodes|] == nodes;
  }

  lemma MergeNext(siblings: seq<Node>, nodes: seq<Node>, i: nat)
    requires i < |nodes|
    ensures MergeAll(siblings, nodes[..i + 1]) == MergeAll(MergeAll(siblings, nodes[..i]), [nodes[i]])
  {
    MergeAllAppend(siblings, nodes[..i], [nodes[i]]);
    assert nodes[..i + 1] == nodes[..i] + [nodes[i]];
  }

  method BuildTree(menus: seq<seq<Node>>, role: string) returns (root: seq<Node>)
    ensures root == Tree(menus, role)
    ensures Tidy(root) && InOrder(root)
    ensures forall c: Chain :: FirstDecl(root, c) == FirstVisible(Flatten(menus), role, c)
  {
    root := [];
    assert menus[0..] == menus;
    for i := 0 to |menus|
      invariant MergedSoFar(root, menus, role, i)
    {
      var filtered := FilterNodes(menus[i], role);
      NextMenu(root, menus, role, i);
      root := MergeChildren(root, filtered);
    }
    root := SortNodes(root);
    TreeMeansItsMenus(menus, role);
  }

  /** What is left to merge after i menus leads to the same tree. */
  predicate MergedSoFar(root: seq<Node>, menus: seq<seq<Node>>, role: string, i: nat) {
    i <= |menus| && MergeAll(root, FilterByRole(Flatten(menus[i..]), role)) == MergeAll([], FilterByRole(Flatten(menus), role))
  }

  lemma NextMenu(root: seq<Node>, menus: seq<seq<Node>>, role: string, i: nat)
    requires i < |menus| && MergedSoFar(root, menus, role, i)
    ensures MergedSoFar(MergeAll(root, FilterByRole(menus[i], role)), menus, role, i + 1)
  {
    var rest := Flatten(menus[i + 1..]);
    assert menus[i..][1..] == menus[i + 1..];
    FilterAppend(menus[i], rest, role);
    MergeAllAppend(root, FilterByRole(menus[i], role), FilterByRole(rest, role));
  }
}
