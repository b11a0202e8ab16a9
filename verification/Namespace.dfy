// The pointer tree of nodes as a map from paths to nodes (vfs crate, meta.rs).
module Namespace {
  import opened Base
  import opened Paths
  import opened MetaTables

  type Nodes = map<nat, Node>

  /** `path` is what following parent pointers from `id` up to a root spells out. */
  ghost predicate At(nodes: Nodes, path: Path, id: nat)
    decreases |path|
  {
    && id in nodes
    && if path == [] then nodes[id].parent.None?
       else
         && nodes[id].parent.Some?
         && nodes[id].name == Last(path)
         && At(nodes, Init(path), nodes[id].parent.value)
  }

  ghost predicate Rooted(nodes: Nodes, id: nat) {
    exists path :: At(nodes, path, id)
  }

  ghost predicate LinkOk(nodes: Nodes, id: nat)
    requires id in nodes
  {
    match nodes[id].parent
    case None => id == ROOT_ID && nodes[id].isDir
    case Some(p) => id != ROOT_ID && NameOk(nodes[id].name) && p in nodes && nodes[p].isDir
  }

  /** One tree: a single root, which every node reaches; only collections have children;
      siblings have distinct, proper names. */
  ghost predicate TreeOk(nodes: Nodes) {
    && ROOT_ID in nodes
    && SiblingsUnique(nodes)
    && (forall id :: id in nodes ==> LinkOk(nodes, id))
    && (forall id :: id in nodes ==> Rooted(nodes, id))
  }

  // ---- A path for every node, a node for every path ----

  lemma {:induction false} PathUnique(nodes: Nodes, p: Path, q: Path, id: nat)
    requires At(nodes, p, id) && At(nodes, q, id)
    ensures p == q
    decreases |p|
  {
    if p != [] {
      PathUnique(nodes, Init(p), Init(q), nodes[id].parent.value);
      assert p == Init(p) + [Last(p)] && q == Init(q) + [Last(q)];
    }
  }

  lemma {:induction false} NodeUnique(nodes: Nodes, p: Path, a: nat, b: nat)
    requires TreeOk(nodes) && At(nodes, p, a) && At(nodes, p, b)
    ensures a == b
    decreases |p|
  {
    assert LinkOk(nodes, a) && LinkOk(nodes, b);
    if p != [] {
      NodeUnique(nodes, Init(p), nodes[a].parent.value, nodes[b].parent.value);
      assert IsChild(nodes, nodes[a].parent.value, Last(p), a);
      assert IsChild(nodes, nodes[a].parent.value, Last(p), b);
    }
  }

  ghost function PathOf(nodes: Nodes, id: nat): (path: Path)
    requires Rooted(nodes, id)
    ensures At(nodes, path, id)
  {
    var path :| At(nodes, path, id); path
  }

  lemma {:induction false} PathNamesOk(nodes: Nodes, p: Path, id: nat)
    requires TreeOk(nodes) && At(nodes, p, id)
    ensures NamesOk(p)
    decreases |p|
  {
    if p != [] {
      assert LinkOk(nodes, id);
      PathNamesOk(nodes, Init(p), nodes[id].parent.value);
    }
  }

  /** Looking names up one by one from the root. */
  ghost function Resolve(nodes: Nodes, path: Path): Option<nat> {
    if path == [] then if ROOT_ID in nodes then Some(ROOT_ID) else None
    else match Resolve(nodes, Init(path))
      case None => None
      case Some(p) => Child(nodes, p, Last(path))
  }

  /** Resolving a path and spelling out a node's path are inverse to each other. */
  lemma {:induction false} ResolveIffAt(nodes: Nodes, path: Path, id: nat)
    requires TreeOk(nodes)
    ensures Resolve(nodes, path) == Some(id) <==> At(nodes, path, id)
    decreases |path|
  {
    if path == [] {
      assert id in nodes ==> LinkOk(nodes, id);
      assert LinkOk(nodes, ROOT_ID);
    } else {
      if At(nodes, path, id) {
        ResolveIffAt(nodes, Init(path), nodes[id].parent.value);
        assert IsChild(nodes, nodes[id].parent.value, Last(path), id);
      }
      if Resolve(nodes, path) == Some(id) {
        ResolveIffAt(nodes, Init(path), Resolve(nodes, Init(path)).value);
      }
    }
  }

  // ---- Bounded walks towards the root ----

  const WALK_LIMIT: nat := 10_000

  /** `path_of`'s walk: a node's names, nothing for a missing node, or a report of
      corruption when the root is not found within `fuel` nodes. */
  function WalkUp(nodes: Nodes, id: nat, fuel: nat): Outcome<Option<Path>>
    decreases fuel
  {
    if fuel == 0 then Err(Corrupt)
    else if id !in nodes then Ok(None)
    else match nodes[id].parent
      case None => Ok(Some([]))
      case Some(p) =>
        match WalkUp(nodes, p, fuel - 1)
        case Ok(Some(path)) => Ok(Some(path + [nodes[id].name]))
        case other => other
  }

  /** On any table at all, cyclic ones included, a path is returned exactly when it is the
      node's path and short enough. */
  lemma {:induction false} WalkUpIsExact(nodes: Nodes, id: nat, fuel: nat, path: Path)
    ensures WalkUp(nodes, id, fuel) == Ok(Some(path)) <==> At(nodes, path, id) && |path| < fuel
    decreases fuel
  {
    if fuel > 0 && id in nodes && nodes[id].parent.Some? {
      var p := nodes[id].parent.value;
      if At(nodes, path, id) {
        WalkUpIsExact(nodes, p, fuel - 1, Init(path));
        assert path == Init(path) + [Last(path)];
      }
      if WalkUp(nodes, id, fuel) == Ok(Some(path)) {
        assert path == WalkUp(nodes, p, fuel - 1).value.value + [nodes[id].name];
        assert Init(path) == WalkUp(nodes, p, fuel - 1).value.value;
        WalkUpIsExact(nodes, p, fuel - 1, Init(path));
      }
    }
  }

  lemma {:induction false} WalkUpTooDeep(nodes: Nodes, id: nat, fuel: nat, path: Path)
    requires At(nodes, path, id) && |path| >= fuel
    ensures WalkUp(nodes, id, fuel) == Err(Corrupt)
    decreases fuel
  {
    if fuel > 0 {
      WalkUpTooDeep(nodes, nodes[id].parent.value, fuel - 1, Init(path));
    }
  }

  /** On a tree: the path of a node of depth below the limit, corruption beyond, nothing
      for an unknown id. */
  lemma WalkUpOnTree(nodes: Nodes, id: nat)
    requires TreeOk(nodes)
    ensures WalkUp(nodes, id, WALK_LIMIT) ==
            if id !in nodes then Ok(None)
            else if |PathOf(nodes, id)| < WALK_LIMIT then Ok(Some(PathOf(nodes, id)))
            else Err(Corrupt)
  {
    if id in nodes {
      var path := PathOf(nodes, id);
      if |path| < WALK_LIMIT {
        WalkUpIsExact(nodes, id, WALK_LIMIT, path);
      } else {
        WalkUpTooDeep(nodes, id, WALK_LIMIT, path);
      }
    }
  }

  /** `a` is the `k`-th node above `n`. */
  ghost predicate Above(nodes: Nodes, a: nat, n: nat, k: nat)
    decreases k
  {
    if k == 0 then a == n
    else n in nodes && nodes[n].parent.Some? && Above(nodes, a, nodes[n].parent.value, k - 1)
  }

  /** Ancestry is the prefix order on paths. */
  lemma {:induction false} AboveIsPrefix(nodes: Nodes, a: nat, n: nat, k: nat, p: Path)
    requires TreeOk(nodes) && At(nodes, p, n)
    ensures Above(nodes, a, n, k) <==> k <= |p| && At(nodes, p[..|p| - k], a)
    decreases k
  {
    if k == 0 {
      assert p[..|p|] == p;
      if At(nodes, p, a) {
        NodeUnique(nodes, p, a, n);
      }
    } else if p != [] {
      AboveIsPrefix(nodes, a, nodes[n].parent.value, k - 1, Init(p));
      assert k <= |p| ==> Init(p)[..|Init(p)| - (k - 1)] == p[..|p| - k];
    }
  }

  ghost predicate ProperAncestor(nodes: Nodes, a: nat, n: nat) {
    exists k: nat :: k > 0 && Above(nodes, a, n, k)
  }

  lemma ProperAncestorIsProperPrefix(nodes: Nodes, a: nat, n: nat, q: Path, p: Path)
    requires TreeOk(nodes) && At(nodes, q, a) && At(nodes, p, n)
    ensures ProperAncestor(nodes, a, n) <==> q < p
  {
    if ProperAncestor(nodes, a, n) {
      var k: nat :| k > 0 && Above(nodes, a, n, k);
      AboveIsPrefix(nodes, a, n, k, p);
      PathUnique(nodes, q, p[..|p| - k], a);
    }
    if q < p {
      AboveIsPrefix(nodes, a, n, |p| - |q|, p);
      assert p[..|p| - (|p| - |q|)] == q;
    }
  }

  /** `is_ancestor_or_self`'s walk. */
  function AncestorWalk(nodes: Nodes, ancestor: nat, n: nat, fuel: nat): Outcome<bool>
    decreases fuel
  {
    if fuel == 0 then Err(Corrupt)
    else if n == ancestor then Ok(true)
    else if n !in nodes then Err(NotFound)
    else match nodes[n].parent
      case None => Ok(false)
      case Some(p) => AncestorWalk(nodes, ancestor, p, fuel - 1)
  }

  ghost predicate AboveWithin(nodes: Nodes, a: nat, n: nat, fuel: nat) {
    exists k: nat :: k < fuel && Above(nodes, a, n, k)
  }

  lemma {:induction false} AncestorWalkFinds(nodes: Nodes, a: nat, n: nat, fuel: nat, k: nat)
    requires Above(nodes, a, n, k)
    ensures k < fuel ==> AncestorWalk(nodes, a, n, fuel) == Ok(true)
    ensures AncestorWalk(nodes, a, n, fuel) != Ok(false)
    decreases fuel
  {
    if fuel > 0 && n != a {
      AncestorWalkFinds(nodes, a, nodes[n].parent.value, fuel - 1, k - 1);
    }
  }

  lemma {:induction false} AncestorWalkFound(nodes: Nodes, a: nat, n: nat, fuel: nat) returns (k: nat)
    requires AncestorWalk(nodes, a, n, fuel) == Ok(true)
    ensures k < fuel && Above(nodes, a, n, k)
    decreases fuel
  {
    k := 0;
    if n != a {
      k := AncestorWalkFound(nodes, a, nodes[n].parent.value, fuel - 1);
      k := k + 1;
    }
  }

  /** On any table at all, cyclic ones included, "yes" means exactly that there is an
      ancestor within the limit, and "no" is said only when there is none. */
  lemma AncestorWalkIsSound(nodes: Nodes, a: nat, n: nat, fuel: nat)
    ensures AncestorWalk(nodes, a, n, fuel) == Ok(true) <==> AboveWithin(nodes, a, n, fuel)
    ensures AncestorWalk(nodes, a, n, fuel) == Ok(false) ==> forall k: nat :: !Above(nodes, a, n, k)
  {
    forall k: nat | Above(nodes, a, n, k)
      ensures k < fuel ==> AncestorWalk(nodes, a, n, fuel) == Ok(true)
      ensures AncestorWalk(nodes, a, n, fuel) != Ok(false)
    {
      AncestorWalkFinds(nodes, a, n, fuel, k);
    }
    if AncestorWalk(nodes, a, n, fuel) == Ok(true) {
      var k := AncestorWalkFound(nodes, a, n, fuel);
      assert Above(nodes, a, n, k);
    }
  }

  /** On a tree the answer is the prefix order on paths, within the walk limit. */
  lemma {:induction false} AncestorWalkOnTree(nodes: Nodes, a: nat, n: nat, fuel: nat, q: Path, p: Path)
    requires TreeOk(nodes) && At(nodes, q, a) && At(nodes, p, n)
    ensures AncestorWalk(nodes, a, n, fuel) ==
            if q <= p && |p| - |q| < fuel then Ok(true)
            else if !(q <= p) && |p| < fuel then Ok(false)
            else Err(Corrupt)
    decreases fuel
  {
    if fuel > 0 {
      if n == a {
        PathUnique(nodes, p, q, a);
      } else {
        if p == q {
          NodeUnique(nodes, p, a, n);
        }
        if p != [] {
          AncestorWalkOnTree(nodes, a, nodes[n].parent.value, fuel - 1, q, Init(p));
        }
      }
    }
  }

  // ---- How the statements change the paths ----

  /** Adding a node under a collection adds that one path. */
  lemma {:induction false} InsertedPaths(nodes: Nodes, id: nat, node: Node, d: Path, p: Path, n: nat)
    requires id !in nodes && node.parent.Some? && At(nodes, d, node.parent.value)
    requires ParentsExist(nodes)
    ensures At(nodes[id := node], p, n) <==> At(nodes, p, n) || (n == id && p == d + [node.name])
    decreases |p|
  {
    var after := nodes[id := node];
    if p != [] {
      if n == id {
        if Init(p) == d {
          assert p == d + [Last(p)];
        }
        InsertedPaths(nodes, id, node, d, Init(p), node.parent.value);
        if At(after, p, n) {
          PathUnique(nodes, d, Init(p), node.parent.value);
        }
      } else if n in nodes && nodes[n].parent.Some? {
        InsertedPaths(nodes, id, node, d, Init(p), nodes[n].parent.value);
      }
    }
    if p == d + [node.name] {
      assert Init(p) == d;
    }
  }

  lemma InsertKeepsTree(nodes: Nodes, id: nat, node: Node, d: Path)
    requires TreeOk(nodes) && id !in nodes
    requires node.parent.Some? && At(nodes, d, node.parent.value) && nodes[node.parent.value].isDir
    requires NameOk(node.name) && forall c :: !IsChild(nodes, node.parent.value, node.name, c)
    ensures TreeOk(nodes[id := node])
  {
    var after := nodes[id := node];
    assert ParentsExist(nodes) by {
      forall n | n in nodes && nodes[n].parent.Some? ensures nodes[n].parent.value in nodes {
        assert LinkOk(nodes, n);
      }
    }
    forall n | n in after ensures LinkOk(after, n) && Rooted(after, n) {
      if n == id {
        InsertedPaths(nodes, id, node, d, d + [node.name], id);
      } else {
        assert LinkOk(nodes, n);
        InsertedPaths(nodes, id, node, d, PathOf(nodes, n), n);
      }
    }
    forall p: nat, x, a: nat, b: nat | IsChild(after, p, x, a) && IsChild(after, p, x, b) ensures a == b {
      assert a != id ==> IsChild(nodes, p, x, a);
      assert b != id ==> IsChild(nodes, p, x, b);
    }
  }

  /** Removing a childless node removes that one path. */
  lemma {:induction false} RemovedPaths(nodes: Nodes, id: nat, p: Path, n: nat)
    requires !HasChildren(nodes, id)
    ensures At(nodes - {id}, p, n) <==> At(nodes, p, n) && n != id
    decreases |p|
  {
    if p != [] && n in nodes && nodes[n].parent.Some? {
      RemovedPaths(nodes, id, Init(p), nodes[n].parent.value);
    }
  }

  lemma RemoveKeepsTree(nodes: Nodes, id: nat)
    requires TreeOk(nodes) && id != ROOT_ID && !HasChildren(nodes, id)
    ensures TreeOk(nodes - {id})
  {
    var after := nodes - {id};
    forall n | n in after ensures LinkOk(after, n) && Rooted(after, n) {
      assert LinkOk(nodes, n);
      RemovedPaths(nodes, id, PathOf(nodes, n), n);
    }
    forall p: nat, x, a: nat, b: nat | IsChild(after, p, x, a) && IsChild(after, p, x, b) ensures a == b {
      assert IsChild(nodes, p, x, a) && IsChild(nodes, p, x, b);
    }
  }

  /** Prefix substitution. */
  function Moved(from: Path, to: Path, p: Path): Path {
    if from <= p then to + p[|from|..] else p
  }

  function Move(nodes: Nodes, src: nat, parent: nat, name: seq<byte>): Nodes
    requires src in nodes
  {
    nodes[src := nodes[src].(parent := Some(parent), name := name)]
  }

  lemma {:induction false} OutsidePathsStay(nodes: Nodes, src: nat, parent: nat, name: seq<byte>, s: Path,
                                            p: Path, n: nat)
    requires At(nodes, s, src) && At(nodes, p, n) && !(s <= p)
    ensures At(Move(nodes, src, parent, name), p, n)
    decreases |p|
  {
    if n == src {
      PathUnique(nodes, s, p, n);
    } else if p != [] {
      OutsidePathsStay(nodes, src, parent, name, s, Init(p), nodes[n].parent.value);
    }
  }

  /** Moving a node under a collection outside its own subtree substitutes the prefix in
      the path of every node. */
  lemma {:induction false} MovedPaths(nodes: Nodes, src: nat, parent: nat, name: seq<byte>, s: Path, d: Path,
                                      p: Path, n: nat)
    requires TreeOk(nodes)
    requires At(nodes, s, src) && At(nodes, d, parent) && !(s <= d) && At(nodes, p, n)
    ensures At(Move(nodes, src, parent, name), Moved(s, d + [name], p), n)
    decreases |p|
  {
    if !(s <= p) {
      OutsidePathsStay(nodes, src, parent, name, s, p, n);
    } else if n == src {
      PathUnique(nodes, s, p, n);
      OutsidePathsStay(nodes, src, parent, name, s, d, parent);
      assert Moved(s, d + [name], p) == d + [name];
      assert Init(d + [name]) == d;
    } else {
      if p == s {
        NodeUnique(nodes, p, n, src);
      }
      MovedPaths(nodes, src, parent, name, s, d, Init(p), nodes[n].parent.value);
      MovedSnoc(s, d + [name], p);
    }
  }

  lemma MovedSnoc(from: Path, to: Path, p: Path)
    requires from <= p && from != p
    ensures var q := Moved(from, to, p);
      q != [] && Init(q) == Moved(from, to, Init(p)) && Last(q) == Last(p)
  {
    assert from <= Init(p);
  }

  lemma MoveKeepsTree(nodes: Nodes, src: nat, parent: nat, name: seq<byte>, s: Path, d: Path)
    requires TreeOk(nodes)
    requires At(nodes, s, src) && s != [] && At(nodes, d, parent) && !(s <= d) && nodes[parent].isDir
    requires NameOk(name) && forall c :: IsChild(nodes, parent, name, c) ==> c == src
    ensures TreeOk(Move(nodes, src, parent, name))
  {
    var after := Move(nodes, src, parent, name);
    assert LinkOk(nodes, src);
    forall n | n in after ensures LinkOk(after, n) && Rooted(after, n) {
      assert LinkOk(nodes, n);
      MovedPaths(nodes, src, parent, name, s, d, PathOf(nodes, n), n);
    }
    forall p: nat, x, a: nat, b: nat | IsChild(after, p, x, a) && IsChild(after, p, x, b) ensures a == b {
      assert a != src ==> IsChild(nodes, p, x, a);
      assert b != src ==> IsChild(nodes, p, x, b);
    }
  }

  /** The namespace after a move is the old one with the prefix substituted, no more and no
      less. */
  lemma MoveIsSubstitution(nodes: Nodes, src: nat, parent: nat, name: seq<byte>, s: Path, d: Path, q: Path, n: nat)
    requires TreeOk(nodes)
    requires At(nodes, s, src) && s != [] && At(nodes, d, parent) && !(s <= d)
    ensures At(Move(nodes, src, parent, name), q, n) <==>
            n in nodes && q == Moved(s, d + [name], PathOf(nodes, n))
  {
    var after := Move(nodes, src, parent, name);
    if n in nodes {
      var p := PathOf(nodes, n);
      MovedPaths(nodes, src, parent, name, s, d, p, n);
      if At(after, q, n) {
        PathUnique(after, q, Moved(s, d + [name], p), n);
      }
    }
  }

  /** Changing rows without touching parents, names or kinds changes no path. */
  lemma {:induction false} SameLinksSamePaths(nodes: Nodes, after: Nodes, p: Path, n: nat)
    requires SameLinks(nodes, after) && At(nodes, p, n)
    ensures At(after, p, n)
    decreases |p|
  {
    if p != [] {
      SameLinksSamePaths(nodes, after, Init(p), nodes[n].parent.value);
    }
  }

  ghost predicate SameLinks(nodes: Nodes, after: Nodes) {
    && nodes.Keys == after.Keys
    && forall n :: n in nodes ==>
         after[n].parent == nodes[n].parent && after[n].name == nodes[n].name && after[n].isDir == nodes[n].isDir
  }

  lemma SameLinksKeepTree(nodes: Nodes, after: Nodes)
    requires TreeOk(nodes) && SameLinks(nodes, after)
    ensures TreeOk(after)
  {
    forall n | n in after ensures LinkOk(after, n) && Rooted(after, n) {
      assert LinkOk(nodes, n);
      SameLinksSamePaths(nodes, after, PathOf(nodes, n), n);
    }
    forall p: nat, x, a: nat, b: nat | IsChild(after, p, x, a) && IsChild(after, p, x, b) ensures a == b {
      assert IsChild(nodes, p, x, a) && IsChild(nodes, p, x, b);
    }
  }

  lemma SameLinksResolve(nodes: Nodes, after: Nodes, path: Path, id: nat)
    requires TreeOk(nodes) && SameLinks(nodes, after) && Resolve(nodes, path) == Some(id)
    ensures Resolve(after, path) == Some(id)
  {
    ResolveIffAt(nodes, path, id);
    SameLinksSamePaths(nodes, after, path, id);
    SameLinksKeepTree(nodes, after);
    ResolveIffAt(after, path, id);
  }

  // ---- Deleting a subtree ----

  ghost predicate Below(nodes: Nodes, n: nat, id: nat) {
    exists k: nat :: Above(nodes, id, n, k)
  }

  lemma {:induction false} CascadeStaysBelow(nodes: Nodes, doomed: set<nat>, id: nat)
    requires doomed <= nodes.Keys && forall n :: n in doomed ==> Below(nodes, n, id)
    ensures forall n :: n in Cascade(nodes, doomed) ==> Below(nodes, n, id)
    decreases nodes.Keys - doomed
  {
    var more := NewChildren(nodes, doomed);
    if more != {} {
      forall n | n in more ensures Below(nodes, n, id) {
        var k: nat :| Above(nodes, id, nodes[n].parent.value, k);
        assert Above(nodes, id, n, k + 1);
      }
      CascadeStaysBelow(nodes, doomed + more, id);
    }
  }

  lemma {:induction false} CascadeReachesBelow(nodes: Nodes, doomed: set<nat>, n: nat, id: nat, k: nat)
    requires doomed <= nodes.Keys && id in doomed && n in nodes && Above(nodes, id, n, k)
    ensures n in Cascade(nodes, doomed)
    decreases k
  {
    if k > 0 {
      CascadeReachesBelow(nodes, doomed, nodes[n].parent.value, id, k - 1);
    }
  }

  /** Deleting a node deletes it and what is below it, and nothing else. */
  lemma CascadeIsSubtree(nodes: Nodes, id: nat, n: nat)
    requires id in nodes
    ensures n in Cascade(nodes, {id}) <==> n in nodes && Below(nodes, n, id)
  {
    assert Above(nodes, id, id, 0);
    CascadeStaysBelow(nodes, {id}, id);
    if n in nodes && Below(nodes, n, id) {
      var k: nat :| Above(nodes, id, n, k);
      CascadeReachesBelow(nodes, {id}, n, id, k);
    }
  }

  /** For the tables: the nodes outside the subtree keep their rows and versions. */
  lemma DeleteRemovesSubtree(t: Tables, id: nat, n: nat, v: nat)
    requires id in t.nodes && OwnersExist(t)
    ensures var u := Delete(t, id);
      && (n in u.nodes <==> n in t.nodes && !Below(t.nodes, n, id))
      && (n in u.nodes ==> u.nodes[n] == t.nodes[n])
      && (v in u.versions <==> v in t.versions && !Below(t.nodes, t.versions[v].node, id))
      && (v in u.versions ==> u.versions[v] == t.versions[v] && ManifestAt(u, v) == ManifestAt(t, v))
  {
    CascadeIsSubtree(t.nodes, id, n);
    if v in t.versions {
      CascadeIsSubtree(t.nodes, id, t.versions[v].node);
    }
  }
}
