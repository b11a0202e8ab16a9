// Clients check a statement's place in the namespace in one step and issue the statement in
// another (vfs crate, davfs.rs). Which interleavings leave the namespace a tree, and two ways
// in which the checks of a rename go stale: two renames that both check before either
// updates, and a destination whose id is given out again.
module RenameRaces {
  import opened Base
  import opened Paths
  import opened MetaTables
  import opened Namespace
  import opened VersionHistory
  import Fs = FsModel
  import opened RevertRaces

  /** Walking up from below the moved node leads to the moved node. */
  lemma {:induction false} PathsGoThrough(nodes: Nodes, src: nat, parent: nat, name: seq<byte>, s: Path,
                                          p: Path, q: Path, n: nat)
    requires TreeOk(nodes) && At(nodes, s, src) && s != [] && At(nodes, p, n) && s <= p
    requires At(Move(nodes, src, parent, name), q, n)
    ensures |p| - |s| <= |q| && At(Move(nodes, src, parent, name), q[..|q| - (|p| - |s|)], src)
    decreases |p|
  {
    if n == src {
      PathUnique(nodes, s, p, n);
      assert q[..|q|] == q;
    } else {
      if p == s {
        NodeUnique(nodes, p, n, src);
      }
      PathsGoThrough(nodes, src, parent, name, s, Init(p), Init(q), nodes[n].parent.value);
      assert Init(q)[..|q| - (|p| - |s|)] == q[..|q| - (|p| - |s|)];
    }
  }

  lemma MovedIntoItselfHasNoPath(nodes: Nodes, src: nat, parent: nat, name: seq<byte>, s: Path, d: Path, q: Path)
    requires TreeOk(nodes) && At(nodes, s, src) && s != [] && At(nodes, d, parent) && s <= d
    ensures !At(Move(nodes, src, parent, name), q, src)
  {
    var after := Move(nodes, src, parent, name);
    if At(after, q, src) {
      PathsGoThrough(nodes, src, parent, name, s, d, Init(q), parent);
      PathUnique(after, q, Init(q)[..|q| - 1 - (|d| - |s|)], src);
    }
  }

  /** Relinking a node keeps the namespace a tree if and only if, at that moment, the
      destination is a collection and is not the node itself or below it. */
  lemma MoveKeepsTreeIff(nodes: Nodes, src: nat, parent: nat, name: seq<byte>, s: Path, d: Path)
    requires TreeOk(nodes) && At(nodes, s, src) && s != [] && At(nodes, d, parent)
    requires NameOk(name) && forall c :: IsChild(nodes, parent, name, c) ==> c == src
    ensures TreeOk(Move(nodes, src, parent, name)) <==> !(s <= d) && nodes[parent].isDir
  {
    var after := Move(nodes, src, parent, name);
    if s <= d {
      forall q ensures !At(after, q, src) {
        MovedIntoItselfHasNoPath(nodes, src, parent, name, s, d, q);
      }
      assert !Rooted(after, src);
    } else if nodes[parent].isDir {
      MoveKeepsTree(nodes, src, parent, name, s, d);
    } else {
      assert !LinkOk(after, src);
    }
  }

  // ---- Runs of statements from any clients ----

  /** What a statement that is carried out must observe at that moment. The clients check it
      before they issue the statement, but other statements may come in between. */
  ghost predicate Harmless(t: Tables, op: MetaOp) {
    match op
    case InsertOp(parent, name, isDir) =>
      Insert(t, parent, name, isDir).1.Ok? ==> NameOk(name) && t.nodes[parent].isDir
    case RenameOp(id, parent, name) =>
      Rename(t, id, parent, name).1.Ok? ==>
        id != ROOT_ID && NameOk(name) && t.nodes[parent].isDir && !Below(t.nodes, parent, id)
    case DeleteOp(id) => id != ROOT_ID
    case DeleteIfEmptyOp(id) => id == ROOT_ID ==> HasChildren(t.nodes, id)
    case _ => true
  }

  lemma InsertTreeIff(t: Tables, parent: nat, name: seq<byte>, isDir: bool)
    requires TreeOk(t.nodes) && Insert(t, parent, name, isDir).1.Ok?
    ensures TreeOk(InsertNode(t, parent, name, isDir).nodes) <==> NameOk(name) && t.nodes[parent].isDir
  {
    var id, node := NextId(t.nodes.Keys), Node(Some(parent), name, isDir, 0, None);
    if NameOk(name) && t.nodes[parent].isDir {
      InsertKeepsTree(t.nodes, id, node, PathOf(t.nodes, parent));
    } else {
      assert !LinkOk(t.nodes[id := node], id);
    }
  }

  lemma RenameTreeIff(t: Tables, id: nat, parent: nat, name: seq<byte>)
    requires TreeOk(t.nodes) && Rename(t, id, parent, name).1.Ok?
    ensures TreeOk(Relink(t, id, parent, name).nodes) <==>
            id != ROOT_ID && NameOk(name) && t.nodes[parent].isDir && !Below(t.nodes, parent, id)
  {
    var nodes, after := t.nodes, Relink(t, id, parent, name).nodes;
    if id == ROOT_ID || !NameOk(name) {
      assert !LinkOk(after, id);
    } else {
      var s, d := PathOf(nodes, id), PathOf(nodes, parent);
      assert LinkOk(nodes, id);
      BelowIsPrefix(nodes, parent, id, d, s);
      MoveKeepsTreeIff(nodes, id, parent, name, s, d);
    }
  }

  /** Being a node or below it is extending its path. */
  lemma BelowIsPrefix(nodes: Nodes, n: nat, id: nat, p: Path, s: Path)
    requires TreeOk(nodes) && At(nodes, p, n) && At(nodes, s, id)
    ensures Below(nodes, n, id) <==> s <= p
  {
    if Below(nodes, n, id) {
      var k: nat :| Above(nodes, id, n, k);
      AboveIsPrefix(nodes, id, n, k, p);
      PathUnique(nodes, s, p[..|p| - k], id);
    }
    if s <= p {
      AboveIsPrefix(nodes, id, n, |p| - |s|, p);
      assert p[..|p| - (|p| - |s|)] == s;
    }
  }

  /** Nodes outside a deleted subtree keep their paths. */
  lemma {:induction false} DeletedPaths(nodes: Nodes, id: nat, p: Path, n: nat)
    requires id in nodes && At(nodes, p, n) && n !in Cascade(nodes, {id})
    ensures At(nodes - Cascade(nodes, {id}), p, n)
    decreases |p|
  {
    if p != [] {
      DeletedPaths(nodes, id, Init(p), nodes[n].parent.value);
    }
  }

  lemma DeleteTreeIff(t: Tables, id: nat)
    requires TreeOk(t.nodes) && id in t.nodes
    ensures TreeOk(Delete(t, id).nodes) <==> id != ROOT_ID
  {
    var nodes, after := t.nodes, Delete(t, id).nodes;
    if id != ROOT_ID {
      RootIsNotBelow(nodes, id);
      CascadeIsSubtree(nodes, id, ROOT_ID);
      forall n | n in after ensures LinkOk(after, n) && Rooted(after, n) {
        assert LinkOk(nodes, n);
        DeletedPaths(nodes, id, PathOf(nodes, n), n);
      }
      forall p: nat, x, a: nat, b: nat | IsChild(after, p, x, a) && IsChild(after, p, x, b) ensures a == b {
        assert IsChild(nodes, p, x, a) && IsChild(nodes, p, x, b);
      }
    }
  }

  lemma RootIsNotBelow(nodes: Nodes, id: nat)
    requires TreeOk(nodes) && id in nodes && id != ROOT_ID
    ensures !Below(nodes, ROOT_ID, id)
  {
    assert LinkOk(nodes, ROOT_ID) && LinkOk(nodes, id);
    BelowIsPrefix(nodes, ROOT_ID, id, [], PathOf(nodes, id));
  }

  lemma LinkingStepTreeIff(t: Tables, op: MetaOp)
    requires TreeOk(t.nodes) && (op.InsertOp? || op.RenameOp?)
    ensures TreeOk(Apply(t, op).nodes) <==> Harmless(t, op)
  {
    match op
    case InsertOp(parent, name, isDir) =>
      if Insert(t, parent, name, isDir).1.Ok? {
        InsertTreeIff(t, parent, name, isDir);
      }
    case RenameOp(id, parent, name) =>
      if Rename(t, id, parent, name).1.Ok? {
        RenameTreeIff(t, id, parent, name);
      }
  }

  lemma DeletingStepTreeIff(t: Tables, op: MetaOp)
    requires TreeOk(t.nodes) && (op.DeleteOp? || op.DeleteIfEmptyOp?)
    ensures TreeOk(Apply(t, op).nodes) <==> Harmless(t, op)
  {
    if op.id in t.nodes {
      DeleteTreeIff(t, op.id);
    }
  }

  /** One statement keeps the namespace a tree if and only if it is harmless then. */
  lemma StepTreeIff(t: Tables, op: MetaOp)
    requires TreeOk(t.nodes)
    ensures TreeOk(Apply(t, op).nodes) <==> Harmless(t, op)
  {
    match op
    case InsertOp(_, _, _) => LinkingStepTreeIff(t, op);
    case RenameOp(_, _, _) => LinkingStepTreeIff(t, op);
    case DeleteOp(_) => DeletingStepTreeIff(t, op);
    case DeleteIfEmptyOp(_) => DeletingStepTreeIff(t, op);
    case WriteOp(id, m) => SameLinksKeepTree(t.nodes, SetContent(t, id, m).0.nodes);
    case PruneOp(_, _) =>
  }

  ghost predicate AllHarmless(t: Tables, ops: seq<MetaOp>) {
    forall i :: 0 <= i < |ops| ==> Harmless(Run(t, ops[..i]), ops[i])
  }

  ghost predicate AlwaysTree(t: Tables, ops: seq<MetaOp>) {
    forall i :: 0 <= i <= |ops| ==> TreeOk(Run(t, ops[..i]).nodes)
  }

  lemma PrefixesOfInit(ops: seq<MetaOp>)
    requires ops != []
    ensures forall i :: 0 <= i <= |Init(ops)| ==> Init(ops)[..i] == ops[..i]
    ensures ops[..|ops|] == ops && ops[..|ops| - 1] == Init(ops)
  {
  }

  /** Exactly when interleaved clients leave the namespace a tree. Whatever statements of any
      clients run in whatever order, it is one tree at every moment if and only if every
      statement that is carried out is harmless when it is. */
  lemma {:induction false} AlwaysTreeIff(t: Tables, ops: seq<MetaOp>)
    requires TreeOk(t.nodes)
    ensures AlwaysTree(t, ops) <==> AllHarmless(t, ops)
  {
    if ops == [] {
      assert forall i :: 0 <= i <= |ops| ==> ops[..i] == [];
    } else {
      PrefixesOfInit(ops);
      AlwaysTreeIff(t, Init(ops));
      AlwaysTreeSnoc(t, ops);
      AllHarmlessSnoc(t, ops);
      if AlwaysTree(t, Init(ops)) {
        assert TreeOk(Run(t, Init(ops)[..|Init(ops)|]).nodes);
        StepTreeIff(Run(t, Init(ops)), Last(ops));
      }
    }
  }

  lemma AlwaysTreeSnoc(t: Tables, ops: seq<MetaOp>)
    requires ops != []
    ensures AlwaysTree(t, ops) <==> AlwaysTree(t, Init(ops)) && TreeOk(Run(t, ops).nodes)
  {
    PrefixesOfInit(ops);
    if AlwaysTree(t, ops) {
      assert forall i :: 0 <= i <= |Init(ops)| ==> TreeOk(Run(t, Init(ops)[..i]).nodes);
      assert TreeOk(Run(t, ops[..|ops|]).nodes);
    }
    if AlwaysTree(t, Init(ops)) && TreeOk(Run(t, ops).nodes) {
      forall i | 0 <= i <= |ops| ensures TreeOk(Run(t, ops[..i]).nodes) {
        if i < |ops| {
          assert ops[..i] == Init(ops)[..i];
        }
      }
    }
  }

  lemma AllHarmlessSnoc(t: Tables, ops: seq<MetaOp>)
    requires ops != []
    ensures AllHarmless(t, ops) <==> AllHarmless(t, Init(ops)) && Harmless(Run(t, Init(ops)), Last(ops))
  {
    PrefixesOfInit(ops);
    if AllHarmless(t, ops) {
      forall i | 0 <= i < |Init(ops)| ensures Harmless(Run(t, Init(ops)[..i]), Init(ops)[i]) {
        assert Harmless(Run(t, ops[..i]), ops[i]);
      }
      assert Harmless(Run(t, ops[..|ops| - 1]), ops[|ops| - 1]);
    }
    if AllHarmless(t, Init(ops)) && Harmless(Run(t, Init(ops)), Last(ops)) {
      forall i | 0 <= i < |ops| ensures Harmless(Run(t, ops[..i]), ops[i]) {
        if i < |ops| - 1 {
          assert Harmless(Run(t, Init(ops)[..i]), Init(ops)[i]);
        }
      }
    }
  }

  // ---- Two ways in which a check goes stale ----

  lemma {:induction false} NoPathInCycle(nodes: Nodes, a: nat, b: nat, q: Path)
    requires a in nodes && b in nodes && nodes[a].parent == Some(b) && nodes[b].parent == Some(a)
    ensures !At(nodes, q, a) && !At(nodes, q, b)
    decreases |q|
  {
    if q != [] {
      NoPathInCycle(nodes, a, b, Init(q));
    }
  }

  /** Two clients move two collections, neither inside the other, each into the other, under
      names that are free there. Both checks pass on the namespace they see, and the metadata
      store accepts both updates; once both have run, neither collection can be reached from
      the root any more. Had the second check run after the first update, it would have
      refused. */
  lemma RacingRenamesMakeCycle(t: Tables, a: nat, b: nat, nameA: seq<byte>, nameB: seq<byte>, p: Path, q: Path)
    requires TreeOk(t.nodes) && At(t.nodes, p, a) && At(t.nodes, q, b) && t.nodes[a].isDir && t.nodes[b].isDir
    requires !(p <= q) && !(q <= p) && |p| < WALK_LIMIT && |q| < WALK_LIMIT
    requires forall c :: !IsChild(t.nodes, b, nameA, c)
    requires forall c :: !IsChild(t.nodes, a, nameB, c)
    ensures Fs.IntoItself(t.nodes, a, b) == Ok(false) && Fs.IntoItself(t.nodes, b, a) == Ok(false)
    ensures var (first, r1) := Rename(t, a, b, nameA);
      var (both, r2) := Rename(first, b, a, nameB);
      && r1 == Ok(()) && r2 == Ok(())
      && Fs.IntoItself(first.nodes, b, a) == Ok(true)
      && a in both.nodes && b in both.nodes && !Rooted(both.nodes, a) && !Rooted(both.nodes, b)
  {
    AncestorWalkOnTree(t.nodes, a, b, WALK_LIMIT, p, q);
    AncestorWalkOnTree(t.nodes, b, a, WALK_LIMIT, q, p);
    assert a != b by {
      if a == b {
        PathUnique(t.nodes, p, q, a);
      }
    }
    BothRenamesAccepted(t, a, b, nameA, nameB);
    var first := Relink(t, a, b, nameA).nodes;
    assert AncestorWalk(first, b, a, WALK_LIMIT) == AncestorWalk(first, b, b, WALK_LIMIT - 1) == Ok(true);
    var both := Relink(Relink(t, a, b, nameA), b, a, nameB).nodes;
    forall path ensures !At(both, path, a) && !At(both, path, b) {
      NoPathInCycle(both, a, b, path);
    }
  }

  lemma BothRenamesAccepted(t: Tables, a: nat, b: nat, nameA: seq<byte>, nameB: seq<byte>)
    requires a in t.nodes && b in t.nodes && a != b
    requires forall c :: !IsChild(t.nodes, b, nameA, c)
    requires forall c :: !IsChild(t.nodes, a, nameB, c)
    ensures var first := Relink(t, a, b, nameA);
      && Rename(t, a, b, nameA) == (first, Ok(()))
      && Rename(first, b, a, nameB) == (Relink(first, b, a, nameB), Ok(()))
  {
    var first := Relink(t, a, b, nameA);
    forall c ensures !IsChild(first.nodes, a, nameB, c) {
      assert IsChild(first.nodes, a, nameB, c) ==> IsChild(t.nodes, a, nameB, c);
    }
  }

  const D: seq<byte> := [100]

  /** A file `b` and an empty collection `d`. */
  const FILE_AND_COLLECTION :=
    Tables(map[1 := ROOT_NODE, 2 := UNWRITTEN_B, 3 := Node(Some(ROOT_ID), D, true, 0, None)], map[], map[])

  /** Deletes the collection, creates a file `c`, and only then carries out the rename. */
  const STALE_RENAME: seq<MetaOp> := [DeleteIfEmptyOp(3), InsertOp(ROOT_ID, C, false), RenameOp(2, 3, B)]

  lemma InsertsD()
    ensures Run(FRESH_TABLES, [InsertOp(ROOT_ID, B, false), InsertOp(ROOT_ID, D, true)]) == FILE_AND_COLLECTION
  {
    var ops := [InsertOp(ROOT_ID, B, false), InsertOp(ROOT_ID, D, true)];
    InsertsBAndC();
    NextOf(EMPTY_B.nodes.Keys, 2);
    assert B[0] != D[0];
    assert Run(FRESH_TABLES, ops[..0]) == FRESH_TABLES;
    assert Init(ops[..1]) == ops[..0] && Run(FRESH_TABLES, ops[..1]) == EMPTY_B;
    assert Init(ops) == ops[..1];
  }

  lemma ReusesD()
    ensures Run(FILE_AND_COLLECTION, STALE_RENAME[..2]) == EMPTY_B_AND_C
  {
    var t, ops := FILE_AND_COLLECTION, STALE_RENAME;
    assert !HasChildren(t.nodes, 3);
    CascadeOfLeaf(t.nodes, 3);
    InsertsBAndC();
    assert Run(t, ops[..0]) == t;
    assert Init(ops[..1]) == ops[..0] && Run(t, ops[..1]) == EMPTY_B;
    assert Init(ops[..2]) == ops[..1];
  }

  lemma TargetOf(nodes: Nodes, path: Path, parent: nat)
    requires NamesOk(path) && path != [] && Resolve(nodes, Init(path)) == Some(parent)
    requires parent in nodes && nodes[parent].isDir
    ensures Fs.Target(nodes, PathBytes(path)) == Ok((parent, Last(path)))
  {
    SegmentsInvertPathBytes(path);
  }

  lemma FindsD()
    ensures Resolve(FILE_AND_COLLECTION.nodes, Init([D, B])) == Some(3)
    ensures Child(FILE_AND_COLLECTION.nodes, 3, B) == None
  {
    var nodes := FILE_AND_COLLECTION.nodes;
    assert Init([D, B]) == [D] && Init([D]) == [];
    assert Resolve(nodes, []) == Some(1);
    assert IsChild(nodes, 1, D, 3) && B[0] != D[0];
  }

  /** What a rename of `/b` to `/d/b` checks. */
  lemma ChecksPass()
    ensures Fs.Target(FILE_AND_COLLECTION.nodes, PathBytes([D, B])) == Ok((3, B))
    ensures Fs.IntoItself(FILE_AND_COLLECTION.nodes, 2, 3) == Ok(false)
    ensures Child(FILE_AND_COLLECTION.nodes, 3, B) == None
  {
    FindsD();
    var path: Path := [D, B];
    assert NamesOk(path) && Last(path) == B;
    TargetOf(FILE_AND_COLLECTION.nodes, path, 3);
  }

  /** All checks of a rename of `/b` to `/d/b` pass; then `d` is deleted and its id given to a
      new file `c`. The metadata store accepts the update, although nothing is moved into
      itself, and `b` becomes a child of a file. */
  lemma RenameIntoReusedId()
    ensures var t := Run(FRESH_TABLES, [InsertOp(ROOT_ID, B, false), InsertOp(ROOT_ID, D, true)]);
      var u := Run(t, STALE_RENAME[..2]);
      && Fs.Target(t.nodes, PathBytes([D, B])) == Ok((3, B))
      && Fs.IntoItself(t.nodes, 2, 3) == Ok(false) && Child(t.nodes, 3, B) == None
      && Fs.IntoItself(u.nodes, 2, 3) == Ok(false)
      && Rename(u, 2, 3, B).1 == Ok(()) && !Harmless(u, RenameOp(2, 3, B))
      && !TreeOk(Apply(u, RenameOp(2, 3, B)).nodes)
  {
    InsertsD();
    ReusesD();
    ChecksPass();
    StaleUpdate();
  }

  lemma StaleUpdate()
    ensures Fs.IntoItself(EMPTY_B_AND_C.nodes, 2, 3) == Ok(false)
    ensures Rename(EMPTY_B_AND_C, 2, 3, B).1 == Ok(()) && !Harmless(EMPTY_B_AND_C, RenameOp(2, 3, B))
    ensures !TreeOk(Apply(EMPTY_B_AND_C, RenameOp(2, 3, B)).nodes)
  {
    var u := EMPTY_B_AND_C;
    assert Rename(u, 2, 3, B) == (Relink(u, 2, 3, B), Ok(()));
    assert !LinkOk(Relink(u, 2, 3, B).nodes, 2);
  }
}
