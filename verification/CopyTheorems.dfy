// What copying and reverting do to content (vfs crate, davfs.rs).
module CopyTheorems {
  import opened Base
  import opened Manifests
  import opened Paths
  import opened MetaTables
  import opened Namespace
  import opened VersionHistory
  import opened References
  import opened FsModel
  import opened FsTheorems
  import opened Files

  lemma ReferenceCommits(f: Fs, id: nat, m: Manifest)
    requires StoresOk(f) && Stored(m) && id in f.tables.nodes
    ensures var (g, r) := Reference(f, id, Ok(m));
      && r.Ok? && CurrentManifest(g.tables, id) == Ok(m)
      && SameLinks(f.tables.nodes, g.tables.nodes)
      && forall other :: other in f.tables.nodes && other != id ==>
           && g.tables.nodes[other] == f.tables.nodes[other]
           && CurrentManifest(g.tables, other) == CurrentManifest(f.tables, other)
  {
    SetContentCommits(f.tables, id, m);
    SetContentLinks(f.tables, id, m);
    ReindexKeepsRest(f.(tables := SetContent(f.tables, id, m).0), id);
  }

  // ---- Copying ----

  /** The node a copy lands on: the one that has the name already, or a new one. */
  ghost function Landing(f: Fs, parent: nat, name: seq<byte>): nat {
    match Child(f.tables.nodes, parent, name)
    case Some(e) => e
    case None => NextId(f.tables.nodes.Keys)
  }

  /** From `f` to `g`, the node `dst` has the path `d`, of the kind of `src`; if that is a
      file it exposes what `src` exposed; no other path, row or content has changed. */
  ghost predicate Copied(f: Fs, g: Fs, src: nat, dst: nat, d: Path, q: Path, n: nat)
    requires src in f.tables.nodes
  {
    && At(g.tables.nodes, d, dst)
    && g.tables.nodes[dst].isDir == f.tables.nodes[src].isDir
    && (!f.tables.nodes[src].isDir ==>
          CurrentManifest(g.tables, dst) == CurrentManifest(g.tables, src) == CurrentManifest(f.tables, src))
    && (At(g.tables.nodes, q, n) <==> At(f.tables.nodes, q, n) || (n == dst && q == d))
    && (n in f.tables.nodes && n != dst ==>
          && n in g.tables.nodes && g.tables.nodes[n] == f.tables.nodes[n]
          && CurrentManifest(g.tables, n) == CurrentManifest(f.tables, n))
  }

  lemma SameLinksPathsIff(nodes: Nodes, after: Nodes, q: Path, n: nat)
    requires SameLinks(nodes, after)
    ensures At(after, q, n) <==> At(nodes, q, n)
  {
    if At(nodes, q, n) {
      SameLinksSamePaths(nodes, after, q, n);
    }
    if At(after, q, n) {
      SameLinksSamePaths(after, nodes, q, n);
    }
  }

  /** Taking over the content of `src` on a node that is there. */
  lemma ReferenceCopies(f: Fs, src: nat, dst: nat, d: Path, q: Path, n: nat)
    requires StoresOk(f) && src in f.tables.nodes && !f.tables.nodes[src].isDir
    requires At(f.tables.nodes, d, dst) && !f.tables.nodes[dst].isDir
    requires CurrentManifest(f.tables, src).Ok?
    ensures var (g, r) := Reference(f, dst, CurrentManifest(f.tables, src));
      r.Ok? && Copied(f, g, src, dst, d, q, n)
  {
    var m := CurrentManifest(f.tables, src).value;
    LoadedIsPresent(f, src);
    ReferenceCommits(f, dst, m);
    var g := Reference(f, dst, Ok(m)).0;
    SameLinksPathsIff(f.tables.nodes, g.tables.nodes, d, dst);
    SameLinksPathsIff(f.tables.nodes, g.tables.nodes, q, n);
  }

  lemma CurrentLoads(f: Fs, id: nat)
    requires StoresOk(f) && id in f.tables.nodes
    ensures CurrentManifest(f.tables, id).Ok?
  {
    assert CurrentOk(f.tables, id);
  }

  /** The node a copy creates, before it is given content. */
  function Inserted(f: Fs, parent: nat, name: seq<byte>, isDir: bool): Fs {
    f.(tables := InsertNode(f.tables, parent, name, isDir))
  }

  lemma InsertedIsOk(f: Fs, parent: nat, name: seq<byte>, isDir: bool, d: Path, q: Path, n: nat)
    requires StoresOk(f) && NameOk(name)
    requires At(f.tables.nodes, d, parent) && f.tables.nodes[parent].isDir && Child(f.tables.nodes, parent, name).None?
    ensures var g, id := Inserted(f, parent, name, isDir), NextId(f.tables.nodes.Keys);
      && StoresOk(g) && id !in f.tables.nodes
      && At(g.tables.nodes, d + [name], id) && g.tables.nodes[id] == Node(Some(parent), name, isDir, 0, None)
      && (At(g.tables.nodes, q, n) <==> At(f.tables.nodes, q, n) || (n == id && q == d + [name]))
  {
    InsertKeepsStores(f, parent, name, isDir, d);
    var t := InsertNode(f.tables, parent, name, isDir);
    InsertAddsOnePath(f.tables, parent, name, isDir, d, q, n, t);
    InsertAddsOnePath(f.tables, parent, name, isDir, d, d + [name], NextId(f.tables.nodes.Keys), t);
  }

  lemma CopyOntoNew(f: Fs, src: nat, parent: nat, name: seq<byte>)
    requires src in f.tables.nodes && parent in f.tables.nodes && Child(f.tables.nodes, parent, name).None?
    ensures var node, id := f.tables.nodes[src], NextId(f.tables.nodes.Keys);
      var h := Inserted(f, parent, name, node.isDir);
      CopyOnto(f, src, parent, name) ==
      if node.isDir || node.current.None? then (h, Ok(())) else Reference(h, id, CurrentManifest(h.tables, src))
  {
  }

  lemma InsertedContents(f: Fs, parent: nat, name: seq<byte>, isDir: bool, n: nat)
    requires n in f.tables.nodes
    ensures var h := Inserted(f, parent, name, isDir);
      && n in h.tables.nodes && h.tables.nodes[n] == f.tables.nodes[n]
      && CurrentManifest(h.tables, n) == CurrentManifest(f.tables, n)
  {
  }

  /** A copy onto a fresh node, after the insertion, is a copy from before it. */
  lemma CopiedSinceInsert(f: Fs, parent: nat, name: seq<byte>, g: Fs, src: nat, d: Path, q: Path, n: nat)
    requires src in f.tables.nodes && StoresOk(f) && NameOk(name)
    requires At(f.tables.nodes, d, parent) && f.tables.nodes[parent].isDir && Child(f.tables.nodes, parent, name).None?
    requires Copied(Inserted(f, parent, name, f.tables.nodes[src].isDir), g, src, NextId(f.tables.nodes.Keys),
                    d + [name], q, n)
    ensures Copied(f, g, src, NextId(f.tables.nodes.Keys), d + [name], q, n)
  {
    var isDir := f.tables.nodes[src].isDir;
    InsertedIsOk(f, parent, name, isDir, d, q, n);
    InsertedContents(f, parent, name, isDir, src);
    if n in f.tables.nodes {
      InsertedContents(f, parent, name, isDir, n);
    }
  }

  lemma InsertedIsCopied(f: Fs, src: nat, parent: nat, name: seq<byte>, d: Path, q: Path, n: nat)
    requires StoresOk(f) && src in f.tables.nodes && NameOk(name)
    requires At(f.tables.nodes, d, parent) && f.tables.nodes[parent].isDir && Child(f.tables.nodes, parent, name).None?
    requires f.tables.nodes[src].isDir || f.tables.nodes[src].current.None?
    ensures var h := Inserted(f, parent, name, f.tables.nodes[src].isDir);
      Copied(f, h, src, NextId(f.tables.nodes.Keys), d + [name], q, n)
  {
    var isDir := f.tables.nodes[src].isDir;
    InsertedIsOk(f, parent, name, isDir, d, q, n);
    InsertedContents(f, parent, name, isDir, src);
    if n in f.tables.nodes {
      InsertedContents(f, parent, name, isDir, n);
    }
  }

  lemma CopyToNew(f: Fs, src: nat, parent: nat, name: seq<byte>, d: Path, q: Path, n: nat)
    requires StoresOk(f) && src in f.tables.nodes && NameOk(name)
    requires At(f.tables.nodes, d, parent) && f.tables.nodes[parent].isDir && Child(f.tables.nodes, parent, name).None?
    ensures var (g, r) := CopyOnto(f, src, parent, name);
      r.Ok? && Copied(f, g, src, NextId(f.tables.nodes.Keys), d + [name], q, n)
  {
    var node, id := f.tables.nodes[src], NextId(f.tables.nodes.Keys);
    CopyOntoNew(f, src, parent, name);
    if node.isDir || node.current.None? {
      InsertedIsCopied(f, src, parent, name, d, q, n);
    } else {
      var h := Inserted(f, parent, name, false);
      InsertedIsOk(f, parent, name, false, d, q, n);
      InsertedContents(f, parent, name, false, src);
      CurrentLoads(h, src);
      ReferenceCopies(h, src, id, d + [name], q, n);
      CopiedSinceInsert(f, parent, name, CopyOnto(f, src, parent, name).0, src, d, q, n);
    }
  }

  lemma CopyToExisting(f: Fs, src: nat, parent: nat, name: seq<byte>, d: Path, q: Path, n: nat)
    requires StoresOk(f) && src in f.tables.nodes
    requires At(f.tables.nodes, d, parent) && Child(f.tables.nodes, parent, name).Some?
    requires f.tables.nodes[Child(f.tables.nodes, parent, name).value].isDir == f.tables.nodes[src].isDir
    ensures var (g, r) := CopyOnto(f, src, parent, name);
      r.Ok? && Copied(f, g, src, Child(f.tables.nodes, parent, name).value, d + [name], q, n)
  {
    var e := Child(f.tables.nodes, parent, name).value;
    assert Init(d + [name]) == d && At(f.tables.nodes, d + [name], e);
    if At(f.tables.nodes, q, n) && n == e {
      PathUnique(f.tables.nodes, q, d + [name], e);
    }
    if !f.tables.nodes[src].isDir {
      CurrentLoads(f, src);
      ReferenceCopies(f, src, e, d + [name], q, n);
    }
  }

  /** Both paths name something, the destination's parent is a collection, a collection is
      not copied into itself or deeper than the check can walk, and what is at the
      destination, if anything, is of the same kind. */
  ghost predicate CanCopy(f: Fs, from: seq<byte>, to: seq<byte>) {
    var nodes := f.tables.nodes;
    && Find(f, from).Ok? && Find(f, from).value in nodes && Target(nodes, to).Ok?
    && var isDir, victim := nodes[Find(f, from).value].isDir, Resolve(nodes, Segments(to));
    && (isDir ==> !(Segments(from) <= Init(Segments(to))) && |Init(Segments(to))| < WALK_LIMIT)
    && (victim.Some? && victim.value in nodes ==> nodes[victim.value].isDir == isDir)
  }

  /** The ancestor check, for a destination that lies in a collection. */
  lemma CopyCheck(f: Fs, from: seq<byte>, to: seq<byte>, src: nat, parent: nat)
    requires StoresOk(f) && Find(f, from) == Ok(src) && Segments(to) != []
    requires At(f.tables.nodes, Init(Segments(to)), parent)
    ensures src in f.tables.nodes
    ensures IntoItself(f.tables.nodes, src, parent) == Ok(false) <==>
            f.tables.nodes[src].isDir ==> !(Segments(from) <= Init(Segments(to))) && |Init(Segments(to))| < WALK_LIMIT
  {
    FoundIsThere(f, from);
    AncestorWalkOnTree(f.tables.nodes, src, parent, WALK_LIMIT, Segments(from), Init(Segments(to)));
  }

  lemma CopyFileIs(f: Fs, from: seq<byte>, to: seq<byte>, src: nat, parent: nat, name: seq<byte>)
    requires Find(f, from) == Ok(src) && Target(f.tables.nodes, to) == Ok((parent, name))
    requires src in f.tables.nodes && IntoItself(f.tables.nodes, src, parent) == Ok(false)
    ensures CopyFile(f, from, to) == CopyOnto(f, src, parent, name)
  {
  }

  lemma CopyOntoCopies(f: Fs, src: nat, parent: nat, name: seq<byte>, d: Path, q: Path, n: nat)
    requires StoresOk(f) && src in f.tables.nodes && NameOk(name)
    requires At(f.tables.nodes, d, parent) && f.tables.nodes[parent].isDir
    requires Child(f.tables.nodes, parent, name).Some? ==>
               f.tables.nodes[Child(f.tables.nodes, parent, name).value].isDir == f.tables.nodes[src].isDir
    ensures var (g, r) := CopyOnto(f, src, parent, name);
      r.Ok? && Copied(f, g, src, Landing(f, parent, name), d + [name], q, n)
  {
    if Child(f.tables.nodes, parent, name).Some? {
      CopyToExisting(f, src, parent, name, d, q, n);
    } else {
      CopyToNew(f, src, parent, name, d, q, n);
    }
  }

  /** Whatever passes the checks is copied. */
  lemma CheckedCopy(f: Fs, src: nat, parent: nat, name: seq<byte>, d: Path, q: Path, n: nat,
                    result: (Fs, FsOutcome<()>))
    requires StoresOk(f) && src in f.tables.nodes && NameOk(name)
    requires d != [] && Last(d) == name && At(f.tables.nodes, Init(d), parent) && f.tables.nodes[parent].isDir
    requires Child(f.tables.nodes, parent, name).Some? ==>
               f.tables.nodes[Child(f.tables.nodes, parent, name).value].isDir == f.tables.nodes[src].isDir
    requires result == CopyOnto(f, src, parent, name)
    ensures result.1.Ok? && Copied(f, result.0, src, Landing(f, parent, name), d, q, n)
  {
    assert d == Init(d) + [name];
    CopyOntoCopies(f, src, parent, name, Init(d), q, n);
  }

  lemma DestinationChild(f: Fs, to: seq<byte>, parent: nat, name: seq<byte>)
    requires StoresOk(f) && Target(f.tables.nodes, to) == Ok((parent, name))
    ensures Segments(to) != [] && At(f.tables.nodes, Init(Segments(to)), parent)
    ensures name == Last(Segments(to)) && NameOk(name) && f.tables.nodes[parent].isDir
    ensures Child(f.tables.nodes, parent, name) == Resolve(f.tables.nodes, Segments(to))
  {
    TargetIsPlace(f.tables.nodes, to);
    ResolveIffAt(f.tables.nodes, Init(Segments(to)), parent);
  }

  /** Exactly when a copy succeeds. */
  lemma CopySucceedsIff(f: Fs, from: seq<byte>, to: seq<byte>)
    requires StoresOk(f)
    ensures CopyFile(f, from, to).1.Ok? <==> CanCopy(f, from, to)
  {
    if Find(f, from).Ok? && Target(f.tables.nodes, to).Ok? {
      var src := Find(f, from).value;
      var (parent, name) := Target(f.tables.nodes, to).value;
      DestinationChild(f, to, parent, name);
      CopyCheck(f, from, to, src, parent);
      if CanCopy(f, from, to) {
        CopyFileIs(f, from, to, src, parent, name);
        CheckedCopy(f, src, parent, name, Segments(to), [], src, CopyFile(f, from, to));
      }
    }
  }

  /** After a successful copy the destination path names a node of the source's kind, which
      for a file exposes what the source exposes; every other path, node and content,
      the source's included, is what it was. */
  lemma CopyMirrors(f: Fs, from: seq<byte>, to: seq<byte>, src: nat, q: Path, n: nat)
    requires StoresOk(f) && CopyFile(f, from, to).1.Ok?
    requires Resolve(f.tables.nodes, Segments(from)) == Some(src)
    ensures Target(f.tables.nodes, to).Ok? && src in f.tables.nodes
    ensures var (parent, name) := Target(f.tables.nodes, to).value;
      Copied(f, CopyFile(f, from, to).0, src, Landing(f, parent, name), Segments(to), q, n)
  {
    CopySucceedsIff(f, from, to);
    var (parent, name) := Target(f.tables.nodes, to).value;
    DestinationChild(f, to, parent, name);
    CopyCheck(f, from, to, src, parent);
    CopyFileIs(f, from, to, src, parent, name);
    CheckedCopy(f, src, parent, name, Segments(to), q, n, CopyFile(f, from, to));
  }
}
