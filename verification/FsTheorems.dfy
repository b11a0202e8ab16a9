// What runs of filesystem operations guarantee: one tree, sound stores, an index that
// agrees with the content, and renames that substitute path prefixes.
module FsTheorems {
  import opened Base
  import opened Manifests
  import opened BlobStores
  import opened Paths
  import opened FileNames
  import opened MetaTables
  import opened Namespace
  import opened VersionHistory
  import opened References
  import opened Sweeps
  import opened FsModel

  /** The namespace is one tree, the tables are well-formed, and every blob a version
      refers to is there with the right bytes. */
  ghost predicate StoresOk(f: Fs) {
    && TreeOk(f.tables.nodes)
    && TablesOk(f.tables)
    && BlobsSound(f.blobs)
    && NothingDangles(f.blobs, f.tables)
  }

  /** A node that ought to have a document: a written, indexable file within the size cap. */
  ghost predicate Candidate(t: Tables, id: nat) {
    && id in t.nodes
    && !t.nodes[id].isDir && t.nodes[id].current.Some?
    && IsIndexableName(t.nodes[id].name)
    && t.nodes[id].size <= 4 * 1024 * 1024
  }

  ghost predicate AgreesAt(f: Fs, id: nat) {
    && (id in f.docs <==> Candidate(f.tables, id))
    && (id in f.docs ==> f.docs[id] == Content(ManifestAt(f.tables, f.tables.nodes[id].current.value)))
  }

  /** The index holds one document for each candidate, equal to its current content, and
      nothing else. */
  ghost predicate IndexAgrees(f: Fs) {
    forall id: nat :: AgreesAt(f, id)
  }

  // ---- Building blocks ----

  lemma FileIsLeaf(nodes: Nodes, id: nat)
    requires TreeOk(nodes) && id in nodes && !nodes[id].isDir
    ensures !HasChildren(nodes, id)
  {
    forall c | c in nodes ensures nodes[c].parent != Some(id) {
      assert LinkOk(nodes, c);
    }
  }

  lemma RootIsCollection(nodes: Nodes)
    requires TreeOk(nodes)
    ensures ROOT_ID in nodes && nodes[ROOT_ID].isDir
  {
    assert LinkOk(nodes, ROOT_ID);
  }

  lemma TargetIsPlace(nodes: Nodes, path: seq<byte>)
    requires TreeOk(nodes) && Target(nodes, path).Ok?
    ensures var (parent, name) := Target(nodes, path).value;
      && Segments(path) != [] && name == Last(Segments(path)) && NameOk(name)
      && At(nodes, Init(Segments(path)), parent) && nodes[parent].isDir
  {
    SegmentsAreNames(path);
    ResolveIffAt(nodes, Init(Segments(path)), Target(nodes, path).value.0);
  }

  lemma FoundIsThere(f: Fs, path: seq<byte>)
    requires TreeOk(f.tables.nodes) && Find(f, path).Ok?
    ensures At(f.tables.nodes, Segments(path), Find(f, path).value)
    ensures Find(f, path).value == ROOT_ID <==> Segments(path) == []
  {
    var id := Find(f, path).value;
    ResolveIffAt(f.tables.nodes, Segments(path), id);
    assert LinkOk(f.tables.nodes, id);
  }

  /** Nothing about the node's row, its current version or its document differs. */
  ghost predicate SameDocument(f: Fs, g: Fs, id: nat) {
    && (id in f.tables.nodes <==> id in g.tables.nodes)
    && (id in f.tables.nodes ==>
          && g.tables.nodes[id].(parent := None) == f.tables.nodes[id].(parent := None)
          && (f.tables.nodes[id].current.Some? ==>
                var v := f.tables.nodes[id].current.value;
                ManifestAt(g.tables, v) == ManifestAt(f.tables, v)))
    && (id in f.docs <==> id in g.docs)
    && (id in f.docs ==> f.docs[id] == g.docs[id])
  }

  lemma SameDocumentAgrees(f: Fs, g: Fs, id: nat)
    requires AgreesAt(f, id) && SameDocument(f, g, id)
    ensures AgreesAt(g, id)
  {
  }

  lemma ReindexKeepsRest(f: Fs, id: nat)
    ensures Reindex(f, id).tables == f.tables && Reindex(f, id).blobs == f.blobs
    ensures forall other: nat :: other != id ==> SameDocument(f, Reindex(f, id), other)
  {
  }

  lemma CurrentIsPresent(f: Fs, id: nat)
    requires CurrentsOk(f.tables) && NothingDangles(f.blobs, f.tables)
    requires id in f.tables.nodes && f.tables.nodes[id].current.Some?
    ensures f.tables.nodes[id].current.value in f.tables.versions
    ensures Hashes(ManifestAt(f.tables, f.tables.nodes[id].current.value)) <= f.blobs.Keys
  {
    assert CurrentOk(f.tables, id);
    ManifestHashesAreReferenced(f.tables, f.tables.nodes[id].current.value);
  }

  lemma ReindexAgrees(f: Fs, id: nat)
    requires CurrentsOk(f.tables) && NothingDangles(f.blobs, f.tables) && id in f.tables.nodes
    requires forall other: nat :: other != id ==> AgreesAt(f, other)
    requires IsTextFile(f.tables.nodes[id]) || id !in f.docs
    ensures IndexAgrees(Reindex(f, id))
  {
    var g := Reindex(f, id);
    if f.tables.nodes[id].current.Some? {
      CurrentIsPresent(f, id);
    }
    assert AgreesAt(g, id);
    ReindexKeepsRest(f, id);
    forall other: nat | other != id ensures AgreesAt(g, other) {
      SameDocumentAgrees(f, g, other);
    }
  }

  // ---- Writing content ----

  lemma SetContentLinks(t: Tables, id: nat, m: Manifest)
    ensures SameLinks(t.nodes, SetContent(t, id, m).0.nodes)
  {
  }

  lemma SetContentElsewhere(t: Tables, id: nat, m: Manifest, other: nat)
    requires TablesOk(t) && other != id && other in t.nodes && t.nodes[other].current.Some?
    ensures SetContent(t, id, m).0.nodes[other] == t.nodes[other]
    ensures ManifestAt(SetContent(t, id, m).0, t.nodes[other].current.value) ==
            ManifestAt(t, t.nodes[other].current.value)
  {
    assert CurrentOk(t, other);
  }

  lemma SetContentKeepsOk(t: Tables, id: nat, m: Manifest)
    requires TablesOk(t) && Stored(m)
    ensures TablesOk(SetContent(t, id, m).0)
  {
    if id in t.nodes {
      AppendKeepsOk(t, id, m);
    }
  }

  lemma SetContentKeepsStores(f: Fs, id: nat, m: Manifest)
    requires StoresOk(f) && Stored(m) && Hashes(m) <= f.blobs.Keys
    ensures StoresOk(f.(tables := SetContent(f.tables, id, m).0))
  {
    var t := SetContent(f.tables, id, m).0;
    assert TablesOk(t) by {
      SetContentKeepsOk(f.tables, id, m);
    }
    WriteAddsItsHashes(f.tables, id, m);
    assert TreeOk(t.nodes) by {
      SetContentLinks(f.tables, id, m);
      SameLinksKeepTree(f.tables.nodes, t.nodes);
    }
  }

  lemma ReferenceKeepsStores(f: Fs, id: nat, m: Manifest)
    requires StoresOk(f) && Stored(m) && Hashes(m) <= f.blobs.Keys
    ensures StoresOk(Reference(f, id, Ok(m)).0)
  {
    var g := f.(tables := SetContent(f.tables, id, m).0);
    SetContentKeepsStores(f, id, m);
    ReindexKeepsRest(g, id);
  }

  lemma SetContentKeepsOtherAgreement(f: Fs, id: nat, m: Manifest, other: nat)
    requires TablesOk(f.tables) && AgreesAt(f, other) && other != id
    ensures AgreesAt(f.(tables := SetContent(f.tables, id, m).0), other)
  {
    var g := f.(tables := SetContent(f.tables, id, m).0);
    if other in f.tables.nodes && f.tables.nodes[other].current.Some? {
      SetContentElsewhere(f.tables, id, m, other);
    }
    SameDocumentAgrees(f, g, other);
  }

  lemma ReferenceKeepsAgreement(f: Fs, id: nat, m: Manifest)
    requires StoresOk(f) && Stored(m) && Hashes(m) <= f.blobs.Keys && IndexAgrees(f)
    ensures IndexAgrees(Reference(f, id, Ok(m)).0)
  {
    if id in f.tables.nodes {
      var g := f.(tables := SetContent(f.tables, id, m).0);
      SetContentKeepsStores(f, id, m);
      forall other: nat | other != id ensures AgreesAt(g, other) {
        SetContentKeepsOtherAgreement(f, id, m, other);
      }
      assert AgreesAt(f, id);
      ReindexAgrees(g, id);
    }
  }

  lemma LoadedIsPresent(f: Fs, id: nat)
    requires StoresOk(f) && CurrentManifest(f.tables, id).Ok?
    ensures Stored(CurrentManifest(f.tables, id).value)
    ensures Hashes(CurrentManifest(f.tables, id).value) <= f.blobs.Keys
  {
    EmptyIsStored();
    if f.tables.nodes[id].current.Some? {
      LoadedManifestIsStored(f.tables, f.tables.nodes[id].current.value);
      CurrentIsPresent(f, id);
    }
  }

  lemma FlushKeeps(f: Fs, id: nat, pieces: seq<seq<byte>>)
    requires StoresOk(f) && Chunked(pieces)
    ensures StoresOk(Flush(f, id, pieces).0)
    ensures IndexAgrees(f) ==> IndexAgrees(Flush(f, id, pieces).0)
  {
    if id in f.tables.nodes {
      var g := f.(blobs := PutAll(f.blobs, pieces));
      PutAllAdds(f.blobs, pieces);
      ManifestOfIsStored(pieces);
      ReferenceKeepsStores(g, id, ManifestOf(pieces));
      if IndexAgrees(f) {
        forall other: nat ensures AgreesAt(g, other) {
          SameDocumentAgrees(f, g, other);
        }
        ReferenceKeepsAgreement(g, id, ManifestOf(pieces));
      }
    }
  }

  lemma RevertKeeps(f: Fs, path: seq<byte>, number: nat)
    requires StoresOk(f)
    ensures StoresOk(Revert(f, path, number).0)
    ensures IndexAgrees(f) ==> IndexAgrees(Revert(f, path, number).0)
  {
    var id := FileAt(f, path);
    if id.Ok? && VersionId(f.tables, id.value, number).Some? {
      RevertRefers(f, path, number, id.value, VersionId(f.tables, id.value, number).value);
      ReferenceKeepsVersion(f, id.value, VersionId(f.tables, id.value, number).value, Revert(f, path, number).0);
    }
  }

  lemma RevertRefers(f: Fs, path: seq<byte>, number: nat, id: nat, v: nat)
    requires FileAt(f, path) == Ok(id) && VersionId(f.tables, id, number) == Some(v)
    ensures Revert(f, path, number).0 == Reference(f, id, Ok(ManifestAt(f.tables, v))).0
  {
  }

  lemma ReferenceKeepsVersion(f: Fs, id: nat, v: nat, g: Fs)
    requires StoresOk(f) && g == Reference(f, id, Ok(ManifestAt(f.tables, v))).0
    ensures StoresOk(g) && (IndexAgrees(f) ==> IndexAgrees(g))
  {
    var m := ManifestAt(f.tables, v);
    LoadedManifestIsStored(f.tables, v);
    ManifestHashesAreReferenced(f.tables, v);
    ReferenceKeepsStores(f, id, m);
    if IndexAgrees(f) {
      ReferenceKeepsAgreement(f, id, m);
    }
  }

  // ---- Creating ----

  lemma InsertKeepsStores(f: Fs, parent: nat, name: seq<byte>, isDir: bool, d: Path)
    requires StoresOk(f) && NameOk(name)
    requires At(f.tables.nodes, d, parent) && f.tables.nodes[parent].isDir
    ensures StoresOk(f.(tables := Insert(f.tables, parent, name, isDir).0))
  {
    var t := Insert(f.tables, parent, name, isDir).0;
    ApplyKeepsOk(f.tables, InsertOp(parent, name, isDir));
    UnguardedAddsNoReference(f.tables, InsertOp(parent, name, isDir));
    if t != f.tables {
      var id := NextId(f.tables.nodes.Keys);
      InsertKeepsTree(f.tables.nodes, id, Node(Some(parent), name, isDir, 0, None), d);
    }
  }

  /** A fresh node has no document, even when it reuses the id of a deleted one. */
  lemma InsertKeepsAgreement(f: Fs, parent: nat, name: seq<byte>, isDir: bool)
    requires IndexAgrees(f)
    ensures IndexAgrees(f.(tables := Insert(f.tables, parent, name, isDir).0))
  {
    var g := f.(tables := Insert(f.tables, parent, name, isDir).0);
    forall id: nat ensures AgreesAt(g, id) {
      assert AgreesAt(f, id);
      if id in f.tables.nodes || id !in g.tables.nodes {
        SameDocumentAgrees(f, g, id);
      }
    }
  }

  lemma CreateKeeps(f: Fs, path: seq<byte>, isDir: bool)
    requires StoresOk(f)
    ensures StoresOk(Create(f, path, isDir).0)
    ensures IndexAgrees(f) ==> IndexAgrees(Create(f, path, isDir).0)
  {
    if Target(f.tables.nodes, path).Ok? {
      TargetIsPlace(f.tables.nodes, path);
      var (parent, name) := Target(f.tables.nodes, path).value;
      InsertKeepsStores(f, parent, name, isDir, Init(Segments(path)));
      if IndexAgrees(f) {
        InsertKeepsAgreement(f, parent, name, isDir);
      }
    }
  }

  // ---- Deleting ----

  lemma DeleteLeaf(t: Tables, id: nat)
    requires id in t.nodes && !HasChildren(t.nodes, id)
    ensures Delete(t, id).nodes == t.nodes - {id}
    ensures forall v :: v in Delete(t, id).versions <==> v in t.versions && t.versions[v].node != id
    ensures forall v :: v in Delete(t, id).versions ==>
              Delete(t, id).versions[v] == t.versions[v] && ManifestAt(Delete(t, id), v) == ManifestAt(t, v)
  {
    CascadeOfLeaf(t.nodes, id);
  }

  lemma DeleteLeafKeepsStores(f: Fs, id: nat)
    requires StoresOk(f) && id in f.tables.nodes && !HasChildren(f.tables.nodes, id) && id != ROOT_ID
    ensures StoresOk(f.(tables := Delete(f.tables, id)))
  {
    DeleteLeaf(f.tables, id);
    ApplyKeepsOk(f.tables, DeleteOp(id));
    UnguardedAddsNoReference(f.tables, DeleteOp(id));
    RemoveKeepsTree(f.tables.nodes, id);
  }

  /** After a leaf is deleted and its document dropped if it had one, the index agrees. */
  lemma DeleteLeafKeepsAgreement(f: Fs, id: nat, docs: map<nat, seq<byte>>)
    requires StoresOk(f) && id in f.tables.nodes && !HasChildren(f.tables.nodes, id) && IndexAgrees(f)
    requires docs == f.docs - {id} || (docs == f.docs && !Candidate(f.tables, id))
    ensures IndexAgrees(Fs(Delete(f.tables, id), f.blobs, docs))
  {
    var g := Fs(Delete(f.tables, id), f.blobs, docs);
    DeleteLeaf(f.tables, id);
    forall other: nat ensures AgreesAt(g, other) {
      assert AgreesAt(f, other);
      if other != id {
        assert other in f.tables.nodes ==> CurrentOk(f.tables, other);
        SameDocumentAgrees(f, g, other);
      }
    }
  }

  lemma ClobberKeeps(f: Fs, id: nat)
    requires StoresOk(f) && id in f.tables.nodes && !f.tables.nodes[id].isDir
    ensures StoresOk(Clobber(f, id))
    ensures IndexAgrees(f) ==> IndexAgrees(Clobber(f, id))
  {
    FileIsLeaf(f.tables.nodes, id);
    RootIsCollection(f.tables.nodes);
    assert StoresOk(f.(tables := Delete(f.tables, id))) by {
      DeleteLeafKeepsStores(f, id);
    }
    if IndexAgrees(f) {
      assert AgreesAt(f, id);
      DeleteLeafKeepsAgreement(f, id, Clobber(f, id).docs);
    }
  }

  lemma DeleteFileKeeps(f: Fs, path: seq<byte>)
    requires StoresOk(f)
    ensures StoresOk(DeleteFile(f, path).0)
    ensures IndexAgrees(f) ==> IndexAgrees(DeleteFile(f, path).0)
  {
    if DeleteFile(f, path).1.Ok? {
      ClobberKeeps(f, Find(f, path).value);
    }
  }

  lemma DeleteDirKeeps(f: Fs, path: seq<byte>)
    requires StoresOk(f)
    ensures StoresOk(DeleteDir(f, path).0)
    ensures IndexAgrees(f) ==> IndexAgrees(DeleteDir(f, path).0)
  {
    if DeleteDir(f, path).1.Ok? {
      var id := Find(f, path).value;
      DeleteLeafKeepsStores(f, id);
      if IndexAgrees(f) {
        DeleteLeafKeepsAgreement(f, id, f.docs);
      }
    }
  }

  lemma PruneDropsReferences(t: Tables, id: nat, number: nat)
    ensures Referenced(DeleteVersion(t, id, number).0) <= Referenced(t)
    ensures DeleteVersion(t, id, number).0.nodes == t.nodes
  {
    UnguardedAddsNoReference(t, PruneOp(id, number));
  }

  lemma PruneKeepsStores(f: Fs, id: nat, number: nat)
    requires StoresOk(f)
    ensures StoresOk(f.(tables := DeleteVersion(f.tables, id, number).0))
  {
    var t := DeleteVersion(f.tables, id, number).0;
    assert TablesOk(t) by {
      PruneKeepsOk(f.tables, id, number);
    }
    PruneDropsReferences(f.tables, id, number);
  }

  lemma PruneKeepsAgreement(f: Fs, id: nat, number: nat, other: nat)
    requires CurrentsOk(f.tables) && AgreesAt(f, other)
    ensures AgreesAt(f.(tables := DeleteVersion(f.tables, id, number).0), other)
  {
    assert other in f.tables.nodes ==> CurrentOk(f.tables, other);
    SameDocumentAgrees(f, f.(tables := DeleteVersion(f.tables, id, number).0), other);
  }

  lemma PruneKeeps(f: Fs, path: seq<byte>, number: nat)
    requires StoresOk(f)
    ensures StoresOk(Prune(f, path, number).0)
    ensures IndexAgrees(f) ==> IndexAgrees(Prune(f, path, number).0)
  {
    if FileAt(f, path).Ok? {
      var id := FileAt(f, path).value;
      PruneKeepsStores(f, id, number);
      if IndexAgrees(f) {
        forall other: nat ensures AgreesAt(Prune(f, path, number).0, other) {
          PruneKeepsAgreement(f, id, number, other);
        }
      }
    }
  }

  lemma CollectKeeps(f: Fs, listed: seq<Hash>, failing: set<Hash>)
    requires StoresOk(f) && Listing(f.blobs, listed)
    ensures StoresOk(Collect(f, listed, failing).0)
    ensures IndexAgrees(f) ==> IndexAgrees(Collect(f, listed, failing).0)
  {
    SweepDeletes(f.blobs, Referenced(f.tables), listed, failing);
    if IndexAgrees(f) {
      forall id: nat ensures AgreesAt(Collect(f, listed, failing).0, id) {
        SameDocumentAgrees(f, Collect(f, listed, failing).0, id);
      }
    }
  }

  // ---- Creating and deleting as changes to the map from paths to nodes ----

  /** Exactly when creating succeeds: the parent is a collection and nothing has the path. */
  lemma CreateSucceedsIff(f: Fs, path: seq<byte>, isDir: bool)
    requires StoresOk(f)
    ensures Create(f, path, isDir).1.Ok? <==>
            && Target(f.tables.nodes, path).Ok?
            && Resolve(f.tables.nodes, Segments(path)).None?
  {
    var nodes := f.tables.nodes;
    if Target(nodes, path).Ok? {
      TargetIsPlace(nodes, path);
      ResolveIffAt(nodes, Init(Segments(path)), Target(nodes, path).value.0);
    }
  }

  /** Creating adds one path, to an empty node of the kind asked for, and changes no other
      path or node. */
  lemma CreateAddsOnePath(f: Fs, path: seq<byte>, isDir: bool, q: Path, n: nat)
    requires StoresOk(f) && Create(f, path, isDir).1.Ok?
    ensures var (g, id) := Create(f, path, isDir);
      && id.value !in f.tables.nodes
      && g.tables.nodes.Keys == f.tables.nodes.Keys + {id.value}
      && g.tables.nodes[id.value].isDir == isDir && CurrentManifest(g.tables, id.value) == Ok(EMPTY_MANIFEST)
      && (n in f.tables.nodes ==> g.tables.nodes[n] == f.tables.nodes[n])
      && (At(g.tables.nodes, q, n) <==> At(f.tables.nodes, q, n) || (n == id.value && q == Segments(path)))
  {
    var (parent, name) := Target(f.tables.nodes, path).value;
    CreatedTables(f, path, isDir);
    TargetParts(f, path);
    InsertAddsOnePath(f.tables, parent, name, isDir, Init(Segments(path)), q, n, Create(f, path, isDir).0.tables);
  }

  lemma TargetParts(f: Fs, path: seq<byte>)
    requires StoresOk(f) && Target(f.tables.nodes, path).Ok?
    ensures ParentsExist(f.tables.nodes)
    ensures var (parent, name) := Target(f.tables.nodes, path).value;
      && Segments(path) != [] && Segments(path) == Init(Segments(path)) + [name]
      && At(f.tables.nodes, Init(Segments(path)), parent)
  {
    TargetIsPlace(f.tables.nodes, path);
  }

  lemma InsertAddsOnePath(t: Tables, parent: nat, name: seq<byte>, isDir: bool, d: Path, q: Path, n: nat, u: Tables)
    requires ParentsExist(t.nodes) && At(t.nodes, d, parent) && u == InsertNode(t, parent, name, isDir)
    ensures var id := NextId(t.nodes.Keys);
      && id !in t.nodes
      && u.nodes.Keys == t.nodes.Keys + {id}
      && u.nodes[id].isDir == isDir && CurrentManifest(u, id) == Ok(EMPTY_MANIFEST)
      && (n in t.nodes ==> u.nodes[n] == t.nodes[n])
      && (At(u.nodes, q, n) <==> At(t.nodes, q, n) || (n == id && q == d + [name]))
  {
    InsertedPaths(t.nodes, NextId(t.nodes.Keys), Node(Some(parent), name, isDir, 0, None), d, q, n);
  }

  lemma CreatedTables(f: Fs, path: seq<byte>, isDir: bool)
    requires Create(f, path, isDir).1.Ok?
    ensures Target(f.tables.nodes, path).Ok?
    ensures var (parent, name) := Target(f.tables.nodes, path).value;
      Create(f, path, isDir) ==
      (f.(tables := InsertNode(f.tables, parent, name, isDir)), Ok(NextId(f.tables.nodes.Keys)))
  {
  }

  /** Deleting a file succeeds exactly on files, and removes its path and nothing else. */
  lemma DeleteFileRemovesOnePath(f: Fs, path: seq<byte>, q: Path, n: nat)
    requires StoresOk(f)
    ensures var (g, r) := DeleteFile(f, path);
      && (r.Ok? <==> Find(f, path).Ok? && !f.tables.nodes[Find(f, path).value].isDir)
      && (r.Err? ==> g == f)
      && (r.Ok? ==>
            && (At(g.tables.nodes, q, n) <==> At(f.tables.nodes, q, n) && n != Find(f, path).value)
            && (n in g.tables.nodes ==> CurrentManifest(g.tables, n) == CurrentManifest(f.tables, n)))
  {
    if Find(f, path).Ok? {
      FoundIsThere(f, path);
      var id := Find(f, path).value;
      if !f.tables.nodes[id].isDir {
        FileIsLeaf(f.tables.nodes, id);
        DeletedLeaf(f.tables, id, q, n);
      }
    }
  }

  /** Deleting a collection succeeds exactly on empty ones other than the root, and removes
      its path and nothing else. */
  lemma DeleteDirRemovesOnePath(f: Fs, path: seq<byte>, q: Path, n: nat)
    requires StoresOk(f)
    ensures var (g, r) := DeleteDir(f, path);
      && (r.Ok? <==> && Find(f, path).Ok? && Find(f, path).value != ROOT_ID
                     && f.tables.nodes[Find(f, path).value].isDir && !HasChildren(f.tables.nodes, Find(f, path).value))
      && (r.Err? ==> g == f)
      && (r.Ok? ==>
            && (At(g.tables.nodes, q, n) <==> At(f.tables.nodes, q, n) && n != Find(f, path).value)
            && (n in g.tables.nodes ==> CurrentManifest(g.tables, n) == CurrentManifest(f.tables, n)))
  {
    if Find(f, path).Ok? {
      FoundIsThere(f, path);
      var id := Find(f, path).value;
      if id != ROOT_ID && f.tables.nodes[id].isDir && !HasChildren(f.tables.nodes, id) {
        DeletedLeaf(f.tables, id, q, n);
      }
    }
  }

  lemma DeletedLeaf(t: Tables, id: nat, q: Path, n: nat)
    requires TablesOk(t) && id in t.nodes && !HasChildren(t.nodes, id)
    ensures At(Delete(t, id).nodes, q, n) <==> At(t.nodes, q, n) && n != id
    ensures n in Delete(t, id).nodes ==> CurrentManifest(Delete(t, id), n) == CurrentManifest(t, n)
  {
    DeleteLeaf(t, id);
    RemovedPaths(t.nodes, id, q, n);
    if n in t.nodes && n != id {
      assert CurrentOk(t, n);
    }
  }

  // ---- Copying ----

  lemma CopyKeeps(f: Fs, from: seq<byte>, to: seq<byte>)
    requires StoresOk(f)
    ensures StoresOk(CopyFile(f, from, to).0)
    ensures IndexAgrees(f) ==> IndexAgrees(CopyFile(f, from, to).0)
  {
    if CopyFile(f, from, to).0 != f {
      TargetIsPlace(f.tables.nodes, to);
      var (parent, name) := Target(f.tables.nodes, to).value;
      CopyOntoKeeps(f, Find(f, from).value, parent, name, Init(Segments(to)));
    }
  }

  lemma CopyOntoKeeps(f: Fs, src: nat, parent: nat, name: seq<byte>, d: Path)
    requires StoresOk(f) && src in f.tables.nodes && NameOk(name)
    requires At(f.tables.nodes, d, parent) && f.tables.nodes[parent].isDir
    ensures StoresOk(CopyOnto(f, src, parent, name).0)
    ensures IndexAgrees(f) ==> IndexAgrees(CopyOnto(f, src, parent, name).0)
  {
    if Child(f.tables.nodes, parent, name).Some? {
      ReferenceKeepsLoaded(f, Child(f.tables.nodes, parent, name).value, src);
    } else {
      CopyToNewKeeps(f, src, parent, name, d);
    }
  }

  lemma CopyToNewKeeps(f: Fs, src: nat, parent: nat, name: seq<byte>, d: Path)
    requires StoresOk(f) && src in f.tables.nodes && NameOk(name)
    requires At(f.tables.nodes, d, parent) && f.tables.nodes[parent].isDir
    ensures var (t, r) := Insert(f.tables, parent, name, f.tables.nodes[src].isDir);
      && StoresOk(f.(tables := t))
      && (IndexAgrees(f) ==> IndexAgrees(f.(tables := t)))
      && (r.Ok? ==> StoresOk(Reference(f.(tables := t), r.value, CurrentManifest(t, src)).0))
      && (r.Ok? && IndexAgrees(f) ==> IndexAgrees(Reference(f.(tables := t), r.value, CurrentManifest(t, src)).0))
  {
    var isDir := f.tables.nodes[src].isDir;
    var (t, r) := Insert(f.tables, parent, name, isDir);
    InsertKeepsStores(f, parent, name, isDir, d);
    if IndexAgrees(f) {
      InsertKeepsAgreement(f, parent, name, isDir);
    }
    if r.Ok? {
      ReferenceKeepsLoaded(f.(tables := t), r.value, src);
    }
  }

  lemma ReferenceKeepsLoaded(f: Fs, id: nat, src: nat)
    requires StoresOk(f)
    ensures StoresOk(Reference(f, id, CurrentManifest(f.tables, src)).0)
    ensures IndexAgrees(f) ==> IndexAgrees(Reference(f, id, CurrentManifest(f.tables, src)).0)
  {
    var m := CurrentManifest(f.tables, src);
    if m.Ok? {
      LoadedIsPresent(f, src);
      ReferenceKeepsStores(f, id, m.value);
      if IndexAgrees(f) {
        ReferenceKeepsAgreement(f, id, m.value);
      }
    }
  }

  // ---- Renaming ----

  lemma {:induction false} NothingBelowFile(nodes: Nodes, src: nat, s: Path, d: Path, n: nat)
    requires TreeOk(nodes) && At(nodes, s, src) && !nodes[src].isDir && At(nodes, d, n) && n != src
    ensures !(s <= d)
    decreases |d|
  {
    if s == d {
      NodeUnique(nodes, d, n, src);
    }
    if d != [] {
      FileIsLeaf(nodes, src);
      NothingBelowFile(nodes, src, s, Init(d), nodes[n].parent.value);
    }
  }

  /** A destination that passes the ancestor check lies outside the moved subtree. */
  lemma OutsideItself(nodes: Nodes, src: nat, parent: nat, s: Path, d: Path)
    requires TreeOk(nodes) && At(nodes, s, src) && At(nodes, d, parent) && nodes[parent].isDir
    requires IntoItself(nodes, src, parent) == Ok(false)
    ensures !(s <= d)
  {
    if nodes[src].isDir {
      AncestorWalkOnTree(nodes, src, parent, WALK_LIMIT, s, d);
    } else {
      NothingBelowFile(nodes, src, s, d, parent);
    }
  }

  /** `g` is `f` with the file at a rename's destination, if there is one, deleted. */
  ghost predicate Cleared(f: Fs, victim: Option<nat>, g: Fs) {
    match victim
    case None => g == f
    case Some(v) => v in f.tables.nodes && !f.tables.nodes[v].isDir && g == Clobber(f, v)
  }

  /** What a successful rename did: found the source, cleared a file out of the way if there
      was one other than the source, and relinked the source. */
  lemma RenameSteps(f: Fs, from: seq<byte>, to: seq<byte>) returns (src: nat, parent: nat, g: Fs)
    requires StoresOk(f) && RenameFile(f, from, to).1.Ok?
    ensures var nodes, s, d := f.tables.nodes, Segments(from), Segments(to);
      && s != [] && d != [] && NameOk(Last(d))
      && At(nodes, s, src) && At(nodes, Init(d), parent) && !(s <= Init(d)) && nodes[parent].isDir
      && Resolve(nodes, d) == Child(nodes, parent, Last(d)) != Some(src)
    ensures Cleared(f, Resolve(f.tables.nodes, Segments(to)), g)
    ensures src in g.tables.nodes && parent in g.tables.nodes
    ensures IntoItself(f.tables.nodes, src, parent) == Ok(false)
    ensures RenameFile(f, from, to).0 == g.(tables := Relink(g.tables, src, parent, Last(Segments(to))))
  {
    var nodes, s, d := f.tables.nodes, Segments(from), Segments(to);
    FoundIsThere(f, from);
    TargetIsPlace(nodes, to);
    src, parent := Find(f, from).value, Target(nodes, to).value.0;
    OutsideItself(nodes, src, parent, s, Init(d));
    g := f;
    var victim := Child(nodes, parent, Last(d));
    if victim.Some? {
      FileIsLeaf(nodes, victim.value);
      DeleteLeaf(f.tables, victim.value);
      g := Clobber(f, victim.value);
    }
  }

  lemma ClearedKeeps(f: Fs, victim: Option<nat>, g: Fs)
    requires StoresOk(f) && Cleared(f, victim, g)
    ensures StoresOk(g) && (IndexAgrees(f) ==> IndexAgrees(g))
  {
    if victim.Some? {
      ClobberKeeps(f, victim.value);
    }
  }

  lemma ClearedPaths(f: Fs, victim: Option<nat>, g: Fs, q: Path, n: nat)
    requires StoresOk(f) && Cleared(f, victim, g)
    ensures At(g.tables.nodes, q, n) <==> At(f.tables.nodes, q, n) && victim != Some(n)
  {
    if victim.Some? {
      FileIsLeaf(f.tables.nodes, victim.value);
      DeleteLeaf(f.tables, victim.value);
      RemovedPaths(f.tables.nodes, victim.value, q, n);
    }
  }

  /** Rename is prefix substitution. After a successful rename a node has path `q` exactly
      when it was there before, was not the file replaced at the destination, and `q` is its
      old path with the source's path replaced by the destination's if it began with it. */
  lemma RenameIsPrefixSubstitution(f: Fs, from: seq<byte>, to: seq<byte>, q: Path, n: nat)
    requires StoresOk(f) && RenameFile(f, from, to).1.Ok?
    ensures At(RenameFile(f, from, to).0.tables.nodes, q, n) <==>
            && n in f.tables.nodes
            && Resolve(f.tables.nodes, Segments(to)) != Some(n)
            && q == Moved(Segments(from), Segments(to), PathOf(f.tables.nodes, n))
  {
    var src, parent, g := RenameSteps(f, from, to);
    NotTheVictim(f.tables.nodes, Init(Segments(to)), parent, to);
    RelinkSubstitutes(f, Resolve(f.tables.nodes, Segments(to)), g, src, parent, Segments(from), Segments(to), q, n,
                      RenameFile(f, from, to).0.tables.nodes);
  }

  /** Clearing the destination and relinking the source, as changes to paths. */
  lemma RelinkSubstitutes(f: Fs, victim: Option<nat>, g: Fs, src: nat, parent: nat, s: Path, d: Path, q: Path, n: nat,
                          after: Nodes)
    requires StoresOk(f) && Cleared(f, victim, g) && s != [] && d != [] && !(s <= Init(d))
    requires At(f.tables.nodes, s, src) && At(f.tables.nodes, Init(d), parent)
    requires victim != Some(src) && victim != Some(parent)
    requires src in g.tables.nodes && after == Move(g.tables.nodes, src, parent, Last(d))
    ensures At(after, q, n) <==>
            n in f.tables.nodes && victim != Some(n) && q == Moved(s, d, PathOf(f.tables.nodes, n))
  {
    assert StoresOk(g) by {
      ClearedKeeps(f, victim, g);
    }
    assert d == Init(d) + [Last(d)];
    ClearedPaths(f, victim, g, s, src);
    ClearedPaths(f, victim, g, Init(d), parent);
    MoveIsSubstitution(g.tables.nodes, src, parent, Last(d), s, Init(d), q, n);
    SamePathWhereCleared(f, victim, g, n);
  }

  lemma SamePathWhereCleared(f: Fs, victim: Option<nat>, g: Fs, n: nat)
    requires StoresOk(f) && StoresOk(g) && Cleared(f, victim, g)
    ensures n in g.tables.nodes <==> n in f.tables.nodes && victim != Some(n)
    ensures n in g.tables.nodes ==> PathOf(g.tables.nodes, n) == PathOf(f.tables.nodes, n)
  {
    if n in g.tables.nodes {
      ClearedPaths(f, victim, g, PathOf(g.tables.nodes, n), n);
      PathUnique(f.tables.nodes, PathOf(g.tables.nodes, n), PathOf(f.tables.nodes, n), n);
    } else if n in f.tables.nodes {
      ClearedPaths(f, victim, g, PathOf(f.tables.nodes, n), n);
    }
  }

  lemma NotTheVictim(nodes: Nodes, p: Path, n: nat, to: seq<byte>)
    requires TreeOk(nodes) && At(nodes, p, n) && Segments(to) != [] && p == Init(Segments(to))
    ensures Resolve(nodes, Segments(to)) != Some(n)
  {
    if Resolve(nodes, Segments(to)) == Some(n) {
      ResolveIffAt(nodes, Segments(to), n);
      PathUnique(nodes, p, Segments(to), n);
    }
  }

  /** A rename touches no blob and no version except those of the file it replaces. */
  lemma RenameKeepsVersions(f: Fs, from: seq<byte>, to: seq<byte>, v: nat)
    requires StoresOk(f) && RenameFile(f, from, to).1.Ok? && v in f.tables.versions
    ensures var after := RenameFile(f, from, to).0;
      && after.blobs == f.blobs
      && (v in after.tables.versions <==> Some(f.tables.versions[v].node) != Resolve(f.tables.nodes, Segments(to)))
      && (v in after.tables.versions ==> after.tables.versions[v] == f.tables.versions[v]
                                         && ManifestAt(after.tables, v) == ManifestAt(f.tables, v))
  {
    var src, parent, g := RenameSteps(f, from, to);
    ClearedVersions(f, Resolve(f.tables.nodes, Segments(to)), g, v);
  }

  /** The node is where it was unless it was replaced, and then it still points at the same
      current version and exposes the same content. */
  ghost predicate ContentKept(t: Tables, victim: Option<nat>, after: Tables, n: nat)
    requires n in t.nodes
  {
    && (n in after.nodes <==> victim != Some(n))
    && (n in after.nodes ==>
          && after.nodes[n].current == t.nodes[n].current && after.nodes[n].size == t.nodes[n].size
          && after.nodes[n].isDir == t.nodes[n].isDir
          && CurrentManifest(after, n) == CurrentManifest(t, n))
  }

  lemma RenameKeepsContent(f: Fs, from: seq<byte>, to: seq<byte>, n: nat)
    requires StoresOk(f) && RenameFile(f, from, to).1.Ok? && n in f.tables.nodes
    ensures ContentKept(f.tables, Resolve(f.tables.nodes, Segments(to)), RenameFile(f, from, to).0.tables, n)
  {
    var src, parent, g := RenameSteps(f, from, to);
    RelinkKeepsContent(f, Resolve(f.tables.nodes, Segments(to)), g, src, parent, Last(Segments(to)), n,
                       RenameFile(f, from, to).0.tables);
  }

  lemma RelinkKeepsContent(f: Fs, victim: Option<nat>, g: Fs, src: nat, parent: nat, name: seq<byte>, n: nat,
                           after: Tables)
    requires TreeOk(f.tables.nodes) && TablesOk(f.tables) && Cleared(f, victim, g) && n in f.tables.nodes
    requires src in g.tables.nodes && after == Relink(g.tables, src, parent, name)
    ensures ContentKept(f.tables, victim, after, n)
  {
    ClearedRows(f, victim, g);
    if victim != Some(n) {
      ClearedContent(f, victim, g, n);
    }
  }

  lemma ClearedContent(f: Fs, victim: Option<nat>, g: Fs, n: nat)
    requires TreeOk(f.tables.nodes) && TablesOk(f.tables) && Cleared(f, victim, g)
    requires n in f.tables.nodes && victim != Some(n)
    ensures CurrentManifest(g.tables, n) == CurrentManifest(f.tables, n)
  {
    assert CurrentOk(f.tables, n);
    if victim.Some? {
      FileIsLeaf(f.tables.nodes, victim.value);
      DeleteLeaf(f.tables, victim.value);
    }
  }

  lemma ClearedVersions(f: Fs, victim: Option<nat>, g: Fs, v: nat)
    requires TreeOk(f.tables.nodes) && OwnersExist(f.tables) && Cleared(f, victim, g) && v in f.tables.versions
    ensures g.blobs == f.blobs
    ensures v in g.tables.versions <==> victim != Some(f.tables.versions[v].node)
    ensures v in g.tables.versions ==>
              g.tables.versions[v] == f.tables.versions[v] && ManifestAt(g.tables, v) == ManifestAt(f.tables, v)
  {
    if victim.Some? {
      FileIsLeaf(f.tables.nodes, victim.value);
      DeleteLeaf(f.tables, victim.value);
    }
  }

  /** Both paths name something other than the root, the destination is neither the source
      nor inside it, its parent is a collection, no collection is in the way, and a moved
      collection does not go deeper than the ancestor check can walk. */
  ghost predicate CanRename(f: Fs, from: seq<byte>, to: seq<byte>) {
    var nodes, s, d := f.tables.nodes, Segments(from), Segments(to);
    var source, parent, victim := Resolve(nodes, s), Resolve(nodes, if d == [] then [] else Init(d)), Resolve(nodes, d);
    && s != [] && d != [] && s != d && !(s <= Init(d))
    && source.Some? && source.value in nodes
    && parent.Some? && parent.value in nodes && nodes[parent.value].isDir
    && (victim.Some? && victim.value in nodes ==> !nodes[victim.value].isDir)
    && (nodes[source.value].isDir ==> |Init(d)| < WALK_LIMIT)
  }

  /** Exactly when a rename succeeds. */
  lemma RenameSucceedsIff(f: Fs, from: seq<byte>, to: seq<byte>)
    requires StoresOk(f)
    ensures RenameFile(f, from, to).1.Ok? <==> CanRename(f, from, to)
  {
    if RenameFile(f, from, to).1.Ok? {
      RenameSucceedsOnlyIf(f, from, to);
    }
    if CanRename(f, from, to) {
      var nodes, s, d := f.tables.nodes, Segments(from), Segments(to);
      ResolveIffAt(nodes, Init(d), Resolve(nodes, Init(d)).value);
      RenameSucceedsWhen(f, from, to, Resolve(nodes, s).value, Resolve(nodes, Init(d)).value);
    }
  }

  lemma RenameSucceedsOnlyIf(f: Fs, from: seq<byte>, to: seq<byte>)
    requires StoresOk(f) && RenameFile(f, from, to).1.Ok?
    ensures CanRename(f, from, to)
  {
    var nodes, s, d := f.tables.nodes, Segments(from), Segments(to);
    var src, parent, g := RenameSteps(f, from, to);
    ResolveIffAt(nodes, s, src);
    ResolveIffAt(nodes, Init(d), parent);
    if nodes[src].isDir {
      AncestorWalkOnTree(nodes, src, parent, WALK_LIMIT, s, Init(d));
    }
  }

  lemma MoveToSucceeds(f: Fs, src: nat, parent: nat, name: seq<byte>)
    requires StoresOk(f) && src in f.tables.nodes && parent in f.tables.nodes && f.tables.nodes[parent].isDir
    requires IntoItself(f.tables.nodes, src, parent) == Ok(false)
    requires Child(f.tables.nodes, parent, name) != Some(src)
    requires Child(f.tables.nodes, parent, name).Some? ==>
               !f.tables.nodes[Child(f.tables.nodes, parent, name).value].isDir
    ensures MoveTo(f, src, parent, name).1.Ok?
  {
    var victim := Child(f.tables.nodes, parent, name);
    if victim.Some? {
      FileIsLeaf(f.tables.nodes, victim.value);
      DeleteLeaf(f.tables, victim.value);
      var left := Clobber(f, victim.value).tables.nodes;
      forall c ensures !IsChild(left, parent, name, c) {
        assert IsChild(left, parent, name, c) ==> IsChild(f.tables.nodes, parent, name, c);
      }
    }
  }

  lemma RenameSucceedsWhen(f: Fs, from: seq<byte>, to: seq<byte>, src: nat, parent: nat)
    requires StoresOk(f) && Segments(from) != [] && Segments(to) != [] && Segments(from) != Segments(to)
    requires !(Segments(from) <= Init(Segments(to)))
    requires Resolve(f.tables.nodes, Segments(from)) == Some(src)
    requires Resolve(f.tables.nodes, Init(Segments(to))) == Some(parent)
    requires At(f.tables.nodes, Init(Segments(to)), parent) && f.tables.nodes[parent].isDir
    requires f.tables.nodes[src].isDir ==> |Init(Segments(to))| < WALK_LIMIT
    requires Resolve(f.tables.nodes, Segments(to)).Some? ==>
               !f.tables.nodes[Resolve(f.tables.nodes, Segments(to)).value].isDir
    ensures RenameFile(f, from, to).1.Ok?
  {
    var nodes, s, d := f.tables.nodes, Segments(from), Segments(to);
    FoundIsThere(f, from);
    if nodes[src].isDir {
      AncestorWalkOnTree(nodes, src, parent, WALK_LIMIT, s, Init(d));
    }
    if Child(nodes, parent, Last(d)) == Some(src) {
      ResolveIffAt(nodes, d, src);
      PathUnique(nodes, s, d, src);
    }
    MoveToSucceeds(f, src, parent, Last(d));
  }

  /** Renaming something onto itself never succeeds: a collection is left alone, but a file
      is deleted first and then reported missing. */
  lemma RenameOntoItself(f: Fs, from: seq<byte>, to: seq<byte>, id: nat)
    requires StoresOk(f) && Segments(from) == Segments(to) && Find(f, from) == Ok(id)
    ensures RenameFile(f, from, to) ==
            if id == ROOT_ID then (f, Err(Forbidden))
            else if f.tables.nodes[id].isDir then
              (f, Err(if |Segments(from)| <= WALK_LIMIT then AlreadyExists else GeneralFailure))
            else (Clobber(f, id), Err(Missing))
    ensures !f.tables.nodes[id].isDir ==> id !in RenameFile(f, from, to).0.tables.nodes
  {
    FoundIsThere(f, from);
    if id != ROOT_ID {
      var parent := OwnPlace(f.tables.nodes, Segments(from), id);
      assert RenameFile(f, from, to) == MoveTo(f, id, parent, Last(Segments(from)));
      OwnPlaceCheck(f.tables.nodes, Segments(from), id, parent);
      if !f.tables.nodes[id].isDir {
        GoneAfterClobber(f, id, parent, Last(Segments(from)));
      }
    } else {
      RootIsCollection(f.tables.nodes);
    }
  }

  lemma GoneAfterClobber(f: Fs, id: nat, parent: nat, name: seq<byte>)
    requires TreeOk(f.tables.nodes) && id in f.tables.nodes && !f.tables.nodes[id].isDir
    ensures id !in Clobber(f, id).tables.nodes
    ensures Relocate(Clobber(f, id), id, parent, name) == (Clobber(f, id), Err(Missing))
  {
    FileIsLeaf(f.tables.nodes, id);
    DeleteLeaf(f.tables, id);
  }

  lemma OwnPlace(nodes: Nodes, s: Path, id: nat) returns (parent: nat)
    requires TreeOk(nodes) && At(nodes, s, id) && id != ROOT_ID
    ensures s != [] && Resolve(nodes, Init(s)) == Some(parent) && parent in nodes && nodes[parent].isDir
    ensures At(nodes, Init(s), parent) && Child(nodes, parent, Last(s)) == Some(id)
  {
    assert LinkOk(nodes, id);
    parent := nodes[id].parent.value;
    ResolveIffAt(nodes, Init(s), parent);
    assert IsChild(nodes, parent, Last(s), id);
  }

  lemma OwnPlaceCheck(nodes: Nodes, s: Path, id: nat, parent: nat)
    requires TreeOk(nodes) && At(nodes, s, id) && s != [] && At(nodes, Init(s), parent)
    ensures IntoItself(nodes, id, parent) ==
            if nodes[id].isDir && |s| > WALK_LIMIT then Err(GeneralFailure) else Ok(false)
  {
    AncestorWalkOnTree(nodes, id, parent, WALK_LIMIT, s, Init(s));
  }

  /** A file renamed onto its own path. */
  ghost predicate FileOntoItself(f: Fs, from: seq<byte>, to: seq<byte>) {
    && Segments(from) == Segments(to)
    && Find(f, from).Ok? && Find(f, from).value in f.tables.nodes && !f.tables.nodes[Find(f, from).value].isDir
  }

  /** A move that clears its destination fails afterwards only when that was the source. */
  lemma FailedMoveClearsSource(f: Fs, src: nat, parent: nat, name: seq<byte>)
    requires StoresOk(f) && src in f.tables.nodes && parent in f.tables.nodes && f.tables.nodes[parent].isDir
    requires MoveTo(f, src, parent, name).1.Err? && MoveTo(f, src, parent, name).0 != f
    ensures Child(f.tables.nodes, parent, name) == Some(src)
  {
    if Child(f.tables.nodes, parent, name) != Some(src) {
      MoveToSucceeds(f, src, parent, name);
    }
  }

  /** A failed rename leaves everything as it was, except exactly when a file is renamed onto
      its own path. */
  lemma FailedRenameIsCleanIff(f: Fs, from: seq<byte>, to: seq<byte>)
    requires StoresOk(f) && RenameFile(f, from, to).1.Err?
    ensures RenameFile(f, from, to).0 == f <==> !FileOntoItself(f, from, to)
  {
    if FileOntoItself(f, from, to) {
      OntoItselfChanges(f, from, to);
    } else if RenameFile(f, from, to).0 != f {
      var (parent, name) := Target(f.tables.nodes, to).value;
      var src := Find(f, from).value;
      FoundIsThere(f, from);
      TargetIsPlace(f.tables.nodes, to);
      assert RenameFile(f, from, to) == MoveTo(f, src, parent, name);
      FailedMoveClearsSource(f, src, parent, name);
      ClearedSourceIsItself(f, from, to, src, parent);
    }
  }

  lemma OntoItselfChanges(f: Fs, from: seq<byte>, to: seq<byte>)
    requires StoresOk(f) && FileOntoItself(f, from, to)
    ensures RenameFile(f, from, to).0 != f
  {
    RenameOntoItself(f, from, to, Find(f, from).value);
  }

  lemma ClearedSourceIsItself(f: Fs, from: seq<byte>, to: seq<byte>, src: nat, parent: nat)
    requires StoresOk(f) && Find(f, from) == Ok(src) && src in f.tables.nodes && Segments(to) != []
    requires At(f.tables.nodes, Init(Segments(to)), parent)
    requires Child(f.tables.nodes, parent, Last(Segments(to))) == Some(src)
    ensures Segments(from) == Segments(to)
  {
    FoundIsThere(f, from);
    PathUnique(f.tables.nodes, Segments(from), Segments(to), src);
  }

  // ---- Renaming and the index ----

  /** The file keeps being indexable, or keeps not being so, or has no document either way. */
  ghost predicate KeepsIndexability(n: Node, name: seq<byte>) {
    || n.isDir
    || n.current.None?
    || n.size > MAX_INDEX_BYTES
    || IsIndexableName(n.name) == IsIndexableName(name)
  }

  ghost predicate RenameSafe(f: Fs, from: seq<byte>, to: seq<byte>) {
    var src := Resolve(f.tables.nodes, Segments(from));
    src.Some? && src.value in f.tables.nodes && Segments(to) != [] ==>
      KeepsIndexability(f.tables.nodes[src.value], Last(Segments(to)))
  }

  lemma RelinkKeepsStores(f: Fs, src: nat, parent: nat, name: seq<byte>, s: Path, d: Path)
    requires StoresOk(f) && NameOk(name)
    requires At(f.tables.nodes, s, src) && s != [] && At(f.tables.nodes, d, parent) && !(s <= d)
    requires f.tables.nodes[parent].isDir
    requires forall c :: IsChild(f.tables.nodes, parent, name, c) ==> c == src
    ensures StoresOk(f.(tables := Relink(f.tables, src, parent, name)))
  {
    var t := Relink(f.tables, src, parent, name);
    assert TreeOk(t.nodes) by {
      MoveKeepsTree(f.tables.nodes, src, parent, name, s, d);
    }
    assert Rename(f.tables, src, parent, name).0 == t;
    assert TablesOk(t) by {
      RenameKeepsOk(f.tables, src, parent, name);
    }
    assert NothingDangles(f.blobs, t) by {
      UnguardedAddsNoReference(f.tables, RenameOp(src, parent, name));
    }
  }

  lemma RelinkAgreesIff(f: Fs, src: nat, parent: nat, name: seq<byte>)
    requires IndexAgrees(f) && src in f.tables.nodes
    ensures IndexAgrees(f.(tables := Relink(f.tables, src, parent, name))) <==>
            KeepsIndexability(f.tables.nodes[src], name)
  {
    var g := f.(tables := Relink(f.tables, src, parent, name));
    assert AgreesAt(f, src);
    assert AgreesAt(g, src) <==> KeepsIndexability(f.tables.nodes[src], name);
    forall other: nat | other != src ensures AgreesAt(g, other) {
      assert AgreesAt(f, other);
      SameDocumentAgrees(f, g, other);
    }
  }

  /** A rename keeps the stores sound. It keeps the index in agreement exactly when it does
      not change whether a document is due; a failed one always does. */
  lemma RenameKeeps(f: Fs, from: seq<byte>, to: seq<byte>)
    requires StoresOk(f)
    ensures StoresOk(RenameFile(f, from, to).0)
    ensures IndexAgrees(f) && RenameFile(f, from, to).1.Ok? ==>
              (IndexAgrees(RenameFile(f, from, to).0) <==> RenameSafe(f, from, to))
    ensures IndexAgrees(f) && RenameFile(f, from, to).1.Err? ==> IndexAgrees(RenameFile(f, from, to).0)
  {
    if RenameFile(f, from, to).1.Ok? {
      var src, parent, g := RenameSteps(f, from, to);
      SuccessfulRenameKeeps(f, from, to, src, parent, g);
    } else {
      FailedRenameKeeps(f, from, to);
    }
  }

  lemma SuccessfulRenameKeeps(f: Fs, from: seq<byte>, to: seq<byte>, src: nat, parent: nat, g: Fs)
    requires StoresOk(f) && Segments(from) != [] && Segments(to) != [] && NameOk(Last(Segments(to)))
    requires At(f.tables.nodes, Segments(from), src) && At(f.tables.nodes, Init(Segments(to)), parent)
    requires !(Segments(from) <= Init(Segments(to))) && f.tables.nodes[parent].isDir
    requires Resolve(f.tables.nodes, Segments(to)) == Child(f.tables.nodes, parent, Last(Segments(to))) != Some(src)
    requires Cleared(f, Resolve(f.tables.nodes, Segments(to)), g)
    ensures src in g.tables.nodes && g.tables.nodes[src] == f.tables.nodes[src]
    ensures var after := g.(tables := Relink(g.tables, src, parent, Last(Segments(to))));
      StoresOk(after) && (IndexAgrees(f) ==> (IndexAgrees(after) <==> RenameSafe(f, from, to)))
  {
    var nodes, s, d := f.tables.nodes, Segments(from), Segments(to);
    var victim, name := Resolve(nodes, d), Last(d);
    ClearedKeeps(f, victim, g);
    ClearedRows(f, victim, g);
    NotTheVictim(nodes, Init(d), parent, to);
    ClearedPaths(f, victim, g, s, src);
    ClearedPaths(f, victim, g, Init(d), parent);
    forall c ensures !IsChild(g.tables.nodes, parent, name, c) {
      assert IsChild(g.tables.nodes, parent, name, c) ==> IsChild(nodes, parent, name, c);
    }
    RelinkKeepsStores(g, src, parent, name, s, Init(d));
    if IndexAgrees(f) {
      RelinkAgreesIff(g, src, parent, name);
      ResolveIffAt(nodes, s, src);
    }
  }

  lemma ClearedRows(f: Fs, victim: Option<nat>, g: Fs)
    requires TreeOk(f.tables.nodes) && Cleared(f, victim, g)
    ensures forall n :: n in g.tables.nodes <==> n in f.tables.nodes && victim != Some(n)
    ensures forall n :: n in g.tables.nodes ==> g.tables.nodes[n] == f.tables.nodes[n]
  {
    if victim.Some? {
      FileIsLeaf(f.tables.nodes, victim.value);
      DeleteLeaf(f.tables, victim.value);
    }
  }

  lemma FailedRenameKeeps(f: Fs, from: seq<byte>, to: seq<byte>)
    requires StoresOk(f) && RenameFile(f, from, to).1.Err?
    ensures var after := RenameFile(f, from, to).0;
      StoresOk(after) && (IndexAgrees(f) ==> IndexAgrees(after))
  {
    var victim := FailedRenameLeaves(f, from, to);
    ClearedKeeps(f, victim, RenameFile(f, from, to).0);
  }

  /** A failed rename has done nothing, or has only cleared the destination. */
  lemma FailedRenameLeaves(f: Fs, from: seq<byte>, to: seq<byte>) returns (victim: Option<nat>)
    requires RenameFile(f, from, to).1.Err?
    ensures Cleared(f, victim, RenameFile(f, from, to).0)
  {
    victim := None;
    if RenameFile(f, from, to).0 != f {
      var (parent, name) := Target(f.tables.nodes, to).value;
      victim := Child(f.tables.nodes, parent, name);
    }
  }

  // ---- Whole runs ----

  datatype FsCall =
    | CreateCall(path: seq<byte>, isDir: bool)
    | FlushCall(id: nat, pieces: seq<seq<byte>>)
    | DeleteFileCall(path: seq<byte>)
    | DeleteDirCall(path: seq<byte>)
    | RenameCall(from: seq<byte>, to: seq<byte>)
    | CopyCall(from: seq<byte>, to: seq<byte>)
    | RevertCall(path: seq<byte>, number: nat)
    | PruneCall(path: seq<byte>, number: nat)
    | CollectCall(listed: seq<Hash>, failing: set<Hash>)

  ghost function Perform(f: Fs, call: FsCall): Fs {
    match call
    case CreateCall(path, isDir) => Create(f, path, isDir).0
    case FlushCall(id, pieces) => Flush(f, id, pieces).0
    case DeleteFileCall(path) => DeleteFile(f, path).0
    case DeleteDirCall(path) => DeleteDir(f, path).0
    case RenameCall(from, to) => RenameFile(f, from, to).0
    case CopyCall(from, to) => CopyFile(f, from, to).0
    case RevertCall(path, number) => Revert(f, path, number).0
    case PruneCall(path, number) => Prune(f, path, number).0
    case CollectCall(listed, failing) => Collect(f, listed, failing).0
  }

  /** What the chunker and the directory scan may hand over. */
  ghost predicate Possible(f: Fs, call: FsCall) {
    && (call.FlushCall? ==> Chunked(call.pieces))
    && (call.CollectCall? ==> Listing(f.blobs, call.listed))
  }

  /** What every call keeps, a rename only the first half unless it is safe. */
  ghost predicate Keeps(f: Fs, g: Fs) {
    StoresOk(g) && (IndexAgrees(f) ==> IndexAgrees(g))
  }

  lemma AddingCallKeeps(f: Fs, call: FsCall)
    requires StoresOk(f) && Possible(f, call)
    requires call.CreateCall? || call.FlushCall? || call.CopyCall? || call.RevertCall?
    ensures Keeps(f, Perform(f, call))
  {
    match call
    case CreateCall(path, isDir) => CreateKeeps(f, path, isDir);
    case FlushCall(id, pieces) => FlushKeeps(f, id, pieces);
    case CopyCall(from, to) => CopyKeeps(f, from, to);
    case RevertCall(path, number) => RevertKeeps(f, path, number);
  }

  lemma RemovingCallKeeps(f: Fs, call: FsCall)
    requires StoresOk(f) && Possible(f, call)
    requires call.DeleteFileCall? || call.DeleteDirCall? || call.PruneCall? || call.CollectCall?
    ensures Keeps(f, Perform(f, call))
  {
    match call
    case DeleteFileCall(path) => DeleteFileKeeps(f, path);
    case DeleteDirCall(path) => DeleteDirKeeps(f, path);
    case PruneCall(path, number) => PruneKeeps(f, path, number);
    case CollectCall(listed, failing) => CollectKeeps(f, listed, failing);
  }

  lemma RenameCallKeeps(f: Fs, from: seq<byte>, to: seq<byte>)
    requires StoresOk(f)
    ensures StoresOk(RenameFile(f, from, to).0)
    ensures RenameSafe(f, from, to) ==> Keeps(f, RenameFile(f, from, to).0)
  {
    RenameKeeps(f, from, to);
  }

  lemma CallKeeps(f: Fs, call: FsCall)
    requires StoresOk(f) && Possible(f, call)
    ensures StoresOk(Perform(f, call))
    ensures (call.RenameCall? ==> RenameSafe(f, call.from, call.to)) ==> Keeps(f, Perform(f, call))
  {
    if call.RenameCall? {
      RenameCallKeeps(f, call.from, call.to);
    } else if call.CreateCall? || call.FlushCall? || call.CopyCall? || call.RevertCall? {
      AddingCallKeeps(f, call);
    } else {
      RemovingCallKeeps(f, call);
    }
  }

  ghost function RunCalls(f: Fs, calls: seq<FsCall>): Fs {
    if calls == [] then f else Perform(RunCalls(f, Init(calls)), Last(calls))
  }

  ghost predicate AllPossible(f: Fs, calls: seq<FsCall>) {
    forall i :: 0 <= i < |calls| ==> Possible(RunCalls(f, calls[..i]), calls[i])
  }

  /** Every rename of the run keeps indexability at the moment it is performed. */
  ghost predicate RenamesSafe(f: Fs, calls: seq<FsCall>) {
    forall i :: 0 <= i < |calls| && calls[i].RenameCall? ==>
      RenameSafe(RunCalls(f, calls[..i]), calls[i].from, calls[i].to)
  }

  lemma RunInit(f: Fs, calls: seq<FsCall>)
    requires calls != [] && AllPossible(f, calls)
    ensures AllPossible(f, Init(calls)) && Possible(RunCalls(f, Init(calls)), Last(calls))
    ensures RenamesSafe(f, calls) ==> RenamesSafe(f, Init(calls))
    ensures RenamesSafe(f, calls) && Last(calls).RenameCall? ==>
              RenameSafe(RunCalls(f, Init(calls)), Last(calls).from, Last(calls).to)
  {
    forall i | 0 <= i < |Init(calls)| ensures Init(calls)[..i] == calls[..i] && Init(calls)[i] == calls[i] {
    }
    assert calls[..|calls| - 1] == Init(calls);
  }

  lemma FreshFsIsOk()
    ensures StoresOk(FRESH_FS) && IndexAgrees(FRESH_FS)
  {
    var nodes := FRESH_TABLES.nodes;
    assert At(nodes, [], ROOT_ID);
    assert LinkOk(nodes, ROOT_ID);
  }

  /** Every reachable namespace is one tree over sound stores. After any sequence of
      operations on a fresh filesystem, successful or not, whatever paths and handles they
      name: all nodes reach the root, sibling names are unique and proper, only collections
      have children, every node's size and current version are right, and every blob a
      version needs is there. */
  lemma {:induction false} RunKeepsStores(calls: seq<FsCall>)
    requires AllPossible(FRESH_FS, calls)
    ensures StoresOk(RunCalls(FRESH_FS, calls))
  {
    if calls == [] {
      FreshFsIsOk();
    } else {
      RunInit(FRESH_FS, calls);
      RunKeepsStores(Init(calls));
      CallKeeps(RunCalls(FRESH_FS, Init(calls)), Last(calls));
    }
  }

  /** Index agreement over whole runs whose renames keep indexability, node-id reuse
      included. */
  lemma {:induction false} RunKeepsAgreement(calls: seq<FsCall>)
    requires AllPossible(FRESH_FS, calls) && RenamesSafe(FRESH_FS, calls)
    ensures IndexAgrees(RunCalls(FRESH_FS, calls))
  {
    if calls == [] {
      FreshFsIsOk();
    } else {
      RunInit(FRESH_FS, calls);
      RunKeepsStores(Init(calls));
      RunKeepsAgreement(Init(calls));
      CallKeeps(RunCalls(FRESH_FS, Init(calls)), Last(calls));
    }
  }
}
