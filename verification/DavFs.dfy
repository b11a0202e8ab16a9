// The filesystem over the three stores (vfs crate, davfs.rs): each operation, run on its
// own, has exactly the effect and the result that its specification gives.
module DavFs {
  import opened Base
  import opened Manifests
  import opened BlobStores
  import opened Paths
  import opened FileNames
  import opened MetaTables
  import opened Namespace
  import opened VersionHistory
  import opened References
  import opened Sweeps
  import Fs = FsModel
  import opened FsTheorems
  import opened Inners
  import opened Files
  import Searches

  type FsOutcome<T> = Fs.FsOutcome<T>

  /** A handle as opened. */
  datatype Opened = Opened(node: nat, pos: nat, state: State)

  datatype OpenOptions = OpenOptions(write: bool, append: bool, truncate: bool, create: bool, createNew: bool)

  function Discard<T>(r: FsOutcome<T>): FsOutcome<()> {
    match r
    case Ok(_) => Ok(())
    case Err(e) => Err(e)
  }

  function IoToFs(e: IoError): Fs.FsError {
    if e.BlobMissing? then Fs.Missing else Fs.GeneralFailure
  }

  function StagingOf(content: seq<byte>, append: bool, dirty: bool): State {
    WriteState(content, |content|, append, dirty)
  }

  /** Opening a file whose node exists. */
  ghost function OpenExisting(f: Fs.Fs, id: nat, o: OpenOptions, room: nat): FsOutcome<Opened>
    requires id in f.tables.nodes
  {
    if f.tables.nodes[id].isDir then Err(Fs.Forbidden)
    else if o.createNew then Err(Fs.AlreadyExists)
    else if o.write && o.truncate then Ok(Opened(id, 0, StagingOf([], o.append, true)))
    else match CurrentManifest(f.tables, id)
      case Err(e) => Err(Fs.MetaToFs(e))
      case Ok(m) =>
        if !o.write then Ok(Opened(id, 0, ReadState(m, None)))
        else if m.totalSize > Min(room, MAX_FILE) then Err(Fs.GeneralFailure)
        else Ok(Opened(id, if o.append then m.totalSize else 0, StagingOf(Content(m), o.append, false)))
  }

  /** Opening a path, which may create the file. */
  ghost function OpenFile(f: Fs.Fs, path: seq<byte>, o: OpenOptions, room: nat): (Fs.Fs, FsOutcome<Opened>) {
    match Fs.Target(f.tables.nodes, path)
    case Err(e) => (f, Err(e))
    case Ok((parent, name)) =>
      match Child(f.tables.nodes, parent, name)
      case Some(id) => (f, OpenExisting(f, id, o, room))
      case None =>
        if !o.create && !o.createNew then (f, Err(Fs.Missing))
        else
          var (g, created) := Fs.Create(f, path, false);
          (g, match created
              case Err(e) => Err(e)
              case Ok(id) => Ok(Opened(id, 0, StagingOf([], false, o.truncate))))
  }

  /** A path that was opened names the node it was opened on. */
  lemma OpenedIsAtPath(f: Fs.Fs, path: seq<byte>, o: OpenOptions, room: nat)
    requires StoresOk(f) && OpenFile(f, path, o, room).1.Ok?
    ensures var (g, handle) := OpenFile(f, path, o, room);
      && StoresOk(g) && (IndexAgrees(f) ==> IndexAgrees(g))
      && handle.value.node in g.tables.nodes && StateOk(handle.value.state)
      && Namespace.Resolve(g.tables.nodes, Segments(path)) == Some(handle.value.node)
  {
    TargetIsPlace(f.tables.nodes, path);
    var (parent, name) := Fs.Target(f.tables.nodes, path).value;
    ResolveIffAt(f.tables.nodes, Init(Segments(path)), parent);
    if Child(f.tables.nodes, parent, name).Some? {
      LoadedIfOk(f, Child(f.tables.nodes, parent, name).value);
    } else {
      CreatedIsAtPath(f, path, parent);
    }
  }

  lemma CreatedIsAtPath(f: Fs.Fs, path: seq<byte>, parent: nat)
    requires StoresOk(f) && Fs.Create(f, path, false).1.Ok? && Segments(path) != []
    requires At(f.tables.nodes, Init(Segments(path)), parent)
    requires Fs.Target(f.tables.nodes, path) == Ok((parent, Last(Segments(path))))
    ensures var (g, id) := Fs.Create(f, path, false);
      && StoresOk(g) && (IndexAgrees(f) ==> IndexAgrees(g))
      && id.value in g.tables.nodes
      && Namespace.Resolve(g.tables.nodes, Segments(path)) == Some(id.value)
  {
    var (g, id) := Fs.Create(f, path, false);
    CreateKeeps(f, path, false);
    CreatedPath(f.tables.nodes, id.value, g.tables.nodes[id.value], Segments(path));
    ResolveIffAt(g.tables.nodes, Segments(path), id.value);
  }

  lemma CreatedPath(nodes: Nodes, id: nat, node: Node, d: Path)
    requires d != [] && id !in nodes && ParentsExist(nodes)
    requires node.parent.Some? && At(nodes, Init(d), node.parent.value) && node.name == Last(d)
    ensures At(nodes[id := node], d, id)
  {
    InsertedPaths(nodes, id, node, Init(d), d, id);
    assert d == Init(d) + [Last(d)];
  }

  /** A node's content, if it can be loaded at all, is a stored file with every blob there. */
  ghost predicate Loadable(f: Fs.Fs, id: nat) {
    CurrentManifest(f.tables, id).Ok? ==>
      Stored(CurrentManifest(f.tables, id).value) && Hashes(CurrentManifest(f.tables, id).value) <= f.blobs.Keys
  }

  lemma LoadedIfOk(f: Fs.Fs, id: nat)
    requires StoresOk(f)
    ensures Loadable(f, id)
  {
    if CurrentManifest(f.tables, id).Ok? {
      LoadedIsPresent(f, id);
    }
  }

  class DavFs {
    const inner: Inner

    constructor (inner: Inner)
      ensures this.inner == inner
    {
      this.inner := inner;
    }

    method Resolve(path: seq<byte>) returns (r: FsOutcome<nat>)
      requires inner.meta.Valid()
      ensures r == Fs.Find(inner.Snapshot(), path)
    {
      var found := inner.meta.LookupPath(Segments(path));
      return Fs.FromMeta(found);
    }

    /** The collection a path to be created or replaced lies in, and its last name. */
    method ParentOf(path: seq<byte>) returns (r: FsOutcome<(nat, seq<byte>)>)
      requires inner.meta.Valid()
      ensures r == Fs.Target(inner.meta.nodes, path)
    {
      var segments := Segments(path);
      if segments == [] {
        return Err(Fs.Forbidden);
      }
      var parent := inner.meta.LookupPath(Init(segments));
      if parent.Err? {
        return Err(Fs.MetaToFs(parent.error));
      }
      if parent.value !in inner.meta.nodes || !inner.meta.nodes[parent.value].isDir {
        return Err(Fs.Forbidden);
      }
      return Ok((parent.value, Last(segments)));
    }

    // ---- Creating and deleting ----

    method CreateDir(path: seq<byte>) returns (r: FsOutcome<()>)
      requires inner.Valid()
      modifies inner.meta
      ensures inner.Valid()
      ensures var (f, created) := Fs.Create(old(inner.Snapshot()), path, true);
        inner.Snapshot() == f && r == Discard(created)
    {
      CreateKeeps(inner.Snapshot(), path, true);
      var target := ParentOf(path);
      if target.Err? {
        return Err(target.error);
      }
      var created := inner.meta.InsertNode(target.value.0, target.value.1, true);
      return Discard(Fs.FromMeta(created));
    }

    method RemoveDir(path: seq<byte>) returns (r: FsOutcome<()>)
      requires inner.Valid()
      modifies inner.meta
      ensures inner.Valid()
      ensures (inner.Snapshot(), r) == Fs.DeleteDir(old(inner.Snapshot()), path)
    {
      DeleteDirKeeps(inner.Snapshot(), path);
      var id := Resolve(path);
      if id.Err? {
        return Err(id.error);
      }
      if id.value == ROOT_ID {
        return Err(Fs.Forbidden);
      }
      var removed := inner.meta.RemoveDir(id.value);
      return Fs.FromMeta(removed);
    }

    method RemoveFile(path: seq<byte>) returns (r: FsOutcome<()>)
      requires inner.Valid()
      modifies inner.meta, inner.index
      ensures inner.Valid()
      ensures (inner.Snapshot(), r) == Fs.DeleteFile(old(inner.Snapshot()), path)
    {
      DeleteFileKeeps(inner.Snapshot(), path);
      var id := Resolve(path);
      if id.Err? {
        return Err(id.error);
      }
      if id.value !in inner.meta.nodes {
        return Err(Fs.Missing);
      }
      var node := inner.meta.nodes[id.value];
      var removed := inner.meta.RemoveFile(id.value);
      if removed.Err? {
        return Fs.FromMeta(removed);
      }
      if IsIndexableName(node.name) {
        inner.Deindex(id.value);
      }
      return Ok(());
    }

    // ---- Opening ----

    /** `room` is how many bytes the disk takes for a staging file. */
    method Open(path: seq<byte>, o: OpenOptions, room: nat) returns (r: FsOutcome<FileHandle>)
      requires inner.Valid()
      modifies inner.meta
      ensures inner.Valid()
      ensures var (f, handle) := OpenFile(old(inner.Snapshot()), path, o, room);
        && inner.Snapshot() == f
        && (handle.Err? ==> r == Err(handle.error))
        && (handle.Ok? ==> r.Ok? && fresh(r.value) && r.value.inner == inner && r.value.Valid()
                           && handle.value == Opened(r.value.node, r.value.pos, r.value.state))
    {
      CreateKeeps(inner.Snapshot(), path, false);
      var target := ParentOf(path);
      if target.Err? {
        return Err(target.error);
      }
      var (parent, name) := target.value;
      var child := inner.meta.LookupChild(parent, name);
      if child.Some? {
        LoadedIfOk(inner.Snapshot(), child.value);
        r := OpenNode(child.value, o, room);
        return;
      }
      if !o.create && !o.createNew {
        return Err(Fs.Missing);
      }
      var created := inner.meta.InsertNode(parent, name, false);
      if created.Err? {
        return Err(Fs.MetaToFs(created.error));
      }
      var handle := FileHandle.NewWrite(inner, created.value, false, None, o.truncate, room);
      return Ok(handle.value);
    }

    method OpenNode(id: nat, o: OpenOptions, room: nat) returns (r: FsOutcome<FileHandle>)
      requires id in inner.meta.nodes && inner.blobs.Valid() && Loadable(inner.Snapshot(), id)
      ensures var handle := OpenExisting(inner.Snapshot(), id, o, room);
        && (handle.Err? ==> r == Err(handle.error))
        && (handle.Ok? ==> r.Ok? && fresh(r.value) && r.value.inner == inner && r.value.Valid()
                           && handle.value == Opened(r.value.node, r.value.pos, r.value.state))
    {
      if inner.meta.nodes[id].isDir {
        return Err(Fs.Forbidden);
      }
      if o.createNew {
        return Err(Fs.AlreadyExists);
      }
      var existing := None;
      if !o.write || !o.truncate {
        var loaded := inner.meta.LoadManifest(id);
        if loaded.Err? {
          return Err(Fs.MetaToFs(loaded.error));
        }
        existing := Some(loaded.value);
      }
      if !o.write {
        var reader := new FileHandle.NewRead(inner, id, existing.value);
        return Ok(reader);
      }
      var writer := FileHandle.NewWrite(inner, id, o.append, existing, o.truncate, room);
      if writer.Err? {
        return Err(IoToFs(writer.error));
      }
      return Ok(writer.value);
    }

    // ---- Renaming ----

    method Rename(from: seq<byte>, to: seq<byte>) returns (r: FsOutcome<()>)
      requires inner.Valid()
      modifies inner.meta, inner.index
      ensures inner.Valid()
      ensures (inner.Snapshot(), r) == Fs.RenameFile(old(inner.Snapshot()), from, to)
    {
      RenameKeeps(inner.Snapshot(), from, to);
      var src := Resolve(from);
      if src.Err? {
        return Err(src.error);
      }
      if src.value == ROOT_ID {
        return Err(Fs.Forbidden);
      }
      var target := ParentOf(to);
      if target.Err? {
        return Err(target.error);
      }
      r := MoveTo(src.value, target.value.0, target.value.1);
    }

    method MoveTo(src: nat, parent: nat, name: seq<byte>) returns (r: FsOutcome<()>)
      requires inner.meta.Valid() && inner.index.pending == inner.index.committed
      modifies inner.meta, inner.index
      ensures inner.index.pending == inner.index.committed
      ensures (inner.Snapshot(), r) == Fs.MoveTo(old(inner.Snapshot()), src, parent, name)
    {
      var inside := PutsIntoItself(src, parent);
      if inside.Err? {
        return Err(inside.error);
      }
      if inside.value {
        return Err(Fs.Forbidden);
      }
      var existing := inner.meta.LookupChild(parent, name);
      if existing.Some? {
        var victim := inner.meta.nodes[existing.value];
        if victim.isDir {
          return Err(Fs.AlreadyExists);
        }
        var removed := inner.meta.RemoveFile(existing.value);
        if IsIndexableName(victim.name) {
          inner.Deindex(existing.value);
        }
      }
      var moved := inner.meta.Rename(src, parent, name);
      return Fs.FromMeta(moved);
    }

    method PutsIntoItself(src: nat, parent: nat) returns (r: FsOutcome<bool>)
      ensures r == Fs.IntoItself(inner.meta.nodes, src, parent)
    {
      if src in inner.meta.nodes && inner.meta.nodes[src].isDir {
        var above := inner.meta.IsAncestorOrSelf(src, parent);
        return Fs.FromMeta(above);
      }
      return Ok(false);
    }

    // ---- Copying and reverting ----

    /** Makes a stored manifest the content of a node and re-indexes it. */
    method Refer(id: nat, source: Source) returns (r: Outcome<()>)
      requires inner.Usable()
      requires TablesOk(Fs.Reference(inner.Snapshot(), id, Loaded(inner.meta.State(), source)).0.tables)
      modifies inner.meta, inner.index
      ensures inner.Usable()
      ensures (inner.Snapshot(), Fs.FromMeta(r)) ==
              Fs.Reference(old(inner.Snapshot()), id, Loaded(old(inner.meta.State()), source))
    {
      r := inner.ReferenceUnderGuard(id, source);
      if r.Ok? {
        inner.Reindex(id);
      }
    }

    method Copy(from: seq<byte>, to: seq<byte>) returns (r: FsOutcome<()>)
      requires inner.Valid()
      modifies inner.meta, inner.index
      ensures inner.Valid()
      ensures (inner.Snapshot(), r) == Fs.CopyFile(old(inner.Snapshot()), from, to)
    {
      CopyKeeps(inner.Snapshot(), from, to);
      var src := Resolve(from);
      if src.Err? {
        return Err(src.error);
      }
      var target := ParentOf(to);
      if target.Err? {
        return Err(target.error);
      }
      var (parent, name) := target.value;
      var inside := PutsIntoItself(src.value, parent);
      if inside.Err? {
        return Err(inside.error);
      }
      if inside.value {
        return Err(Fs.Forbidden);
      }
      if src.value !in inner.meta.nodes {
        return Err(Fs.Missing);
      }
      r := CopyOnto(src.value, parent, name);
    }

    method CopyOnto(src: nat, parent: nat, name: seq<byte>) returns (r: FsOutcome<()>)
      requires inner.Usable() && src in inner.meta.nodes
      requires StoresOk(Fs.CopyOnto(inner.Snapshot(), src, parent, name).0)
      modifies inner.meta, inner.index
      ensures inner.Usable()
      ensures (inner.Snapshot(), r) == Fs.CopyOnto(old(inner.Snapshot()), src, parent, name)
    {
      var node := inner.meta.nodes[src];
      var existing := inner.meta.LookupChild(parent, name);
      if existing.Some? && inner.meta.nodes[existing.value].isDir != node.isDir {
        return Err(Fs.AlreadyExists);
      }
      var target;
      if existing.Some? {
        target := existing.value;
        if node.isDir {
          return Ok(());
        }
      } else {
        InsertKeepsOk(inner.meta.State(), parent, name, node.isDir);
        var created := inner.meta.InsertNode(parent, name, node.isDir);
        if created.Err? {
          return Err(Fs.MetaToFs(created.error));
        }
        target := created.value;
        if node.isDir || node.current.None? {
          return Ok(());
        }
      }
      var referred := Refer(target, CurrentContent(src));
      return Fs.FromMeta(referred);
    }

    /** The file at a path, for the version operations. */
    method ResolveFile(path: seq<byte>) returns (r: Outcome<nat>)
      requires inner.meta.Valid()
      ensures r == Fs.FileAt(inner.Snapshot(), path)
    {
      var found := inner.meta.LookupPath(Segments(path));
      if found.Ok? && found.value in inner.meta.nodes && inner.meta.nodes[found.value].isDir {
        return Err(IsADirectory);
      }
      return found;
    }

    method RevertToVersion(path: seq<byte>, number: nat) returns (r: Outcome<()>)
      requires inner.Valid()
      modifies inner.meta, inner.index
      ensures inner.Valid()
      ensures (inner.Snapshot(), r) == Fs.Revert(old(inner.Snapshot()), path, number)
    {
      RevertKeeps(inner.Snapshot(), path, number);
      var id := ResolveFile(path);
      if id.Err? {
        return Err(id.error);
      }
      var version := inner.meta.VersionByNumber(id.value, number);
      if version.Err? {
        return Err(version.error);
      }
      r := Refer(id.value, VersionContent(version.value));
    }

    method PruneVersion(path: seq<byte>, number: nat) returns (r: Outcome<()>)
      requires inner.Valid()
      modifies inner.meta
      ensures inner.Valid()
      ensures (inner.Snapshot(), r) == Fs.Prune(old(inner.Snapshot()), path, number)
    {
      PruneKeeps(inner.Snapshot(), path, number);
      var id := ResolveFile(path);
      if id.Err? {
        return Err(id.error);
      }
      r := inner.meta.DeleteVersion(id.value, number);
    }

    /** A version's recorded size and the manifest its bytes are streamed from. */
    method OpenVersion(path: seq<byte>, number: nat) returns (r: Outcome<(nat, Manifest)>)
      requires inner.Valid()
      ensures match Namespace.Resolve(inner.meta.nodes, Segments(path))
              case None => r == Err(NotFound)
              case Some(id) =>
                if id in inner.meta.nodes && inner.meta.nodes[id].isDir then r == Err(IsADirectory)
                else match Recorded(inner.meta.State(), id, number)
                  case None => r == Err(NotFound)
                  case Some(m) => Stored(m) && r == Ok((|Content(m)|, m)) && Hashes(m) <= inner.blobs.blobs.Keys
    {
      var id := ResolveFile(path);
      if id.Err? {
        return Err(id.error);
      }
      var version := inner.meta.VersionByNumber(id.value, number);
      if version.Err? {
        return Err(version.error);
      }
      var m := inner.meta.ReadManifest(version.value);
      ManifestHashesAreReferenced(inner.meta.State(), version.value);
      return Ok((inner.meta.versions[version.value].size, m));
    }

    // ---- Searching ----

    /** `ranked` is every match of the query in the committed index, best first. The answer
        is exactly the first `limit` relevant ones among the hits fetched; it is refused
        only when the scope or a hit lies deeper than the walk limit. */
    method Search(ranked: map<nat, seq<byte>> -> seq<nat>, limit: nat, scope: seq<byte>)
      returns (r: Outcome<seq<seq<byte>>>)
      requires inner.Valid()
      ensures var nodes, at := inner.meta.nodes, Namespace.Resolve(inner.meta.nodes, Segments(scope));
        match at
        case None => r == Err(NotFound)
        case Some(s) =>
          var hits := First(ranked(inner.index.committed), if s == ROOT_ID then limit else 1000);
          && (r.Ok? ==> r.value == First(Searches.RelevantPaths(nodes, s, hits), limit))
          && (r.Err? ==> r == Err(Corrupt) && Searches.SomeTooDeep(nodes, [s] + hits))
    {
      ghost var nodes := inner.meta.nodes;
      var at := inner.meta.LookupPath(Segments(scope));
      if at.Err? {
        return Err(NotFound);
      }
      ResolveIffAt(nodes, Segments(scope), at.value);
      var fetch := if at.value == ROOT_ID then limit else Searches.MAX_SEARCH_FETCH;
      var hits := inner.index.Search(ranked, fetch);
      var prefix := ScopePath(at.value);
      if prefix.Err? {
        Searches.TooDeepAmong(nodes, [at.value] + hits, 0);
        return Err(prefix.error);
      }
      r := Results(hits, prefix.value, limit);
      Searches.AnswerOrTooDeep(nodes, hits, at.value, limit);
    }

    /** The prefix that scoped results must have. */
    method ScopePath(scope: nat) returns (r: Outcome<Option<seq<byte>>>)
      requires TreeOk(inner.meta.nodes) && scope in inner.meta.nodes
      ensures r.Ok? ==> r.value == Searches.ScopePrefix(inner.meta.nodes, scope)
      ensures r.Err? ==> r == Err(Corrupt) && !Searches.Shallow(inner.meta.nodes, scope)
    {
      if scope == ROOT_ID {
        return Ok(None);
      }
      WalkUpOnTree(inner.meta.nodes, scope);
      r := inner.meta.PathOf(scope);
    }

    method Results(hits: seq<nat>, prefix: Option<seq<byte>>, limit: nat) returns (r: Outcome<seq<seq<byte>>>)
      ensures r == Searches.Answer(inner.meta.nodes, hits, prefix, limit)
    {
      ghost var nodes := inner.meta.nodes;
      var results: seq<seq<byte>> := [];
      for i := 0 to |hits|
        invariant Searches.Answer(nodes, hits[..i], prefix, limit) == Ok(results)
      {
        Searches.AnswerStep(nodes, hits, prefix, limit, i, results);
        if |results| >= limit {
          Searches.LimitReached(nodes, hits, prefix, limit, i);
          return Ok(results);
        }
        var path := inner.meta.PathOf(hits[i]);
        if path.Err? {
          Searches.FailureStays(nodes, hits, prefix, limit, i + 1);
          return Err(path.error);
        }
        if path.value.Some? && (prefix.None? || IsWithin(path.value.value, prefix.value)) {
          results := results + [path.value.value];
        }
      }
      assert hits[..|hits|] == hits;
      return Ok(results);
    }

    // ---- Garbage collection ----

    /** Mark and sweep. Blobs in `unreadable` are missed by the directory scan and blobs in
        `failing` cannot be deleted; `listed` is the order in which the scan yields blobs. */
    method Gc(unreadable: set<Hash>, failing: set<Hash>) returns (stats: GcStats, ghost listed: seq<Hash>)
      requires inner.Valid()
      modifies inner.blobs
      ensures inner.Valid()
      ensures forall h :: h in listed <==> h in old(inner.blobs.blobs).Keys - unreadable
      ensures Listing(old(inner.blobs.blobs), listed)
      ensures (inner.Snapshot(), stats) == Fs.Collect(old(inner.Snapshot()), listed, failing)
      ensures inner.blobs.blobs.Keys ==
              Referenced(inner.meta.State()) + old(inner.blobs.blobs).Keys * (unreadable + failing)
      ensures stats.scanned == |listed| == stats.kept + stats.removed + stats.failed
      ensures stats.removed == |old(inner.blobs.blobs).Keys - inner.blobs.blobs.Keys|
      ensures TotalBytes(old(inner.blobs.blobs), listed) == TotalBytes(inner.blobs.blobs, listed) + stats.reclaimed
    {
      var live := inner.meta.ReferencedChunkHashes();
      var hashes := inner.blobs.ListHashes(unreadable);
      listed := hashes;
      CollectKeeps(inner.Snapshot(), hashes, failing);
      SweepLeaves(inner.blobs.blobs, live, hashes, unreadable, failing);
      SweepCounts(inner.blobs.blobs, live, hashes, failing);
      stats := Sweep(live, hashes, failing);
    }

    method Sweep(live: set<Hash>, hashes: seq<Hash>, failing: set<Hash>) returns (stats: GcStats)
      requires inner.blobs.Valid()
      modifies inner.blobs
      ensures inner.blobs.Valid()
      ensures (inner.blobs.blobs, stats) == SweepAll(old(inner.blobs.blobs), live, hashes, failing)
    {
      stats := NO_STATS;
      for i := 0 to |hashes|
        invariant inner.blobs.Valid()
        invariant (inner.blobs.blobs, stats) == SweepAll(old(inner.blobs.blobs), live, hashes[..i], failing)
      {
        assert Init(hashes[..i + 1]) == hashes[..i] && Last(hashes[..i + 1]) == hashes[i];
        stats := stats.(scanned := stats.scanned + 1);
        if hashes[i] in live {
          stats := stats.(kept := stats.kept + 1);
          continue;
        }
        var removed := inner.blobs.Remove(hashes[i], hashes[i] in failing);
        match removed {
          case Ok(bytes) =>
            stats := stats.(reclaimed := stats.reclaimed + bytes, removed := stats.removed + 1);
          case Err(_) =>
            stats := stats.(failed := stats.failed + 1);
        }
      }
      assert hashes[..|hashes|] == hashes;
    }
  }
}
