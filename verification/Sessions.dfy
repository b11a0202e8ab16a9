// What a client gets end to end: opening a path, editing, flushing, and reading back by
// each of the three readers (vfs crate, davfs.rs and file.rs; blobstore crate).
module Sessions {
  import opened Base
  import opened Manifests
  import opened BlobStores
  import opened Paths
  import opened MetaTables
  import opened References
  import opened Namespace
  import Fs = FsModel
  import opened FsTheorems
  import opened Drafts
  import opened Inners
  import opened Files
  import opened DavFs
  import opened Outcomes
  import opened Openings

  /** The node's current content is `data`, complete and at the right size. */
  ghost predicate HoldsContent(f: Fs.Fs, id: nat, data: seq<byte>) {
    var m := CurrentManifest(f.tables, id);
    && id in f.tables.nodes
    && m.Ok? && Stored(m.value) && Content(m.value) == data
    && Hashes(m.value) <= f.blobs.Keys
    && f.tables.nodes[id].size == |data|
  }

  lemma LoadedContent(f: Fs.Fs, id: nat, m: Manifest)
    requires StoresOk(f) && id in f.tables.nodes && CurrentManifest(f.tables, id) == Ok(m)
    ensures HoldsContent(f, id, Content(m)) && m.totalSize == |Content(m)|
  {
    LoadedIsPresent(f, id);
    assert CurrentOk(f.tables, id);
    EmptyIsStored();
  }

  lemma {:induction false} SeeksKeepContent(d: Draft, edits: seq<Edit>)
    requires OnlySeeks(edits)
    ensures AllEdited(d, edits).content == d.content
  {
    if edits != [] {
      assert Last(edits) in edits && forall e :: e in Init(edits) ==> e in edits;
      SeeksKeepContent(d, Init(edits));
    }
  }

  lemma FlushedContent(f: Fs.Fs, id: nat, pieces: seq<seq<byte>>)
    requires StoresOk(f) && Chunked(pieces)
    ensures Fs.Flush(f, id, pieces).1.Ok? <==> id in f.tables.nodes
    ensures Fs.Flush(f, id, pieces).1.Ok? ==> HoldsContent(Fs.Flush(f, id, pieces).0, id, Flatten(pieces))
  {
    if id in f.tables.nodes {
      ManifestOfIsStored(pieces);
      FlushCommits(f, id, pieces);
    }
  }

  lemma FlushKeepsLinks(f: Fs.Fs, id: nat, pieces: seq<seq<byte>>)
    ensures SameLinks(f.tables.nodes, Fs.Flush(f, id, pieces).0.tables.nodes)
  {
    SetContentLinks(f.tables, id, ManifestOf(pieces));
  }

  lemma StagingIsContent(content: seq<byte>, append: bool, dirty: bool)
    ensures Staged(StagingOf(content, append, dirty)) == content && Clean(StagingOf(content, append, dirty))
  {
  }

  lemma ExistingHoldsContent(f: Fs.Fs, id: nat, o: OpenOptions, room: nat)
    requires StoresOk(f) && o.write && id in f.tables.nodes && OpenExisting(f, id, o, room).Ok?
    ensures var s := OpenExisting(f, id, o, room).value.state;
      s.WriteState? && Clean(s) && (!s.dirty ==> HoldsContent(f, id, Staged(s)))
  {
    var m := CurrentManifest(f.tables, id);
    if o.truncate {
      StagingIsContent([], o.append, true);
    } else {
      LoadedContent(f, id, m.value);
      StagingIsContent(Content(m.value), o.append, false);
    }
  }

  lemma CreatedHoldsContent(f: Fs.Fs, path: seq<byte>)
    requires StoresOk(f) && Fs.Create(f, path, false).1.Ok?
    ensures HoldsContent(Fs.Create(f, path, false).0, Fs.Create(f, path, false).1.value, [])
  {
    var (g, id) := Fs.Create(f, path, false);
    assert StoresOk(g) by {
      CreateKeeps(f, path, false);
    }
    assert id.value in g.tables.nodes && g.tables.nodes[id.value].current.None? by {
      CreatedTables(f, path, false);
    }
    UnwrittenHoldsNothing(g, id.value);
  }

  lemma UnwrittenHoldsNothing(f: Fs.Fs, id: nat)
    requires StoresOk(f) && id in f.tables.nodes && f.tables.nodes[id].current.None?
    ensures HoldsContent(f, id, [])
  {
    EmptyIsStored();
    LoadedContent(f, id, EMPTY_MANIFEST);
  }

  /** A handle that was opened for writing but has nothing to commit stages exactly what the
      node holds. */
  lemma CleanOpenHoldsContent(f: Fs.Fs, path: seq<byte>, o: OpenOptions, room: nat)
    requires StoresOk(f) && o.write && OpenFile(f, path, o, room).1.Ok?
    ensures var (g, h) := OpenFile(f, path, o, room);
      && h.value.state.WriteState? && Clean(h.value.state)
      && (!h.value.state.dirty ==> HoldsContent(g, h.value.node, Staged(h.value.state)))
  {
    var (parent, name) := Fs.Target(f.tables.nodes, path).value;
    match Child(f.tables.nodes, parent, name)
    case Some(id) => ExistingHoldsContent(f, id, o, room);
    case None =>
      StagingIsContent([], false, o.truncate);
      CreatedHoldsContent(f, path);
  }

  ghost predicate OpensAndFits(h: Fs.FsOutcome<Opened>, edits: seq<Edit>, room: nat) {
    h.Ok? && h.value.state.WriteState? && AllFit(DraftOf(h.value.state, h.value.pos), edits, room)
  }

  /** Opens a path for writing, performs the edits, and flushes. It succeeds exactly if the path
      can be opened and all the edits fit; and then the path names a file whose current content
      is exactly what the edits make of the content the handle started from. */
  method Save(fs: DavFs, path: seq<byte>, o: OpenOptions, edits: seq<Edit>, room: nat) returns (r: Fs.FsOutcome<nat>)
    requires fs.inner.Valid() && o.write
    modifies fs.inner.meta, fs.inner.blobs, fs.inner.index
    ensures fs.inner.Valid()
    ensures r.Ok? ==>
      var h := OpenFile(old(fs.inner.Snapshot()), path, o, room).1;
      && h.Ok? && h.value.node == r.value && h.value.state.WriteState?
      && Namespace.Resolve(fs.inner.meta.nodes, Segments(path)) == Some(r.value)
      && HoldsContent(fs.inner.Snapshot(), r.value, AllEdited(DraftOf(h.value.state, h.value.pos), edits).content)
    ensures r.Ok? <==> OpensAndFits(OpenFile(old(fs.inner.Snapshot()), path, o, room).1, edits, room)
  {
    ghost var before := fs.inner.Snapshot();
    var handle := fs.Open(path, o, room);
    if handle.Err? {
      return Err(handle.error);
    }
    var file := handle.value;
    OpenedIsAtPath(before, path, o, room);
    CleanOpenHoldsContent(before, path, o, room);
    ghost var nodes := fs.inner.meta.nodes;
    var done := EditAndFlush(file, edits, room);
    if done.Err? {
      return Err(done.error);
    }
    SameLinksResolve(nodes, fs.inner.meta.nodes, Segments(path), file.node);
    return Ok(file.node);
  }

  method EditAndFlush(file: FileHandle, edits: seq<Edit>, room: nat) returns (r: Fs.FsOutcome<()>)
    requires file.inner.Valid() && file.Valid() && file.state.WriteState? && Clean(file.state)
    requires file.node in file.inner.meta.nodes
    requires !file.state.dirty ==> HoldsContent(file.inner.Snapshot(), file.node, Staged(file.state))
    modifies file, file.inner.meta, file.inner.blobs, file.inner.index
    ensures file.inner.Valid()
    ensures r.Ok? ==>
      && HoldsContent(file.inner.Snapshot(), file.node, AllEdited(old(DraftOf(file.state, file.pos)), edits).content)
      && SameLinks(old(file.inner.meta.nodes), file.inner.meta.nodes)
    ensures r.Ok? <==> AllFit(old(DraftOf(file.state, file.pos)), edits, room)
  {
    ghost var start := DraftOf(file.state, file.pos);
    var edited := file.Replay(edits, room);
    if edited.Err? {
      return Err(edited.error);
    }
    ghost var before, staged := file.inner.Snapshot(), Staged(file.state);
    ghost var pieces := file.PiecesFor(staged);
    if !file.state.dirty {
      SeeksKeepContent(start, edits);
    } else {
      FlushedContent(before, file.node, pieces);
      FlushKeepsLinks(before, file.node, pieces);
    }
    r := file.Flush();
  }

  // ---- The round trip ----

  const OVERWRITE := OpenOptions(true, false, true, true, false)

  lemma OverwriteStartsEmpty(f: Fs.Fs, path: seq<byte>, room: nat)
    requires StoresOk(f) && OpenFile(f, path, OVERWRITE, room).1.Ok?
    ensures var (g, h) := OpenFile(f, path, OVERWRITE, room);
      h.value.state == StagingOf([], false, true) && h.value.pos == 0 && h.value.node in g.tables.nodes
  {
    OpenedIsAtPath(f, path, OVERWRITE, room);
  }

  lemma WholeWrite(data: seq<byte>, room: nat)
    requires |data| <= Min(room, MAX_FILE)
    ensures var (t, q, r) := WriteStep(StagingOf([], false, true), 0, data, room);
      r.Ok? && t.WriteState? && t.dirty && Staged(t) == data
  {
    var s := StagingOf([], false, true);
    StagingIsContent([], false, true);
    assert data[..|data|] == data;
    WriteStepEdits(s, 0, data, room);
    assert Overlay([], 0, data) == data;
  }

  /** For every content and every path that can be opened for writing: what is written comes
      back byte for byte from an open handle, from the streaming reader and from the chunk
      stream. */
  method RoundTrip(fs: DavFs, path: seq<byte>, data: seq<byte>, room: nat)
    returns (r: Fs.FsOutcome<(seq<byte>, seq<byte>, seq<byte>)>)
    requires fs.inner.Valid() && |data| <= Min(room, MAX_FILE)
    modifies fs.inner.meta, fs.inner.blobs, fs.inner.index
    ensures fs.inner.Valid()
    ensures match OpenFile(old(fs.inner.Snapshot()), path, OVERWRITE, room).1
            case Err(e) => r == Err(e)
            case Ok(_) => r == Ok((data, data, data))
  {
    var file := Overwrite(fs, path, room);
    if file.Err? {
      return Err(file.error);
    }
    var readings := WriteAndRead(file.value, data, room);
    return Ok(readings);
  }

  method WriteAndRead(file: FileHandle, data: seq<byte>, room: nat) returns (r: (seq<byte>, seq<byte>, seq<byte>))
    requires file.inner.Valid() && file.Valid() && file.node in file.inner.meta.nodes
    requires file.pos == 0 && file.state == StagingOf([], false, true) && |data| <= Min(room, MAX_FILE)
    modifies file, file.inner.meta, file.inner.blobs, file.inner.index
    ensures file.inner.Valid() && r == (data, data, data)
  {
    WholeWrite(data, room);
    var written := file.WriteBytes(data, room);
    var flushed := CommitAll(file, data);
    var m := file.inner.meta.LoadManifest(file.node);
    var whole, streamed, read := ReadThreeWays(file.inner, file.node, m.value);
    return (whole, streamed, read);
  }

  method Overwrite(fs: DavFs, path: seq<byte>, room: nat) returns (r: Fs.FsOutcome<FileHandle>)
    requires fs.inner.Valid()
    modifies fs.inner.meta
    ensures fs.inner.Valid()
    ensures match OpenFile(old(fs.inner.Snapshot()), path, OVERWRITE, room).1
            case Err(e) => r == Err(e)
            case Ok(_) => r.Ok?
    ensures r.Ok? ==>
      && fresh(r.value) && r.value.inner == fs.inner && r.value.Valid()
      && r.value.pos == 0 && r.value.state == StagingOf([], false, true)
      && r.value.node in fs.inner.meta.nodes
  {
    if OpenFileOk(fs.inner.Snapshot(), path, room) {
      OverwriteStartsEmpty(fs.inner.Snapshot(), path, room);
    }
    r := fs.Open(path, OVERWRITE, room);
  }

  ghost predicate OpenFileOk(f: Fs.Fs, path: seq<byte>, room: nat) {
    OpenFile(f, path, OVERWRITE, room).1.Ok?
  }

  method CommitAll(file: FileHandle, data: seq<byte>) returns (r: Fs.FsOutcome<()>)
    requires file.inner.Valid() && file.Valid() && file.node in file.inner.meta.nodes
    requires file.state.WriteState? && file.state.dirty && Staged(file.state) == data
    modifies file, file.inner.meta, file.inner.blobs, file.inner.index
    ensures file.inner.Valid() && r.Ok? && HoldsContent(file.inner.Snapshot(), file.node, data)
  {
    FlushedContent(file.inner.Snapshot(), file.node, file.PiecesFor(data));
    r := file.Flush();
  }

  /** The three readers agree on every stored file whose blobs are there. */
  method ReadThreeWays(inner: Inner, node: nat, m: Manifest)
    returns (whole: seq<byte>, streamed: seq<byte>, read: seq<byte>)
    requires inner.blobs.Valid() && Stored(m) && Hashes(m) <= inner.blobs.blobs.Keys
    ensures whole == streamed == read == Content(m)
  {
    var reader := new ManifestReader(inner.blobs, m);
    var byReader := reader.ReadAll(COPY_BUFFER);
    var stream := new ChunkStream(inner.blobs, m);
    var byStream := stream.Collect();
    var handle := new FileHandle.NewRead(inner, node, m);
    assert forall i :: 0 <= i < |m.chunks| ==> m.chunks[i].hash in Hashes(m);
    var byHandle := handle.ReadBytes(m.totalSize);
    assert m.totalSize == |Content(m)|;
    assert Slice(Content(m), 0, m.totalSize) == Content(m);
    return byReader.value, byStream.value, byHandle.value;
  }

  // ---- Reading ----

  const READ := OpenOptions(false, false, false, false, false)

  /** What reading the file at a path may give: nothing but an error where no file is, and
      exactly its current content where one is. */
  ghost predicate ReadsAs(f: Fs.Fs, path: seq<byte>, r: Fs.FsOutcome<seq<byte>>) {
    match Namespace.Resolve(f.tables.nodes, Segments(path))
    case None => r.Err?
    case Some(id) =>
      if IsDir(f.tables.nodes, id) then r == Err(Fs.Forbidden) else r.Ok? && HoldsContent(f, id, r.value)
  }

  /** Opening a path for reading and reading until nothing comes back yields exactly the
      file's current content, and changes nothing. */
  method ReadPath(fs: DavFs, path: seq<byte>, room: nat) returns (r: Fs.FsOutcome<seq<byte>>)
    requires fs.inner.Valid()
    modifies fs.inner.meta
    ensures fs.inner.Valid() && fs.inner.Snapshot() == old(fs.inner.Snapshot())
    ensures ReadsAs(old(fs.inner.Snapshot()), path, r)
  {
    var handle := OpenToRead(fs, path, room);
    if handle.Err? {
      return Err(handle.error);
    }
    r := ReadHandle(handle.value);
  }

  /** The handle reads from the start of a file whose chunks are all there. */
  ghost predicate AtStart(file: FileHandle)
    reads file, file.inner.blobs
  {
    && file.state.ReadState? && file.pos == 0 && file.Valid() && file.inner.blobs.Valid()
    && Hashes(file.state.manifest) <= file.inner.blobs.blobs.Keys
  }

  method OpenToRead(fs: DavFs, path: seq<byte>, room: nat) returns (r: Fs.FsOutcome<FileHandle>)
    requires fs.inner.Valid()
    modifies fs.inner.meta
    ensures fs.inner.Valid() && fs.inner.Snapshot() == old(fs.inner.Snapshot())
    ensures r.Ok? ==> fresh(r.value) && r.value.inner == fs.inner && AtStart(r.value)
    ensures ReadsAs(old(fs.inner.Snapshot()), path,
                    if r.Ok? then Ok(Content(r.value.state.manifest)) else Err(r.error))
  {
    OpenedForReading(fs.inner.Snapshot(), path, room);
    r := fs.Open(path, READ, room);
  }

  method ReadHandle(file: FileHandle) returns (r: Fs.FsOutcome<seq<byte>>)
    requires AtStart(file)
    modifies file
    ensures r == Ok(old(Content(file.state.manifest)))
  {
    assert From(Content(file.state.manifest), 0) == Content(file.state.manifest);
    r := file.ReadAllBytes(COPY_BUFFER);
  }

  lemma OpenedForReading(f: Fs.Fs, path: seq<byte>, room: nat)
    requires StoresOk(f)
    ensures var (g, h) := OpenFile(f, path, READ, room);
      && g == f
      && (h.Ok? ==> h.value.state.ReadState? && h.value.pos == 0
                    && Hashes(h.value.state.manifest) <= f.blobs.Keys)
      && ReadsAs(f, path, if h.Ok? then Ok(Content(h.value.state.manifest)) else Err(h.error))
  {
    match Namespace.Resolve(f.tables.nodes, Segments(path))
    case None => OpenNewPath(f, path, READ, room);
    case Some(id) =>
      OpenExistingPath(f, path, READ, room, id);
      NamedIsThere(f.tables.nodes, Segments(path));
      if !IsDir(f.tables.nodes, id) {
        LoadedContent(f, id, CurrentManifest(f.tables, id).value);
      }
  }

  /** After a seek from the start both readers return the content from that position on, up
      to the end of the file. */
  method ReadFromPosition(inner: Inner, node: nat, m: Manifest, position: u64)
    returns (byReader: seq<byte>, byHandle: seq<byte>)
    requires inner.blobs.Valid() && Stored(m) && Hashes(m) <= inner.blobs.blobs.Keys
    ensures byReader == byHandle == if position <= |Content(m)| then Content(m)[position..] else []
  {
    var reader := new ManifestReader(inner.blobs, m);
    var landed := reader.Seek(Start(position));
    var rest := reader.ReadToEnd(COPY_BUFFER);
    var handle := new FileHandle.NewRead(inner, node, m);
    var sought := handle.Seek(Start(position));
    var bytes := handle.ReadAllBytes(COPY_BUFFER);
    return rest.value, bytes.value;
  }
}
