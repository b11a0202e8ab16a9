// What opening a path gives (vfs crate, davfs.rs): for every combination of options, the
// handle's node, its content, its position and whether it has something to commit.
module Openings {
  import opened Base
  import opened Manifests
  import opened Paths
  import opened MetaTables
  import opened Namespace
  import Fs = FsModel
  import opened FsTheorems
  import CopyTheorems
  import opened Drafts
  import opened Files
  import opened Outcomes
  import opened DavFs

  /** The handle reads the whole of a file from its start. */
  predicate ReadsFromStart(h: Opened, id: nat, m: Manifest) {
    h == Opened(id, 0, ReadState(m, None))
  }

  /** The handle edits a copy of `content`, from its end when appending and from its start
      otherwise, and has something to commit exactly if `dirty`. */
  predicate Edits(h: Opened, id: nat, content: seq<byte>, append: bool, dirty: bool) {
    && h.node == id && Clean(h.state) && h.state.dirty == dirty
    && DraftOf(h.state, h.pos) == Draft(content, if append then |content| else 0, append)
  }

  /** What opening an existing file answers and what the handle then stands for. */
  ghost predicate OpensFile(t: Tables, id: nat, o: OpenOptions, room: nat, r: Fs.FsOutcome<Opened>) {
    var m := CurrentManifest(t, id);
    && m.Ok? && Stored(m.value)
    && var content := Content(m.value);
       if o.createNew then r == Err(Fs.AlreadyExists)
       else if !o.write then r.Ok? && ReadsFromStart(r.value, id, m.value)
       else if o.truncate then r.Ok? && Edits(r.value, id, [], o.append, true)
       else if |content| > Min(room, MAX_FILE) then r == Err(Fs.GeneralFailure)
       else r.Ok? && Edits(r.value, id, content, o.append, false)
  }

  lemma OpenedFile(f: Fs.Fs, id: nat, o: OpenOptions, room: nat)
    requires StoresOk(f) && id in f.tables.nodes && !f.tables.nodes[id].isDir
    ensures OpensFile(f.tables, id, o, room, OpenExisting(f, id, o, room))
  {
    CopyTheorems.CurrentLoads(f, id);
    LoadedIsPresent(f, id);
    var m := CurrentManifest(f.tables, id).value;
    assert m.totalSize == |Content(m)|;
    StagedIs(Content(m), o.append);
    StagedIs([], o.append);
  }

  lemma StagedIs(content: seq<byte>, append: bool)
    ensures forall dirty :: Staged(StagingOf(content, append, dirty)) == content
    ensures forall dirty :: Clean(StagingOf(content, append, dirty))
  {
  }

  /** Opening what is there changes nothing. A collection is refused; a file is refused if a
      new one was asked for, or if its content cannot be staged; otherwise it is read from the
      start, or edited from what it holds, or from nothing if it is to be truncated. */
  lemma OpenExistingPath(f: Fs.Fs, path: seq<byte>, o: OpenOptions, room: nat, id: nat)
    requires StoresOk(f) && Resolve(f.tables.nodes, Segments(path)) == Some(id)
    ensures var (g, r) := OpenFile(f, path, o, room);
      && g == f
      && if IsDir(f.tables.nodes, id) then r == Err(Fs.Forbidden) else OpensFile(f.tables, id, o, room, r)
  {
    var nodes, s := f.tables.nodes, Segments(path);
    NamedIsThere(nodes, s);
    TargetAnswer(nodes, path);
    if s == [] {
      assert LinkOk(nodes, ROOT_ID);
    } else {
      HasPlace(nodes, s, id);
      if !nodes[id].isDir {
        OpenedFile(f, id, o, room);
      }
    }
  }

  lemma HasPlace(nodes: Nodes, s: Path, id: nat)
    requires TreeOk(nodes) && s != [] && At(nodes, s, id)
    ensures PlaceError(nodes, s).None?
  {
    ResolveIffAt(nodes, Init(s), nodes[id].parent.value);
    assert LinkOk(nodes, id);
  }

  /** Opening what is not there is refused, without effect, where there is no place for it or
      creating was not asked for; otherwise it creates a file, and the handle edits it, empty. */
  lemma OpenNewPath(f: Fs.Fs, path: seq<byte>, o: OpenOptions, room: nat)
    requires StoresOk(f) && Resolve(f.tables.nodes, Segments(path)).None?
    ensures var s, (g, r) := Segments(path), OpenFile(f, path, o, room);
      match PlaceError(f.tables.nodes, s)
      case Some(e) => (g, r) == (f, Err(e))
      case None =>
        if !o.create && !o.createNew then (g, r) == (f, Err(Fs.Missing))
        else
          && r.Ok? && r.value.node !in f.tables.nodes
          && g == Fs.Create(f, path, false).0 && Resolve(g.tables.nodes, s) == Some(r.value.node)
          && Edits(r.value, r.value.node, [], false, o.truncate)
  {
    var nodes, s := f.tables.nodes, Segments(path);
    TargetAnswer(nodes, path);
    if PlaceError(nodes, s).None? && (o.create || o.createNew) {
      CreatedIsAtPath(f, path, Resolve(nodes, Init(s)).value);
      CreatedTables(f, path, false);
      StagedIs([], false);
    }
  }
}
