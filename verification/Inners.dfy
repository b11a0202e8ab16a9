// The state shared by every handle (vfs crate, davfs.rs): metadata, blobs and search index,
// and the steps that several operations have in common.
module Inners {
  import opened Base
  import opened Manifests
  import opened BlobStores
  import opened FileNames
  import opened MetaTables
  import opened MetaStores
  import opened References
  import opened FsModel
  import opened FsTheorems

  /** The full-text index: documents by node id, searchable once committed. */
  class SearchIndex {
    var pending: map<nat, seq<byte>>
    var committed: map<nat, seq<byte>>

    constructor ()
      ensures pending == committed == map[]
    {
      pending, committed := map[], map[];
    }

    method IndexDocument(id: nat, body: seq<byte>)
      modifies this
      ensures pending == old(pending)[id := body] && committed == old(committed)
    {
      pending := pending - {id};
      pending := pending[id := body];
    }

    method RemoveDocument(id: nat)
      modifies this
      ensures pending == old(pending) - {id} && committed == old(committed)
    {
      pending := pending - {id};
    }

    method Commit()
      modifies this
      ensures committed == pending == old(pending)
    {
      committed := pending;
    }

    /** `ranked` is every match of the query, best first. */
    method Search(ranked: map<nat, seq<byte>> -> seq<nat>, limit: nat) returns (hits: seq<nat>)
      ensures hits == First(ranked(committed), limit)
    {
      var all := ranked(committed);
      return First(all, limit);
    }
  }

  /** Splits the content written to a file of the given name. */
  type Chunker = (seq<byte>, seq<byte>) -> seq<seq<byte>>

  ghost predicate ChunkerOk(split: Chunker) {
    forall name, data :: |data| < U64_LIMIT ==> Chunked(split(name, data)) && Flatten(split(name, data)) == data
  }

  /** Buffer size of the copy and read-to-end loops. */
  const COPY_BUFFER: nat := 8192

  class Inner {
    const meta: MetaStore
    const blobs: BlobStore
    const index: SearchIndex
    const chunkerFor: Chunker

    ghost function Snapshot(): Fs
      reads meta, blobs, index
    {
      Fs(meta.State(), blobs.blobs, index.committed)
    }

    /** The tables are well-formed and blobs hold what their names say; a blob may be missing. */
    ghost predicate Usable()
      reads meta, blobs, index
    {
      TablesOk(meta.State()) && blobs.Valid() && index.pending == index.committed && ChunkerOk(chunkerFor)
    }

    /** Between operations, moreover, the namespace is one tree and no blob is missing. */
    ghost predicate Valid()
      reads meta, blobs, index
    {
      Usable() && StoresOk(Snapshot())
    }

    constructor (chunkerFor: Chunker)
      requires ChunkerOk(chunkerFor)
      ensures Valid() && Snapshot() == FRESH_FS
      ensures fresh(meta) && fresh(blobs) && fresh(index)
    {
      this.chunkerFor := chunkerFor;
      meta := new MetaStore();
      blobs := new BlobStore();
      index := new SearchIndex();
      new;
      FreshFsIsOk();
    }

    /** Brings a node's document in line with its current content. */
    method TryReindex(id: nat) returns (r: Result<(), IoError>)
      requires Usable()
      modifies index
      ensures Usable() && Snapshot() == FsModel.Reindex(old(Snapshot()), id)
    {
      if id !in meta.nodes {
        return Err(Failed);
      }
      var node := meta.nodes[id];
      if node.isDir || node.current.None? || !IsIndexableName(node.name) {
        return Ok(());
      }
      if node.size > MAX_INDEX_BYTES {
        index.RemoveDocument(id);
        index.Commit();
        return Ok(());
      }
      assert CurrentOk(meta.State(), id);
      LoadedManifestIsStored(meta.State(), node.current.value);
      var manifest := meta.LoadManifest(id);
      r := IndexText(id, manifest.value);
    }

    method IndexText(id: nat, manifest: Manifest) returns (r: Result<(), IoError>)
      requires blobs.Valid() && index.pending == index.committed && Stored(manifest)
      modifies index
      ensures index.pending == index.committed
      ensures index.committed ==
              if Hashes(manifest) <= blobs.blobs.Keys then old(index.committed)[id := Content(manifest)]
              else old(index.committed)
    {
      var reader := new ManifestReader(blobs, manifest);
      var text := reader.ReadAll(COPY_BUFFER);
      if text.Err? {
        return Err(text.error);
      }
      index.IndexDocument(id, text.value);
      index.Commit();
      return Ok(());
    }

    /** Failures are logged and otherwise ignored. */
    method Reindex(id: nat)
      requires Usable()
      modifies index
      ensures Usable() && Snapshot() == FsModel.Reindex(old(Snapshot()), id)
    {
      var r := TryReindex(id);
    }

    method Deindex(id: nat)
      modifies index
      ensures index.pending == index.committed == old(index.pending) - {id}
    {
      index.RemoveDocument(id);
      index.Commit();
    }

    /** Makes an already stored manifest the content of a node. */
    method ReferenceUnderGuard(id: nat, source: Source) returns (r: Outcome<()>)
      requires meta.Valid()
      modifies meta
      ensures meta.Valid()
      ensures (meta.State(), r) == match Loaded(old(meta.State()), source)
                                   case Err(e) => (old(meta.State()), Err(e))
                                   case Ok(m) => SetContent(old(meta.State()), id, m)
    {
      var m;
      match source {
        case CurrentContent(node) =>
          var loaded := meta.LoadManifest(node);
          if loaded.Err? {
            return Err(loaded.error);
          }
          m := loaded.value;
        case VersionContent(version) =>
          m := meta.ReadManifest(version);
      }
      r := meta.SetFileContent(id, m);
    }
  }

  /** Where a copy or a revert takes the manifest from. */
  datatype Source = CurrentContent(node: nat) | VersionContent(version: nat)

  function Loaded(t: Tables, source: Source): Outcome<Manifest> {
    match source
    case CurrentContent(node) => CurrentManifest(t, node)
    case VersionContent(version) => Ok(ManifestAt(t, version))
  }
}
