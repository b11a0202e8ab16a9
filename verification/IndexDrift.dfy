// A run after which the search index no longer agrees with the files (vfs crate, davfs.rs):
// a file is written under an indexable name and then renamed to one that is not.
module IndexDrift {
  import opened Base
  import opened Manifests
  import opened BlobStores
  import opened Paths
  import opened FileNames
  import opened MetaTables
  import opened Namespace
  import opened FsModel
  import opened FsTheorems

  /** The path of a file directly under the root. */
  function TopPath(name: seq<byte>): seq<byte> {
    PathBytes([name])
  }

  lemma TopSegments(name: seq<byte>)
    requires NameOk(name)
    ensures Segments(TopPath(name)) == [name] && Init([name]) == [] && Last([name]) == name
  {
    SegmentsInvertPathBytes([name]);
  }

  /** Only one file, under the root. */
  ghost predicate OnlyFile(f: Fs, name: seq<byte>) {
    && f.tables.nodes.Keys == {ROOT_ID, 2}
    && f.tables.nodes[ROOT_ID].parent.None? && f.tables.nodes[ROOT_ID].isDir
    && f.tables.nodes[2].parent == Some(ROOT_ID) && f.tables.nodes[2].name == name && !f.tables.nodes[2].isDir
  }

  lemma Created(name: seq<byte>)
    requires NameOk(name)
    ensures var f := Create(FRESH_FS, TopPath(name), false).0;
      OnlyFile(f, name) && f.tables.nodes[2].current.None?
  {
    TopSegments(name);
    var nodes := FRESH_TABLES.nodes;
    assert Resolve(nodes, []) == Some(ROOT_ID);
    assert forall c :: !IsChild(nodes, ROOT_ID, name, c);
    assert NextId(nodes.Keys) == 2 by {
      assert ROOT_ID in nodes.Keys && nodes.Keys == {ROOT_ID};
      assert NextId(nodes.Keys) - 1 in nodes.Keys;
    }
  }

  lemma Flushed(f: Fs, name: seq<byte>)
    requires OnlyFile(f, name) && f.tables.nodes[2].current.None?
    ensures var g := Flush(f, 2, []).0;
      OnlyFile(g, name) && g.tables.nodes[2].current.Some? && g.tables.nodes[2].size == 0
  {
    var stored := f.(blobs := PutAll(f.blobs, []));
    var t := SetContent(f.tables, 2, ManifestOf([])).0;
    assert t == AppendVersion(f.tables, 2, ManifestOf([]));
    ReindexKeepsRest(stored.(tables := t), 2);
  }

  lemma FoundUnderRoot(f: Fs, name: seq<byte>, x: seq<byte>)
    requires OnlyFile(f, name)
    ensures Resolve(f.tables.nodes, []) == Some(ROOT_ID)
    ensures Child(f.tables.nodes, ROOT_ID, x) == if x == name then Some(2) else None
  {
    assert IsChild(f.tables.nodes, ROOT_ID, name, 2);
  }

  /** Renaming it away from an indexable name breaks agreement. */
  lemma RenamedAway(f: Fs, from: seq<byte>, to: seq<byte>)
    requires StoresOk(f) && IndexAgrees(f) && OnlyFile(f, from) && NameOk(from) && NameOk(to)
    requires f.tables.nodes[2].current.Some? && f.tables.nodes[2].size == 0
    requires IsIndexableName(from) && !IsIndexableName(to)
    ensures !IndexAgrees(RenameFile(f, TopPath(from), TopPath(to)).0)
  {
    TopSegments(from);
    TopSegments(to);
    FoundUnderRoot(f, from, from);
    FoundUnderRoot(f, from, to);
    var s, d := Segments(TopPath(from)), Segments(TopPath(to));
    assert s[0] != d[0];
    assert Resolve(f.tables.nodes, s) == Some(2) && Resolve(f.tables.nodes, d) == None;
    assert CanRename(f, TopPath(from), TopPath(to));
    RenameSucceedsIff(f, TopPath(from), TopPath(to));
    RenameKeeps(f, TopPath(from), TopPath(to));
  }

  /** Create, write, rename. */
  function Drift(from: seq<byte>, to: seq<byte>): seq<FsCall> {
    [CreateCall(TopPath(from), false), FlushCall(2, []), RenameCall(TopPath(from), TopPath(to))]
  }

  lemma DriftSteps(from: seq<byte>, to: seq<byte>)
    ensures var calls := Drift(from, to);
      && RunCalls(FRESH_FS, calls[..1]) == Create(FRESH_FS, TopPath(from), false).0
      && RunCalls(FRESH_FS, calls[..2]) == Flush(RunCalls(FRESH_FS, calls[..1]), 2, []).0
      && RunCalls(FRESH_FS, calls) == RenameFile(RunCalls(FRESH_FS, calls[..2]), TopPath(from), TopPath(to)).0
      && AllPossible(FRESH_FS, calls) && AllPossible(FRESH_FS, calls[..2]) && RenamesSafe(FRESH_FS, calls[..2])
  {
    var calls := Drift(from, to);
    assert RunCalls(FRESH_FS, calls[..0]) == FRESH_FS;
    assert Init(calls[..1]) == calls[..0];
    assert Init(calls[..2]) == calls[..1];
    assert Init(calls) == calls[..2];
  }

  /** For any two names of which only the first is indexable. */
  lemma RunsCanDrift(from: seq<byte>, to: seq<byte>)
    requires NameOk(from) && NameOk(to) && IsIndexableName(from) && !IsIndexableName(to)
    ensures AllPossible(FRESH_FS, Drift(from, to))
    ensures !IndexAgrees(RunCalls(FRESH_FS, Drift(from, to)))
  {
    var calls := Drift(from, to);
    DriftSteps(from, to);
    Created(from);
    Flushed(RunCalls(FRESH_FS, calls[..1]), from);
    RunKeepsStores(calls[..2]);
    RunKeepsAgreement(calls[..2]);
    RenamedAway(RunCalls(FRESH_FS, calls[..2]), from, to);
  }

  const A_MD: seq<byte> := [97, 46, 109, 100]
  const A: seq<byte> := [97]

  lemma NamesToDrift()
    ensures NameOk(A_MD) && IsIndexableName(A_MD) && NameOk(A) && !IsIndexableName(A)
  {
    assert Lower(A_MD) == A_MD && Lower(A) == A;
    assert Init(A_MD) == [97, 46, 109] && Init([97, 46, 109]) == [97, 46];
    assert AfterLastDot([97, 46]) == [];
    assert AfterLastDot([97, 46, 109]) == [109];
    assert AfterLastDot(A_MD) == [109, 100];
    assert Ascii(TEXT_EXTENSIONS[0]) == [109, 100];
    assert Init(A) == [] && AfterLastDot(A) == A;
  }

  /** Writing `a.md` and renaming it to `a` does it: its document stays behind. */
  lemma IndexCanDrift()
    ensures AllPossible(FRESH_FS, Drift(A_MD, A))
    ensures !IndexAgrees(RunCalls(FRESH_FS, Drift(A_MD, A)))
  {
    NamesToDrift();
    RunsCanDrift(A_MD, A);
  }
}
