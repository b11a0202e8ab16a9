// What each filesystem operation answers, and which node it acts on (vfs crate, davfs.rs):
// for every input, in terms of what the paths name in the tree.
module Outcomes {
  import opened Base
  import opened Manifests
  import opened Paths
  import opened MetaTables
  import opened Namespace
  import opened VersionHistory
  import opened References
  import opened FsModel
  import opened FsTheorems
  import CopyTheorems

  predicate IsDir(nodes: Nodes, id: nat) {
    id in nodes && nodes[id].isDir
  }

  ghost predicate IsDirAt(nodes: Nodes, path: Path) {
    Resolve(nodes, path).Some? && IsDir(nodes, Resolve(nodes, path).value)
  }

  /** What a path lacks to be a place where something can be put. */
  ghost function PlaceError(nodes: Nodes, d: Path): Option<FsError> {
    if d == [] then Some(Forbidden)
    else if Resolve(nodes, Init(d)).None? then Some(Missing)
    else if !IsDirAt(nodes, Init(d)) then Some(Forbidden)
    else None
  }

  lemma TargetAnswer(nodes: Nodes, path: seq<byte>)
    requires TreeOk(nodes)
    ensures match PlaceError(nodes, Segments(path))
            case Some(e) => Target(nodes, path) == Err(e)
            case None =>
              && Segments(path) != [] && Resolve(nodes, Init(Segments(path))).Some?
              && var parent := Resolve(nodes, Init(Segments(path))).value;
                 && Target(nodes, path) == Ok((parent, Last(Segments(path))))
                 && At(nodes, Init(Segments(path)), parent) && parent in nodes
                 && Child(nodes, parent, Last(Segments(path))) == Resolve(nodes, Segments(path))
  {
    if Target(nodes, path).Ok? {
      TargetIsPlace(nodes, path);
    }
  }

  lemma NamedIsThere(nodes: Nodes, s: Path)
    requires TreeOk(nodes) && Resolve(nodes, s).Some?
    ensures var id := Resolve(nodes, s).value;
      At(nodes, s, id) && id in nodes && (id == ROOT_ID <==> s == [])
  {
    var id := Resolve(nodes, s).value;
    ResolveIffAt(nodes, s, id);
    assert LinkOk(nodes, id);
  }

  // ---- Creating and deleting ----

  /** Creating is refused without effect where there is no place for it, or where something
      is already; otherwise it succeeds. */
  lemma CreateAnswer(f: Fs, path: seq<byte>, isDir: bool)
    requires StoresOk(f)
    ensures var (g, r) := Create(f, path, isDir);
      && (r.Err? ==> g == f)
      && match PlaceError(f.tables.nodes, Segments(path))
         case Some(e) => r == Err(e)
         case None => if Resolve(f.tables.nodes, Segments(path)).Some? then r == Err(AlreadyExists) else r.Ok?
  {
    TargetAnswer(f.tables.nodes, path);
  }

  /** Deleting a file works on files only, and drops just the node that the path names. */
  lemma DeleteFileAnswer(f: Fs, path: seq<byte>)
    requires StoresOk(f)
    ensures var nodes, (g, r) := f.tables.nodes, DeleteFile(f, path);
      && (r.Err? ==> g == f)
      && match Resolve(nodes, Segments(path))
         case None => r == Err(Missing)
         case Some(id) =>
           if IsDir(nodes, id) then r == Err(Forbidden) else r == Ok(()) && g.tables.nodes == nodes - {id}
  {
    if Resolve(f.tables.nodes, Segments(path)).Some? {
      NamedIsThere(f.tables.nodes, Segments(path));
      var id := Resolve(f.tables.nodes, Segments(path)).value;
      if !f.tables.nodes[id].isDir {
        FileIsLeaf(f.tables.nodes, id);
        DeleteLeaf(f.tables, id);
      }
    }
  }

  /** Something has a path one name longer. */
  ghost predicate HasEntry(nodes: Nodes, s: Path) {
    exists name :: Resolve(nodes, s + [name]).Some?
  }

  lemma EntriesAreChildren(nodes: Nodes, s: Path, id: nat)
    requires TreeOk(nodes) && At(nodes, s, id)
    ensures HasEntry(nodes, s) <==> HasChildren(nodes, id)
  {
    ResolveIffAt(nodes, s, id);
    forall name ensures Resolve(nodes, s + [name]) == Child(nodes, id, name) {
      assert Init(s + [name]) == s;
    }
    if HasChildren(nodes, id) {
      var c :| c in nodes && nodes[c].parent == Some(id);
      assert IsChild(nodes, id, nodes[c].name, c);
      assert Resolve(nodes, s + [nodes[c].name]).Some?;
    }
  }

  lemma DirAnswer(f: Fs, path: seq<byte>, id: nat, result: (Fs, FsOutcome<()>))
    requires StoresOk(f) && Find(f, path) == Ok(id) && id in f.tables.nodes
    requires result == DeleteDir(f, path)
    ensures if id == ROOT_ID || !f.tables.nodes[id].isDir || HasChildren(f.tables.nodes, id) then
              result == (f, Err(Forbidden))
            else result.1 == Ok(()) && result.0.tables.nodes == f.tables.nodes - {id}
  {
    if !HasChildren(f.tables.nodes, id) {
      DeleteLeaf(f.tables, id);
    }
  }

  /** Deleting a collection works on empty ones other than the root. */
  lemma DeleteDirAnswer(f: Fs, path: seq<byte>)
    requires StoresOk(f)
    ensures var nodes, s, (g, r) := f.tables.nodes, Segments(path), DeleteDir(f, path);
      && (r.Err? ==> g == f)
      && match Resolve(nodes, s)
         case None => r == Err(Missing)
         case Some(id) =>
           if s == [] || !IsDir(nodes, id) || HasEntry(nodes, s) then r == Err(Forbidden)
           else r == Ok(()) && g.tables.nodes == nodes - {id}
  {
    if Resolve(f.tables.nodes, Segments(path)).Some? {
      NamedIsThere(f.tables.nodes, Segments(path));
      var id := Resolve(f.tables.nodes, Segments(path)).value;
      EntriesAreChildren(f.tables.nodes, Segments(path), id);
      DirAnswer(f, path, id, DeleteDir(f, path));
    }
  }

  // ---- Renaming and copying ----

  /** Whether the ancestor check can walk from the destination's parent far enough. */
  predicate CheckTooDeep(s: Path, d: Path) {
    d != [] && |d| - 1 - (if s <= Init(d) then |s| else 0) >= 10_000
  }

  /** Why something at `s` may not be put at `d`, as far as its kind and the tree matter. */
  ghost function PutError(nodes: Nodes, s: Path, d: Path, isDir: bool): Option<FsError> {
    if PlaceError(nodes, d).Some? then PlaceError(nodes, d)
    else if isDir && CheckTooDeep(s, d) then Some(GeneralFailure)
    else if isDir && d != [] && s <= Init(d) then Some(Forbidden)
    else None
  }

  lemma IntoItselfAnswer(nodes: Nodes, s: Path, src: nat, d: Path, parent: nat)
    requires TreeOk(nodes) && At(nodes, s, src) && d != [] && At(nodes, Init(d), parent)
    requires PlaceError(nodes, d).None?
    ensures match PutError(nodes, s, d, nodes[src].isDir)
            case Some(e) => IntoItself(nodes, src, parent) == (if e.Forbidden? then Ok(true) else Err(e))
            case None => IntoItself(nodes, src, parent) == Ok(false)
  {
    AncestorWalkOnTree(nodes, src, parent, WALK_LIMIT, s, Init(d));
  }

  /** Every answer of a rename but success. */
  ghost function RenameError(nodes: Nodes, s: Path, d: Path): Option<FsError> {
    match Resolve(nodes, s)
    case None => Some(Missing)
    case Some(src) =>
      if s == [] then Some(Forbidden)
      else if PutError(nodes, s, d, IsDir(nodes, src)).Some? then PutError(nodes, s, d, IsDir(nodes, src))
      else if IsDirAt(nodes, d) then Some(AlreadyExists)
      else if s == d then Some(Missing)
      else None
  }

  lemma RenameIsMove(f: Fs, from: seq<byte>, to: seq<byte>)
    requires TreeOk(f.tables.nodes) && Segments(from) != []
    requires Resolve(f.tables.nodes, Segments(from)).Some? && PlaceError(f.tables.nodes, Segments(to)).None?
    ensures Segments(to) != [] && Resolve(f.tables.nodes, Init(Segments(to))).Some?
    ensures RenameFile(f, from, to) ==
            MoveTo(f, Resolve(f.tables.nodes, Segments(from)).value,
                   Resolve(f.tables.nodes, Init(Segments(to))).value, Last(Segments(to)))
  {
    NamedIsThere(f.tables.nodes, Segments(from));
    TargetAnswer(f.tables.nodes, to);
  }

  lemma MoveAnswer(f: Fs, s: Path, src: nat, d: Path, parent: nat, r: FsOutcome<()>)
    requires StoresOk(f) && At(f.tables.nodes, s, src) && s != []
    requires d != [] && At(f.tables.nodes, Init(d), parent) && PlaceError(f.tables.nodes, d).None?
    requires Resolve(f.tables.nodes, s) == Some(src)
    requires Child(f.tables.nodes, parent, Last(d)) == Resolve(f.tables.nodes, d)
    requires r == MoveTo(f, src, parent, Last(d)).1
    ensures match RenameError(f.tables.nodes, s, d)
            case Some(e) => r == Err(e)
            case None => r == Ok(())
  {
    var nodes := f.tables.nodes;
    IntoItselfAnswer(nodes, s, src, d, parent);
    if PutError(nodes, s, d, nodes[src].isDir).None? && !IsDirAt(nodes, d) {
      ResolveIffAt(nodes, Init(d), parent);
      if s == d {
        OntoOwnPlace(f, src, parent, Last(d));
      } else {
        if Resolve(nodes, d) == Some(src) {
          ResolveIffAt(nodes, d, src);
          PathUnique(nodes, s, d, src);
        }
        if Resolve(nodes, d).Some? {
          NamedIsThere(nodes, d);
        }
        MoveToSucceeds(f, src, parent, Last(d));
      }
    }
  }

  lemma OntoOwnPlace(f: Fs, src: nat, parent: nat, name: seq<byte>)
    requires StoresOk(f) && src in f.tables.nodes && !f.tables.nodes[src].isDir
    requires Child(f.tables.nodes, parent, name) == Some(src)
    ensures MoveTo(f, src, parent, name).1 == Err(Missing)
  {
    GoneAfterClobber(f, src, parent, name);
  }

  /** The answer of a rename, for every pair of paths. */
  lemma RenameAnswer(f: Fs, from: seq<byte>, to: seq<byte>)
    requires StoresOk(f)
    ensures match RenameError(f.tables.nodes, Segments(from), Segments(to))
            case Some(e) => RenameFile(f, from, to).1 == Err(e)
            case None => RenameFile(f, from, to).1 == Ok(())
  {
    var nodes, s, d := f.tables.nodes, Segments(from), Segments(to);
    if Resolve(nodes, s).Some? && s != [] {
      NamedIsThere(nodes, s);
      TargetAnswer(nodes, to);
      if PlaceError(nodes, d).None? {
        RenameIsMove(f, from, to);
        MoveAnswer(f, s, Resolve(nodes, s).value, d, Resolve(nodes, Init(d)).value, RenameFile(f, from, to).1);
      }
    } else if Resolve(nodes, s).Some? {
      assert Find(f, from) == Ok(ROOT_ID);
    }
  }

  /** Every answer of a copy but success. */
  ghost function CopyError(nodes: Nodes, s: Path, d: Path): Option<FsError> {
    match Resolve(nodes, s)
    case None => Some(Missing)
    case Some(src) =>
      if PutError(nodes, s, d, IsDir(nodes, src)).Some? then PutError(nodes, s, d, IsDir(nodes, src))
      else if Resolve(nodes, d).Some? && IsDirAt(nodes, d) != IsDir(nodes, src) then Some(AlreadyExists)
      else None
  }

  lemma CopyIsOnto(f: Fs, from: seq<byte>, to: seq<byte>)
    requires TreeOk(f.tables.nodes)
    requires Resolve(f.tables.nodes, Segments(from)).Some? && PlaceError(f.tables.nodes, Segments(to)).None?
    ensures Segments(to) != [] && Resolve(f.tables.nodes, Init(Segments(to))).Some?
    ensures var src := Resolve(f.tables.nodes, Segments(from)).value;
      var parent := Resolve(f.tables.nodes, Init(Segments(to))).value;
      && src in f.tables.nodes
      && CopyFile(f, from, to).1 ==
         match IntoItself(f.tables.nodes, src, parent)
         case Err(e) => Err(e)
         case Ok(true) => Err(Forbidden)
         case Ok(false) => CopyOnto(f, src, parent, Last(Segments(to))).1
  {
    NamedIsThere(f.tables.nodes, Segments(from));
    TargetAnswer(f.tables.nodes, to);
  }

  lemma OntoOtherKind(f: Fs, src: nat, parent: nat, name: seq<byte>, e: nat)
    requires src in f.tables.nodes && Child(f.tables.nodes, parent, name) == Some(e)
    requires f.tables.nodes[e].isDir != f.tables.nodes[src].isDir
    ensures CopyOnto(f, src, parent, name).1 == Err(AlreadyExists)
  {
  }

  /** A copy succeeds wherever it has no such answer. */
  lemma CopyWorks(f: Fs, from: seq<byte>, to: seq<byte>)
    requires StoresOk(f) && CopyError(f.tables.nodes, Segments(from), Segments(to)).None?
    ensures CopyFile(f, from, to).1.Ok?
  {
    var nodes, s, d := f.tables.nodes, Segments(from), Segments(to);
    NamedIsThere(nodes, s);
    TargetAnswer(nodes, to);
    CopyTheorems.CopySucceedsIff(f, from, to);
    assert CopyTheorems.CanCopy(f, from, to);
  }

  /** And gives just that answer where it has one. */
  lemma CopyFails(f: Fs, from: seq<byte>, to: seq<byte>)
    requires StoresOk(f) && CopyError(f.tables.nodes, Segments(from), Segments(to)).Some?
    ensures CopyFile(f, from, to).1 == Err(CopyError(f.tables.nodes, Segments(from), Segments(to)).value)
  {
    var nodes, s, d := f.tables.nodes, Segments(from), Segments(to);
    TargetAnswer(nodes, to);
    if Resolve(nodes, s).Some? {
      NamedIsThere(nodes, s);
    }
    if Resolve(nodes, s).Some? && PlaceError(nodes, d).None? {
      CopyIsOnto(f, from, to);
      var src, parent := Resolve(nodes, s).value, Resolve(nodes, Init(d)).value;
      IntoItselfAnswer(nodes, s, src, d, parent);
      if PutError(nodes, s, d, nodes[src].isDir).None? {
        NamedIsThere(nodes, d);
        OntoOtherKind(f, src, parent, Last(d), Resolve(nodes, d).value);
      }
    }
  }

  // ---- Versions ----

  /** What a path lacks to name a file with versions. */
  ghost function FileError(nodes: Nodes, s: Path): Option<MetaError> {
    match Resolve(nodes, s)
    case None => Some(NotFound)
    case Some(id) => if IsDir(nodes, id) then Some(IsADirectory) else None
  }

  lemma FileAtAnswer(f: Fs, path: seq<byte>)
    requires StoresOk(f)
    ensures match FileError(f.tables.nodes, Segments(path))
            case Some(e) => FileAt(f, path) == Err(e)
            case None =>
              && Resolve(f.tables.nodes, Segments(path)).Some?
              && Resolve(f.tables.nodes, Segments(path)).value in f.tables.nodes
              && FileAt(f, path) == Ok(Resolve(f.tables.nodes, Segments(path)).value)
  {
    if Resolve(f.tables.nodes, Segments(path)).Some? {
      NamedIsThere(f.tables.nodes, Segments(path));
    }
  }

  /** The number is the one of the version the node exposes. */
  ghost predicate IsCurrentNumber(t: Tables, id: nat, number: nat) {
    number == TopNumber(t, id) && Recorded(t, id, number).Some?
  }

  lemma CurrentIsTop(t: Tables, id: nat, number: nat, v: nat)
    requires NumbersUnique(t) && id in t.nodes && CurrentOk(t, id) && IsVersion(t, id, number, v)
    ensures t.nodes[id].current == Some(v) <==> number == TopNumber(t, id)
  {
    TopIsCurrent(t, id);
    var c := t.nodes[id].current.value;
    assert IsVersion(t, id, t.versions[c].number, c);
  }

  lemma PruneStatement(t: Tables, id: nat, number: nat)
    requires NumbersUnique(t) && id in t.nodes && CurrentOk(t, id)
    ensures DeleteVersion(t, id, number).1 ==
            if Recorded(t, id, number).None? then Err(NotFound)
            else if IsCurrentNumber(t, id, number) then Err(CurrentVersion)
            else Ok(())
    ensures DeleteVersion(t, id, number).1.Err? ==> DeleteVersion(t, id, number).0 == t
  {
    if VersionId(t, id, number).Some? {
      CurrentIsTop(t, id, number, VersionId(t, id, number).value);
    }
  }

  /** Pruning, for every path and number: it is refused, without effect, where no file is,
      where the file has no such version, and for the current version; otherwise just that
      version of just that file is gone, and what is current stays. */
  lemma PruneAnswer(f: Fs, path: seq<byte>, number: nat)
    requires StoresOk(f)
    ensures var (g, r) := Prune(f, path, number);
      && (r.Err? ==> g == f)
      && match FileError(f.tables.nodes, Segments(path))
         case Some(e) => r == Err(e)
         case None =>
           && Resolve(f.tables.nodes, Segments(path)).Some?
           && var id := Resolve(f.tables.nodes, Segments(path)).value;
              if Recorded(f.tables, id, number).None? then r == Err(NotFound)
              else if IsCurrentNumber(f.tables, id, number) then r == Err(CurrentVersion)
              else r == Ok(()) && OnlyPruned(f, g, id, number)
  {
    FileAtAnswer(f, path);
    if FileError(f.tables.nodes, Segments(path)).None? {
      var id := Resolve(f.tables.nodes, Segments(path)).value;
      PruneStatement(f.tables, id, number);
      if Prune(f, path, number).1.Ok? {
        PruneDropsOne(f, id, number, Prune(f, path, number).0);
      }
    }
  }

  /** From `f` to `g` the one version is gone from the one node's history, and that is all. */
  ghost predicate OnlyPruned(f: Fs, g: Fs, id: nat, number: nat) {
    && g == f.(tables := g.tables) && g.tables.nodes == f.tables.nodes
    && (forall k: nat :: Recorded(g.tables, id, k) == if k == number then None else Recorded(f.tables, id, k))
    && (forall n :: n in f.tables.nodes ==> CurrentManifest(g.tables, n) == CurrentManifest(f.tables, n))
    && (forall n: nat, k: nat :: n != id ==> Recorded(g.tables, n, k) == Recorded(f.tables, n, k))
  }

  lemma PruneDropsOne(f: Fs, id: nat, number: nat, g: Fs)
    requires TablesOk(f.tables) && id in f.tables.nodes
    requires DeleteVersion(f.tables, id, number).1.Ok?
    requires g == f.(tables := DeleteVersion(f.tables, id, number).0)
    ensures OnlyPruned(f, g, id, number)
  {
    var after := DeleteVersion(f.tables, id, number).0;
    forall k: nat ensures Recorded(after, id, k) == if k == number then None else Recorded(f.tables, id, k) {
      PruneRecords(f.tables, id, number, k);
    }
    forall n: nat, k: nat | n != id ensures Recorded(after, n, k) == Recorded(f.tables, n, k) {
      PruneElsewhere(f.tables, id, number, after, n, k);
    }
    forall n | n in f.tables.nodes ensures CurrentManifest(after, n) == CurrentManifest(f.tables, n) {
      PruneKeepsCurrent(f.tables, id, number, after, n);
    }
    PruneDropsReferences(f.tables, id, number);
  }

  lemma PruneElsewhere(t: Tables, id: nat, number: nat, u: Tables, n: nat, k: nat)
    requires NumbersUnique(t) && u == DeleteVersion(t, id, number).0 && n != id
    ensures Recorded(u, n, k) == Recorded(t, n, k)
  {
    RecordedAgrees(t, u, n, k);
  }

  lemma PruneKeepsCurrent(t: Tables, id: nat, number: nat, u: Tables, n: nat)
    requires n in t.nodes && CurrentOk(t, n) && u == DeleteVersion(t, id, number).0
    ensures CurrentManifest(u, n) == CurrentManifest(t, n)
  {
  }

  /** From `f` to `g` the one node exposes `m`, and no other node differs. */
  ghost predicate OnlyExposes(f: Fs, g: Fs, id: nat, m: Manifest) {
    && CurrentManifest(g.tables, id) == Ok(m)
    && SameLinks(f.tables.nodes, g.tables.nodes)
    && forall n :: n in f.tables.nodes && n != id ==>
         && n in g.tables.nodes && g.tables.nodes[n] == f.tables.nodes[n]
         && CurrentManifest(g.tables, n) == CurrentManifest(f.tables, n)
  }

  lemma RevertedIs(f: Fs, path: seq<byte>, number: nat, id: nat, v: nat, result: (Fs, Outcome<()>))
    requires FileAt(f, path) == Ok(id) && VersionId(f.tables, id, number) == Some(v)
    requires result == Revert(f, path, number)
    requires StoresOk(f) && id in f.tables.nodes
    ensures result.1 == Ok(()) && OnlyExposes(f, result.0, id, ManifestAt(f.tables, v))
  {
    LoadedManifestIsStored(f.tables, v);
    CopyTheorems.ReferenceCommits(f, id, ManifestAt(f.tables, v));
  }

  /** Reverting, for every path and number: it is refused, without effect, where no file is
      or where the file has no such version; otherwise the file's current content is exactly
      what was recorded under that number, and every other node is as it was. */
  lemma RevertRestores(f: Fs, path: seq<byte>, number: nat)
    requires StoresOk(f)
    ensures var (g, r) := Revert(f, path, number);
      && (r.Err? ==> g == f)
      && match FileError(f.tables.nodes, Segments(path))
         case Some(e) => r == Err(e)
         case None =>
           && Resolve(f.tables.nodes, Segments(path)).Some?
           && var id := Resolve(f.tables.nodes, Segments(path)).value;
              match Recorded(f.tables, id, number)
              case None => r == Err(NotFound)
              case Some(m) => r == Ok(()) && OnlyExposes(f, g, id, m)
  {
    FileAtAnswer(f, path);
    if FileError(f.tables.nodes, Segments(path)).None? {
      var id := Resolve(f.tables.nodes, Segments(path)).value;
      if VersionId(f.tables, id, number).Some? {
        RevertedIs(f, path, number, id, VersionId(f.tables, id, number).value, Revert(f, path, number));
      }
    }
  }
}
