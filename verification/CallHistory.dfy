// What the filesystem operations write (vfs crate, davfs.rs): each comes down to a few
// metadata statements, and over whole runs of operations a file's history is exactly what
// was flushed, copied and reverted onto it.
module CallHistory {
  import opened Base
  import opened Manifests
  import opened BlobStores
  import opened Paths
  import opened MetaTables
  import opened Namespace
  import opened VersionHistory
  import opened References
  import opened FsModel
  import opened FsTheorems
  import opened CopyTheorems

  // ---- The statements of one operation ----

  ghost function MoveStatements(f: Fs, src: nat, parent: nat, name: seq<byte>): seq<MetaOp> {
    if IntoItself(f.tables.nodes, src, parent) != Ok(false) then []
    else match Child(f.tables.nodes, parent, name)
      case None => [RenameOp(src, parent, name)]
      case Some(e) => if f.tables.nodes[e].isDir then [] else [DeleteOp(e), RenameOp(src, parent, name)]
  }

  ghost function ReferenceStatements(id: nat, m: Outcome<Manifest>): seq<MetaOp> {
    if m.Ok? then [WriteOp(id, m.value)] else []
  }

  ghost function CopyStatements(f: Fs, src: nat, parent: nat, name: seq<byte>): seq<MetaOp>
    requires src in f.tables.nodes
  {
    var n := f.tables.nodes[src];
    match Child(f.tables.nodes, parent, name)
    case Some(e) =>
      if f.tables.nodes[e].isDir || n.isDir then [] else ReferenceStatements(e, CurrentManifest(f.tables, src))
    case None =>
      [InsertOp(parent, name, n.isDir)] +
      if n.isDir || n.current.None? then []
      else ReferenceStatements(NextId(f.tables.nodes.Keys), CurrentManifest(f.tables, src))
  }

  ghost function StatementsOf(f: Fs, call: FsCall): seq<MetaOp> {
    var nodes := f.tables.nodes;
    match call
    case CreateCall(path, isDir) =>
      (match Target(nodes, path)
       case Err(_) => []
       case Ok((parent, name)) => [InsertOp(parent, name, isDir)])
    case FlushCall(id, pieces) => [WriteOp(id, ManifestOf(pieces))]
    case DeleteFileCall(path) => if DeleteFile(f, path).1.Ok? then [DeleteOp(Find(f, path).value)] else []
    case DeleteDirCall(path) => if DeleteDir(f, path).1.Ok? then [DeleteIfEmptyOp(Find(f, path).value)] else []
    case RenameCall(from, to) =>
      (match (Find(f, from), Target(nodes, to))
       case (Ok(src), Ok((parent, name))) => if src == ROOT_ID then [] else MoveStatements(f, src, parent, name)
       case _ => [])
    case CopyCall(from, to) =>
      (match (Find(f, from), Target(nodes, to))
       case (Ok(src), Ok((parent, name))) =>
         if IntoItself(nodes, src, parent) == Ok(false) && src in nodes then CopyStatements(f, src, parent, name)
         else []
       case _ => [])
    case RevertCall(path, number) =>
      (match FileAt(f, path)
       case Err(_) => []
       case Ok(id) =>
         match VersionId(f.tables, id, number)
         case None => []
         case Some(v) => [WriteOp(id, ManifestAt(f.tables, v))])
    case PruneCall(path, number) => if FileAt(f, path).Ok? then [PruneOp(FileAt(f, path).value, number)] else []
    case CollectCall(_, _) => []
  }

  lemma RunOne(t: Tables, op: MetaOp)
    ensures Run(t, [op]) == Apply(t, op) && Run(t, []) == t
  {
    assert Init([op]) == [];
    assert Run(t, Init([op])) == t;
  }

  lemma RunTwo(t: Tables, a: MetaOp, b: MetaOp)
    ensures Run(t, [a, b]) == Apply(Apply(t, a), b)
  {
    RunOne(t, a);
    assert Init([a, b]) == [a];
  }

  lemma MoveRuns(f: Fs, src: nat, parent: nat, name: seq<byte>)
    ensures MoveTo(f, src, parent, name).0.tables == Run(f.tables, MoveStatements(f, src, parent, name))
  {
    var rename := RenameOp(src, parent, name);
    RunOne(f.tables, rename);
    if Child(f.tables.nodes, parent, name).Some? {
      RunTwo(f.tables, DeleteOp(Child(f.tables.nodes, parent, name).value), rename);
    }
  }

  lemma ReferenceRuns(f: Fs, id: nat, m: Outcome<Manifest>)
    ensures Reference(f, id, m).0.tables == Run(f.tables, ReferenceStatements(id, m))
  {
    if m.Ok? {
      RunOne(f.tables, WriteOp(id, m.value));
      ReindexKeepsRest(f.(tables := SetContent(f.tables, id, m.value).0), id);
    }
  }

  lemma CopyOntoRuns(f: Fs, src: nat, parent: nat, name: seq<byte>)
    requires src in f.tables.nodes && parent in f.tables.nodes
    ensures CopyOnto(f, src, parent, name).0.tables == Run(f.tables, CopyStatements(f, src, parent, name))
  {
    match Child(f.tables.nodes, parent, name)
    case Some(e) => ReferenceRuns(f, e, CurrentManifest(f.tables, src));
    case None => CopyNewRuns(f, src, parent, name, CopyOnto(f, src, parent, name).0);
  }

  lemma CopyNewRuns(f: Fs, src: nat, parent: nat, name: seq<byte>, g: Fs)
    requires src in f.tables.nodes && parent in f.tables.nodes && Child(f.tables.nodes, parent, name).None?
    requires g == CopyOnto(f, src, parent, name).0
    ensures g.tables == Run(f.tables, CopyStatements(f, src, parent, name))
  {
    var isDir, id := f.tables.nodes[src].isDir, NextId(f.tables.nodes.Keys);
    var h, m := Inserted(f, parent, name, isDir), CurrentManifest(f.tables, src);
    CopyOntoNew(f, src, parent, name);
    InsertedContents(f, parent, name, isDir, src);
    RunOne(f.tables, InsertOp(parent, name, isDir));
    if !isDir && f.tables.nodes[src].current.Some? && m.Ok? {
      ReferenceRuns(h, id, m);
      RunOne(h.tables, WriteOp(id, m.value));
      RunTwo(f.tables, InsertOp(parent, name, isDir), WriteOp(id, m.value));
    }
  }

  lemma CreateRuns(f: Fs, path: seq<byte>, isDir: bool)
    ensures Create(f, path, isDir).0.tables == Run(f.tables, StatementsOf(f, CreateCall(path, isDir)))
  {
    if Target(f.tables.nodes, path).Ok? {
      var (parent, name) := Target(f.tables.nodes, path).value;
      RunOne(f.tables, InsertOp(parent, name, isDir));
    }
  }

  lemma DeleteFileRuns(f: Fs, path: seq<byte>)
    ensures DeleteFile(f, path).0.tables == Run(f.tables, StatementsOf(f, DeleteFileCall(path)))
  {
    if DeleteFile(f, path).1.Ok? {
      RunOne(f.tables, DeleteOp(Find(f, path).value));
    }
  }

  lemma DeleteDirRuns(f: Fs, path: seq<byte>)
    ensures DeleteDir(f, path).0.tables == Run(f.tables, StatementsOf(f, DeleteDirCall(path)))
  {
    if DeleteDir(f, path).1.Ok? {
      RunOne(f.tables, DeleteIfEmptyOp(Find(f, path).value));
    }
  }

  lemma FlushRuns(f: Fs, id: nat, pieces: seq<seq<byte>>)
    ensures Flush(f, id, pieces).0.tables == Run(f.tables, StatementsOf(f, FlushCall(id, pieces)))
  {
    RunOne(f.tables, WriteOp(id, ManifestOf(pieces)));
    ReferenceRuns(f.(blobs := PutAll(f.blobs, pieces)), id, Ok(ManifestOf(pieces)));
  }

  lemma RevertRuns(f: Fs, path: seq<byte>, number: nat)
    ensures Revert(f, path, number).0.tables == Run(f.tables, StatementsOf(f, RevertCall(path, number)))
  {
    if FileAt(f, path).Ok? && VersionId(f.tables, FileAt(f, path).value, number).Some? {
      var id := FileAt(f, path).value;
      var v := VersionId(f.tables, id, number).value;
      RevertRefers(f, path, number, id, v);
      ReferenceRuns(f, id, Ok(ManifestAt(f.tables, v)));
    }
  }

  lemma PruneRuns(f: Fs, path: seq<byte>, number: nat)
    ensures Prune(f, path, number).0.tables == Run(f.tables, StatementsOf(f, PruneCall(path, number)))
  {
    if FileAt(f, path).Ok? {
      RunOne(f.tables, PruneOp(FileAt(f, path).value, number));
    }
  }

  lemma RenameRuns(f: Fs, from: seq<byte>, to: seq<byte>)
    ensures RenameFile(f, from, to).0.tables == Run(f.tables, StatementsOf(f, RenameCall(from, to)))
  {
    if Find(f, from).Ok? && Target(f.tables.nodes, to).Ok? {
      var (parent, name) := Target(f.tables.nodes, to).value;
      MoveRuns(f, Find(f, from).value, parent, name);
    }
  }

  lemma CopyRuns(f: Fs, from: seq<byte>, to: seq<byte>)
    ensures CopyFile(f, from, to).0.tables == Run(f.tables, StatementsOf(f, CopyCall(from, to)))
  {
    if Find(f, from).Ok? && Target(f.tables.nodes, to).Ok? {
      var src := Find(f, from).value;
      var (parent, name) := Target(f.tables.nodes, to).value;
      if IntoItself(f.tables.nodes, src, parent) == Ok(false) && src in f.tables.nodes {
        CopyFileIs(f, from, to, src, parent, name);
        CopyOntoRuns(f, src, parent, name);
      }
    }
  }

  /** Every operation is, for the tables, a run of statements. */
  lemma CallRunsStatements(f: Fs, call: FsCall)
    ensures Perform(f, call).tables == Run(f.tables, StatementsOf(f, call))
  {
    match call
    case CreateCall(path, isDir) => CreateRuns(f, path, isDir);
    case FlushCall(id, pieces) => FlushRuns(f, id, pieces);
    case DeleteFileCall(path) => DeleteFileRuns(f, path);
    case DeleteDirCall(path) => DeleteDirRuns(f, path);
    case RenameCall(from, to) => RenameRuns(f, from, to);
    case CopyCall(from, to) => CopyRuns(f, from, to);
    case RevertCall(path, number) => RevertRuns(f, path, number);
    case PruneCall(path, number) => PruneRuns(f, path, number);
    case CollectCall(_, _) =>
  }

  // ---- What one operation writes ----

  /** The content an operation makes current, and on which node: what is flushed, the version
      reverted to, or what a copied file exposes; nothing for any other operation, for a
      refused one, for a collection, and for a file without content copied to a new name. */
  ghost function WrittenBy(f: Fs, call: FsCall): Option<(nat, Manifest)> {
    var nodes := f.tables.nodes;
    match call
    case FlushCall(id, pieces) => Some((id, ManifestOf(pieces)))
    case RevertCall(path, number) =>
      (match Resolve(nodes, Segments(path))
       case None => None
       case Some(id) =>
         if (id in nodes && nodes[id].isDir) || Recorded(f.tables, id, number).None? then None
         else Some((id, Recorded(f.tables, id, number).value)))
    case CopyCall(from, to) =>
      (match (Resolve(nodes, Segments(from)), Resolve(nodes, Segments(to)))
       case (Some(src), at) =>
         if !CanCopy(f, from, to) || src !in nodes || nodes[src].isDir then None
         else if at.None? && nodes[src].current.None? then None
         else Some((if at.Some? then at.value else NextId(nodes.Keys), CurrentContent(f.tables, src)))
       case _ => None)
    case _ => None
  }

  ghost function CurrentContent(t: Tables, id: nat): Manifest {
    if CurrentManifest(t, id).Ok? then CurrentManifest(t, id).value else EMPTY_MANIFEST
  }

  ghost function WritesTo(w: Option<(nat, Manifest)>, node: nat): seq<Manifest> {
    if w.Some? && w.value.0 == node then [w.value.1] else []
  }

  lemma WritesOfOne(op: MetaOp, node: nat)
    ensures Writes([op], node) == if op.WriteOp? && op.id == node then [op.manifest] else []
    ensures Writes([], node) == []
  {
    assert Init([op]) == [];
    assert Writes(Init([op]), node) == [];
  }

  lemma WritesOfTwo(a: MetaOp, b: MetaOp, node: nat)
    requires !a.WriteOp?
    ensures Writes([a, b], node) == Writes([b], node)
  {
    WritesOfOne(a, node);
    WritesOfOne(b, node);
    assert Init([a, b]) == [a];
  }

  lemma MoveWritesNothing(f: Fs, src: nat, parent: nat, name: seq<byte>, node: nat)
    ensures Writes(MoveStatements(f, src, parent, name), node) == []
    ensures AllOk(MoveStatements(f, src, parent, name))
  {
    var rename := RenameOp(src, parent, name);
    WritesOfOne(rename, node);
    if Child(f.tables.nodes, parent, name).Some? {
      WritesOfTwo(DeleteOp(Child(f.tables.nodes, parent, name).value), rename, node);
    }
  }

  lemma ReferenceWrites(t: Tables, id: nat, src: nat, node: nat)
    requires CurrentManifest(t, src).Ok? && Stored(CurrentManifest(t, src).value)
    ensures Writes(ReferenceStatements(id, CurrentManifest(t, src)), node) ==
            WritesTo(Some((id, CurrentContent(t, src))), node)
    ensures AllOk(ReferenceStatements(id, CurrentManifest(t, src)))
  {
    WritesOfOne(WriteOp(id, CurrentManifest(t, src).value), node);
  }

  lemma CopyOverWrites(f: Fs, src: nat, parent: nat, name: seq<byte>, e: nat, node: nat)
    requires StoresOk(f) && src in f.tables.nodes && Child(f.tables.nodes, parent, name) == Some(e)
    ensures Writes(CopyStatements(f, src, parent, name), node) ==
            WritesTo(if f.tables.nodes[e].isDir || f.tables.nodes[src].isDir then None
                     else Some((e, CurrentContent(f.tables, src))), node)
    ensures AllOk(CopyStatements(f, src, parent, name))
  {
    CurrentLoads(f, src);
    LoadedIsPresent(f, src);
    ReferenceWrites(f.tables, e, src, node);
    assert Writes([], node) == [];
  }

  lemma CopyNewWrites(f: Fs, src: nat, parent: nat, name: seq<byte>, node: nat)
    requires StoresOk(f) && src in f.tables.nodes && Child(f.tables.nodes, parent, name) == None
    ensures Writes(CopyStatements(f, src, parent, name), node) ==
            WritesTo(if f.tables.nodes[src].isDir || f.tables.nodes[src].current.None? then None
                     else Some((NextId(f.tables.nodes.Keys), CurrentContent(f.tables, src))), node)
    ensures AllOk(CopyStatements(f, src, parent, name))
  {
    CurrentLoads(f, src);
    LoadedIsPresent(f, src);
    var id, n := NextId(f.tables.nodes.Keys), f.tables.nodes[src];
    var insert, write := InsertOp(parent, name, n.isDir), WriteOp(id, CurrentManifest(f.tables, src).value);
    ReferenceWrites(f.tables, id, src, node);
    WritesOfOne(insert, node);
    WritesOfTwo(insert, write, node);
    assert [insert] + [write] == [insert, write] && [insert] + [] == [insert];
  }

  lemma CopyWrites(f: Fs, from: seq<byte>, to: seq<byte>, node: nat)
    requires StoresOk(f)
    ensures Writes(StatementsOf(f, CopyCall(from, to)), node) == WritesTo(WrittenBy(f, CopyCall(from, to)), node)
    ensures AllOk(StatementsOf(f, CopyCall(from, to)))
  {
    if Find(f, from).Ok? && Target(f.tables.nodes, to).Ok? {
      var src := Find(f, from).value;
      var (parent, name) := Target(f.tables.nodes, to).value;
      FoundIsThere(f, from);
      DestinationChild(f, to, parent, name);
      CopyCheck(f, from, to, src, parent);
      match Child(f.tables.nodes, parent, name) {
        case Some(e) => CopyOverWrites(f, src, parent, name, e, node);
        case None => CopyNewWrites(f, src, parent, name, node);
      }
    }
  }

  lemma RevertWrites(f: Fs, path: seq<byte>, number: nat, node: nat)
    requires TablesOk(f.tables)
    ensures Writes(StatementsOf(f, RevertCall(path, number)), node) ==
            WritesTo(WrittenBy(f, RevertCall(path, number)), node)
    ensures AllOk(StatementsOf(f, RevertCall(path, number)))
  {
    RevertedContent(f, path, number);
    match WrittenBy(f, RevertCall(path, number))
    case None => assert Writes([], node) == [];
    case Some((id, m)) => WritesOfOne(WriteOp(id, m), node);
  }

  lemma RevertedContent(f: Fs, path: seq<byte>, number: nat)
    requires TablesOk(f.tables)
    ensures match WrittenBy(f, RevertCall(path, number))
            case None => StatementsOf(f, RevertCall(path, number)) == []
            case Some((id, m)) => Stored(m) && StatementsOf(f, RevertCall(path, number)) == [WriteOp(id, m)]
  {
    if FileAt(f, path).Ok? && VersionId(f.tables, FileAt(f, path).value, number).Some? {
      LoadedManifestIsStored(f.tables, VersionId(f.tables, FileAt(f, path).value, number).value);
    }
  }

  lemma RenameWrites(f: Fs, from: seq<byte>, to: seq<byte>, node: nat)
    ensures Writes(StatementsOf(f, RenameCall(from, to)), node) == []
    ensures AllOk(StatementsOf(f, RenameCall(from, to)))
  {
    if Find(f, from).Ok? && Target(f.tables.nodes, to).Ok? {
      var (parent, name) := Target(f.tables.nodes, to).value;
      MoveWritesNothing(f, Find(f, from).value, parent, name, node);
    }
  }

  /** The one content write among an operation's statements is the one it should make. */
  lemma CallWrites(f: Fs, call: FsCall, node: nat)
    requires StoresOk(f) && Possible(f, call)
    ensures Writes(StatementsOf(f, call), node) == WritesTo(WrittenBy(f, call), node)
    ensures AllOk(StatementsOf(f, call))
  {
    match call
    case CopyCall(from, to) => CopyWrites(f, from, to, node);
    case RevertCall(path, number) => RevertWrites(f, path, number, node);
    case RenameCall(from, to) => RenameWrites(f, from, to, node);
    case FlushCall(id, pieces) =>
      ManifestOfIsStored(pieces);
      WritesOfOne(WriteOp(id, ManifestOf(pieces)), node);
    case _ => PlainStatements(StatementsOf(f, call), node);
  }

  lemma PlainStatements(ops: seq<MetaOp>, node: nat)
    requires |ops| <= 1 && forall op :: op in ops ==> !op.WriteOp?
    ensures Writes(ops, node) == [] && AllOk(ops)
  {
    assert ops != [] ==> ops == [ops[0]];
    if ops != [] {
      WritesOfOne(ops[0], node);
    }
  }

  // ---- Runs of operations ----

  ghost function Statements(f: Fs, calls: seq<FsCall>): seq<MetaOp> {
    if calls == [] then []
    else Statements(f, Init(calls)) + StatementsOf(RunCalls(f, Init(calls)), Last(calls))
  }

  /** What a run makes current on a node, in order. */
  ghost function WrittenTo(f: Fs, calls: seq<FsCall>, node: nat): seq<Manifest> {
    if calls == [] then []
    else WrittenTo(f, Init(calls), node) + WritesTo(WrittenBy(RunCalls(f, Init(calls)), Last(calls)), node)
  }

  lemma {:induction false} RunConcat(t: Tables, a: seq<MetaOp>, b: seq<MetaOp>)
    ensures Run(t, a + b) == Run(Run(t, a), b)
  {
    if b == [] {
      assert a + b == a;
    } else {
      RunConcat(t, a, Init(b));
      assert Init(a + b) == a + Init(b) && Last(a + b) == Last(b);
    }
  }

  lemma {:induction false} WritesConcat(a: seq<MetaOp>, b: seq<MetaOp>, node: nat)
    ensures Writes(a + b, node) == Writes(a, node) + Writes(b, node)
  {
    if b == [] {
      assert a + b == a;
    } else {
      WritesConcat(a, Init(b), node);
      assert Init(a + b) == a + Init(b) && Last(a + b) == Last(b);
    }
  }

  lemma {:induction false} StoresStayOk(f: Fs, calls: seq<FsCall>)
    requires StoresOk(f) && AllPossible(f, calls)
    ensures StoresOk(RunCalls(f, calls))
  {
    if calls != [] {
      RunInit(f, calls);
      StoresStayOk(f, Init(calls));
      CallKeeps(RunCalls(f, Init(calls)), Last(calls));
    }
  }

  /** Every run of filesystem operations is, for the tables, a run of statements that write
      stored manifests only; and the contents those write are just the ones flushed, reverted
      to and copied, in order. */
  lemma {:induction false} CallsRunStatements(f: Fs, calls: seq<FsCall>, node: nat)
    requires StoresOk(f) && AllPossible(f, calls)
    ensures RunCalls(f, calls).tables == Run(f.tables, Statements(f, calls)) && AllOk(Statements(f, calls))
    ensures Writes(Statements(f, calls), node) == WrittenTo(f, calls, node)
  {
    if calls != [] {
      RunInit(f, calls);
      CallsRunStatements(f, Init(calls), node);
      StoresStayOk(f, Init(calls));
      var g := RunCalls(f, Init(calls));
      CallRunsStatements(g, Last(calls));
      CallWrites(g, Last(calls), node);
      RunConcat(f.tables, Statements(f, Init(calls)), StatementsOf(g, Last(calls)));
      WritesConcat(Statements(f, Init(calls)), StatementsOf(g, Last(calls)), node);
    }
  }

  /** The node is there before, after and between the operations. */
  ghost predicate LivesBetween(f: Fs, calls: seq<FsCall>, node: nat) {
    forall i :: 0 <= i <= |calls| ==> node in RunCalls(f, calls[..i]).tables.nodes
  }

  lemma LivesBetweenInit(f: Fs, calls: seq<FsCall>, node: nat)
    requires calls != [] && LivesBetween(f, calls, node)
    ensures LivesBetween(f, Init(calls), node)
    ensures node in RunCalls(f, Init(calls)).tables.nodes && node in RunCalls(f, calls).tables.nodes
  {
    forall i | 0 <= i <= |Init(calls)| ensures node in RunCalls(f, Init(calls)[..i]).tables.nodes {
      assert Init(calls)[..i] == calls[..i];
    }
    assert calls[..|calls| - 1] == Init(calls);
    assert calls[..|calls|] == calls;
  }

  lemma LivesConcat(t: Tables, a: seq<MetaOp>, b: seq<MetaOp>, node: nat)
    requires LivesThrough(t, a, node) && LivesThrough(Run(t, a), b, node)
    ensures LivesThrough(t, a + b, node)
  {
    forall i | 0 <= i <= |a + b| ensures node in Run(t, (a + b)[..i]).nodes {
      if i <= |a| {
        assert (a + b)[..i] == a[..i];
      } else {
        assert (a + b)[..i] == a + b[..i - |a|];
        RunConcat(t, a, b[..i - |a|]);
      }
    }
  }

  /** Of at most two statements, the second never brings back what the first removed. */
  ghost predicate NoComeback(ops: seq<MetaOp>) {
    |ops| <= 2 && (|ops| == 2 ==> !ops[1].InsertOp?)
  }

  lemma CallNoComeback(f: Fs, call: FsCall)
    ensures NoComeback(StatementsOf(f, call))
  {
  }

  lemma LivesThroughCall(t: Tables, ops: seq<MetaOp>, node: nat)
    requires NoComeback(ops) && node in t.nodes && node in Run(t, ops).nodes
    ensures LivesThrough(t, ops, node)
  {
    forall i | 0 <= i <= |ops| ensures node in Run(t, ops[..i]).nodes {
      if i == |ops| {
        assert ops[..i] == ops;
      } else if i == 0 {
        assert ops[..i] == [];
      } else {
        assert ops == [ops[0], ops[1]] && ops[..i] == [ops[0]];
        RunOne(t, ops[0]);
        RunTwo(t, ops[0], ops[1]);
      }
    }
  }

  lemma {:induction false} LivesThroughStatements(f: Fs, calls: seq<FsCall>, node: nat)
    requires StoresOk(f) && AllPossible(f, calls) && LivesBetween(f, calls, node)
    ensures LivesThrough(f.tables, Statements(f, calls), node)
  {
    if calls == [] {
      assert calls[..0] == calls;
    } else {
      RunInit(f, calls);
      LivesBetweenInit(f, calls, node);
      LivesThroughStatements(f, Init(calls), node);
      CallsRunStatements(f, Init(calls), node);
      var g := RunCalls(f, Init(calls));
      CallRunsStatements(g, Last(calls));
      CallNoComeback(g, Last(calls));
      LivesThroughCall(g.tables, StatementsOf(g, Last(calls)), node);
      LivesConcat(f.tables, Statements(f, Init(calls)), StatementsOf(g, Last(calls)), node);
    }
  }

  /** Over any run of operations that a node lives through, its history is what was flushed,
      reverted and copied onto it, each repeat of the current content left out, and nothing
      else: no operation adds a version of its own. */
  lemma CallsLoseNothing(f: Fs, calls: seq<FsCall>, node: nat)
    requires StoresOk(f) && AllPossible(f, calls) && LivesBetween(f, calls, node)
    ensures NothingLost(f.tables, RunCalls(f, calls).tables, node, WrittenTo(f, calls, node))
    ensures HistoryExtends(f.tables, RunCalls(f, calls).tables, node)
  {
    CallsRunStatements(f, calls, node);
    LivesThroughStatements(f, calls, node);
    NoLostUpdate(f.tables, Statements(f, calls), node);
    VersionIdentity(f.tables, Statements(f, calls), node);
  }
}
