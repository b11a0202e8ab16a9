// Node ids that clients keep (vfs crate, file.rs and davfs.rs): an open write handle, or a
// copy that has resolved its ends, commits to an id whose node may be gone by then, and the
// largest id is given out again.
module StaleIds {
  import opened Base
  import opened Manifests
  import opened MetaTables
  import opened VersionHistory
  import opened RevertRaces

  /** How often a run gives the id to a new node. */
  ghost function Births(t: Tables, ops: seq<MetaOp>, id: nat): nat {
    if ops == [] then 0
    else Births(t, Init(ops), id) + if id !in Run(t, Init(ops)).nodes && id in Run(t, ops).nodes then 1 else 0
  }

  /** Exactly when an id still names the node it was resolved to: the node was there all the
      time. */
  lemma {:induction false} SameNodeIff(t: Tables, ops: seq<MetaOp>, id: nat)
    requires id in t.nodes
    ensures id in Run(t, ops).nodes && Births(t, ops, id) == 0 <==> LivesThrough(t, ops, id)
  {
    if ops == [] {
      assert forall i :: 0 <= i <= |ops| ==> ops[..i] == [];
    } else {
      SameNodeIff(t, Init(ops), id);
      assert forall i :: 0 <= i <= |Init(ops)| ==> Init(ops)[..i] == ops[..i];
      assert ops[..|ops|] == ops;
      if LivesThrough(t, ops, id) {
        LivesThroughInit(t, ops, id);
      }
    }
  }

  /** In that case the commit goes to that file: it becomes its current content, and every
      number the file had keeps its meaning. */
  lemma CommitStaysWithNode(t: Tables, ops: seq<MetaOp>, id: nat, m: Manifest)
    requires TablesOk(t) && AllOk(ops) && Stored(m)
    requires id in t.nodes && id in Run(t, ops).nodes && Births(t, ops, id) == 0
    ensures var u := Apply(Run(t, ops), WriteOp(id, m));
      CurrentOf(u, id) == Some(m) && HistoryExtends(t, u, id)
  {
    SameNodeIff(t, ops, id);
    var all := ops + [WriteOp(id, m)];
    LivesOn(t, ops, WriteOp(id, m), id);
    VersionIdentity(t, all, id);
    NoLostUpdate(t, all, id);
    assert Init(all) == ops && Last(all) == WriteOp(id, m);
  }

  lemma LivesOn(t: Tables, ops: seq<MetaOp>, op: MetaOp, id: nat)
    requires LivesThrough(t, ops, id) && id in Apply(Run(t, ops), op).nodes
    ensures LivesThrough(t, ops + [op], id)
    ensures Run(t, ops + [op]) == Apply(Run(t, ops), op)
  {
    var all := ops + [op];
    assert Init(all) == ops;
    forall i | 0 <= i <= |all| ensures id in Run(t, all[..i]).nodes {
      assert all[..i] == if i <= |ops| then ops[..i] else all;
    }
  }

  /** A guard that a client has without looking: new ids are larger than every id in use, so
      as long as any node with a larger id lives, the id is not given out again. */
  lemma {:induction false} LargerNodeGuards(t: Tables, ops: seq<MetaOp>, id: nat, w: nat)
    requires id in t.nodes && id < w && LivesThrough(t, ops, w)
    ensures Births(t, ops, id) == 0
  {
    if ops != [] {
      LivesThroughInit(t, ops, w);
      LargerNodeGuards(t, Init(ops), id, w);
    }
  }

  /** Then a commit to the id goes to its own node, or is refused. */
  lemma GuardedCommit(t: Tables, ops: seq<MetaOp>, id: nat, w: nat, m: Manifest)
    requires TablesOk(t) && AllOk(ops) && Stored(m) && id in t.nodes && id < w && LivesThrough(t, ops, w)
    ensures if LivesThrough(t, ops, id) then
              var u := Apply(Run(t, ops), WriteOp(id, m));
              CurrentOf(u, id) == Some(m) && HistoryExtends(t, u, id)
            else SetContent(Run(t, ops), id, m) == (Run(t, ops), Err(NotFound))
  {
    LargerNodeGuards(t, ops, id, w);
    SameNodeIff(t, ops, id);
    if LivesThrough(t, ops, id) {
      CommitStaysWithNode(t, ops, id, m);
    }
  }

  // ---- The source of a copy ----

  /** A copy loads from a source id it resolved before. While the source lives, what it loads
      is the last manifest committed to the source by then. */
  lemma CopyLoadsLatest(t: Tables, ops: seq<MetaOp>, src: nat)
    requires TablesOk(t) && AllOk(ops) && LivesThrough(t, ops, src)
    ensures CurrentManifest(Run(t, ops), src) ==
            match Latest(CurrentOf(t, src), Writes(ops, src))
            case Some(m) => Ok(m)
            case None => Ok(EMPTY_MANIFEST)
  {
    RunKeepsOk(t, ops);
    VersionIdentity(t, ops, src);
    NoLostUpdate(t, ops, src);
    assert CurrentOk(Run(t, ops), src);
  }

  /** A copy onto a new file cannot pick up another file's content while that new file lives:
      the source is still itself then, or gone. */
  lemma CopyToNewIsGuarded(t: Tables, parent: nat, name: seq<byte>, ops: seq<MetaOp>, src: nat)
    requires src in t.nodes && Insert(t, parent, name, false).1.Ok?
    requires var (u, dst) := Insert(t, parent, name, false);
      LivesThrough(u, ops, dst.value)
    ensures var (u, dst) := Insert(t, parent, name, false);
      && (LivesThrough(u, ops, src) || src !in Run(u, ops).nodes)
      && (src !in Run(u, ops).nodes ==> CurrentManifest(Run(u, ops), src) == Err(NotFound))
  {
    var (u, dst) := Insert(t, parent, name, false);
    LargerNodeGuards(u, ops, src, dst.value);
    SameNodeIff(u, ops, src);
  }

  /** If the source is deleted between the creation of the destination and the load, the copy
      fails and leaves the new file behind, empty. */
  lemma CopyOfGoneSource(t: Tables, parent: nat, name: seq<byte>, src: nat)
    requires src in t.nodes && !HasChildren(t.nodes, src) && src != parent
    requires Insert(t, parent, name, false).1.Ok?
    ensures var (u, dst) := Insert(t, parent, name, false);
      var gone := Apply(u, DeleteOp(src));
      && CurrentManifest(gone, src) == Err(NotFound)
      && dst.value in gone.nodes && CurrentManifest(gone, dst.value) == Ok(EMPTY_MANIFEST)
  {
    var (u, dst) := Insert(t, parent, name, false);
    assert !HasChildren(u.nodes, src);
    CascadeOfLeaf(u.nodes, src);
  }

  /** Deletes the file `c`, creates `d`, and writes it. */
  function SupplantSource(other: Manifest): seq<MetaOp> {
    [DeleteOp(3), InsertOp(ROOT_ID, [100], false), WriteOp(3, other)]
  }

  const B_AND_EMPTY_D := Tables(EMPTY_B.nodes[3 := Node(Some(ROOT_ID), [100], false, 0, None)], map[], map[])

  lemma SupplantSourceRun(m: Manifest, other: Manifest)
    ensures Run(OtherFile(m), SupplantSource(other)) == Apply(B_AND_EMPTY_D, WriteOp(3, other))
  {
    var t, ops := OtherFile(m), SupplantSource(other);
    assert !HasChildren(t.nodes, 3);
    CascadeOfLeaf(t.nodes, 3);
    NextOf(EMPTY_B.nodes.Keys, 2);
    assert B[0] != 100;
    assert Run(t, ops[..0]) == t;
    assert Init(ops[..1]) == ops[..0] && Run(t, ops[..1]) == EMPTY_B;
    assert Init(ops[..2]) == ops[..1] && Run(t, ops[..2]) == B_AND_EMPTY_D;
    assert Init(ops) == ops[..2];
  }

  /** Onto an existing file there is no such guard: a copy of `c` onto the older `b`, whose
      source is deleted and its id reused before the load, copies the content of `d`. */
  lemma CopyAcrossReuse(m: Manifest, other: Manifest)
    requires Stored(m) && Stored(other)
    ensures var t := Run(Run(FRESH_TABLES, Start(m)), Replacement(m));
      var u := Run(t, SupplantSource(other));
      && 2 in t.nodes && 3 in t.nodes && t.nodes[3].name == C && CurrentManifest(t, 3) == Ok(m)
      && 3 in u.nodes && u.nodes[3].name == [100] && CurrentManifest(u, 3) == Ok(other)
      && CurrentOf(SetContent(u, 2, CurrentManifest(u, 3).value).0, 2) == Some(other)
  {
    StartRun(m);
    ReplacementRun(m, m);
    OtherFileContents(m);
    SupplantSourceRun(m, other);
    FirstWrite(B_AND_EMPTY_D, 3, other);
    StoredRoundTrip(other);
    AppendedIsCurrent(Apply(B_AND_EMPTY_D, WriteOp(3, other)), 2, other);
  }

  lemma AppendedIsCurrent(t: Tables, id: nat, m: Manifest)
    requires id in t.nodes && t.nodes[id].current.None? && Stored(m)
    ensures CurrentOf(SetContent(t, id, m).0, id) == Some(m)
  {
    StoredRoundTrip(m);
  }

  // ---- A reused id ----

  /** Deletes the file `b` and creates `c`. */
  const SUPPLANT: seq<MetaOp> := [DeleteOp(2), InsertOp(ROOT_ID, C, false)]

  const EMPTY_C := Tables(map[1 := ROOT_NODE, 2 := UNWRITTEN_C], map[], map[])

  lemma SupplantRun(m: Manifest)
    ensures Run(OneFile(m), SUPPLANT[..1]) == FRESH_TABLES
    ensures Run(OneFile(m), SUPPLANT) == EMPTY_C
  {
    var ops := SUPPLANT;
    DeletesB(m);
    NextOf(FRESH_TABLES.nodes.Keys, 1);
    assert Run(OneFile(m), ops[..0]) == OneFile(m);
    assert Init(ops[..1]) == ops[..0];
    assert Init(ops) == ops[..1];
  }

  lemma SupplantedIsNotSame(m: Manifest)
    ensures Births(OneFile(m), SUPPLANT, 2) != 0
  {
    SupplantRun(m);
    assert !LivesThrough(OneFile(m), SUPPLANT, 2);
    SameNodeIff(OneFile(m), SUPPLANT, 2);
  }

  /** Otherwise the commit may succeed into a different file: a handle opened on `b` whose
      file was deleted, and its id reused, writes `c`. */
  lemma CommitAcrossReuse(m: Manifest, other: Manifest)
    requires Stored(m) && Stored(other)
    ensures var t := Run(FRESH_TABLES, Start(m));
      var u := Run(t, SUPPLANT);
      && 2 in t.nodes && t.nodes[2].name == B
      && 2 in u.nodes && u.nodes[2].name == C && CurrentOf(u, 2) == None
      && SetContent(u, 2, other).1 == Ok(()) && CurrentOf(SetContent(u, 2, other).0, 2) == Some(other)
      && Births(t, SUPPLANT, 2) != 0
  {
    StartRun(m);
    SupplantRun(m);
    SupplantedIsNotSame(m);
    FirstWrite(EMPTY_C, 2, other);
    StoredRoundTrip(other);
  }
}
