// A revert looks its node and version up before it takes the guard and loads the version
// under it (vfs crate, davfs.rs). What it restores when other clients' statements run in
// between.
module RevertRaces {
  import opened Base
  import opened Manifests
  import opened MetaTables
  import opened VersionHistory
  import opened References
  import opened Files

  /** What loading version row `v` and making it the content of `id` leaves the node with. */
  function Reverted(u: Tables, id: nat, v: nat): Outcome<Manifest> {
    CurrentManifest(SetContent(u, id, ManifestAt(u, v)).0, id)
  }

  /** Row `v` is what it was at `t`, or gone; and the node has a row at least as large. */
  ghost predicate RowKept(t: Tables, u: Tables, id: nat, v: nat) {
    && id in u.nodes && u.nodes[id].current.Some? && v <= u.nodes[id].current.value
    && (v in u.versions && v in t.versions ==> u.versions[v] == t.versions[v] && ManifestAt(u, v) == ManifestAt(t, v))
  }

  lemma PruneKeepsRow(u: Tables, pruned: nat, number: nat, id: nat, v: nat)
    requires id in u.nodes && CurrentOk(u, id) && u.nodes[id].current.Some? && v <= u.nodes[id].current.value
    ensures var w := DeleteVersion(u, pruned, number).0;
      RowKept(u, w, id, v) && (v in w.versions ==> v in u.versions)
  {
  }

  lemma WriteKeepsRow(u: Tables, written: nat, m: Manifest, id: nat, v: nat)
    requires id in u.nodes && CurrentOk(u, id) && u.nodes[id].current.Some? && v <= u.nodes[id].current.value
    ensures var w := SetContent(u, written, m).0;
      RowKept(u, w, id, v) && (v in w.versions ==> v in u.versions)
  {
  }

  lemma DeleteKeepsRow(u: Tables, gone: nat, id: nat, v: nat)
    requires gone in u.nodes && id in Delete(u, gone).nodes
    requires u.nodes[id].current.Some? && v <= u.nodes[id].current.value
    ensures RowKept(u, Delete(u, gone), id, v)
    ensures v in Delete(u, gone).versions ==> v in u.versions
  {
  }

  /** As long as a node lives, the row id of a version of its is not given out again: the
      node's current row is at least as large, and new rows are larger than every row. */
  lemma StepKeepsRow(u: Tables, op: MetaOp, id: nat, v: nat)
    requires id in u.nodes && CurrentOk(u, id) && id in Apply(u, op).nodes
    requires u.nodes[id].current.Some? && v <= u.nodes[id].current.value
    ensures RowKept(u, Apply(u, op), id, v)
    ensures v in Apply(u, op).versions ==> v in u.versions
  {
    match op
    case PruneOp(node, number) => PruneKeepsRow(u, node, number, id, v);
    case WriteOp(written, m) => WriteKeepsRow(u, written, m, id, v);
    case DeleteOp(gone) => if gone in u.nodes { DeleteKeepsRow(u, gone, id, v); }
    case DeleteIfEmptyOp(gone) => if gone in u.nodes && !HasChildren(u.nodes, gone) { DeleteKeepsRow(u, gone, id, v); }
    case _ =>
  }

  lemma {:induction false} RunKeepsRow(t: Tables, ops: seq<MetaOp>, id: nat, v: nat)
    requires TablesOk(t) && AllOk(ops) && LivesThrough(t, ops, id)
    requires v in t.versions && t.versions[v].node == id
    ensures RowKept(t, Run(t, ops), id, v)
  {
    if ops == [] {
      assert ops[..0] == ops;
      assert CurrentOk(t, id);
    } else {
      LivesThroughInit(t, ops, id);
      RunKeepsRow(t, Init(ops), id, v);
      assert CurrentOk(Run(t, Init(ops)), id) by {
        RunKeepsOk(t, Init(ops));
      }
      StepKeepsRow(Run(t, Init(ops)), Last(ops), id, v);
    }
  }

  /** Exactly when a revert yields the version asked for. Whatever statements run between
      the lookup and the load while the node lives, it does if and only if the version is
      still there, or was empty anyway. */
  lemma RevertYieldsVersionIff(t: Tables, ops: seq<MetaOp>, id: nat, number: nat, v: nat)
    requires TablesOk(t) && AllOk(ops) && LivesThrough(t, ops, id) && VersionId(t, id, number) == Some(v)
    ensures var u := Run(t, ops);
      Reverted(u, id, v) == Ok(ManifestAt(t, v)) <==> v in u.versions || ManifestAt(t, v) == EMPTY_MANIFEST
  {
    var u := Run(t, ops);
    RunKeepsRow(t, ops, id, v);
    RunKeepsOk(t, ops);
    RevertedIsLoaded(u, id, v);
  }

  /** In particular, pruned directly before the load, the version is lost: the revert succeeds
      and empties the file. */
  lemma RevertRacingPrune(t: Tables, id: nat, number: nat)
    requires TablesOk(t) && id in t.nodes && DeleteVersion(t, id, number).1.Ok?
    ensures var v, pruned := VersionId(t, id, number).value, DeleteVersion(t, id, number).0;
      SetContent(pruned, id, ManifestAt(pruned, v)).1.Ok? && Reverted(pruned, id, v) == Ok(EMPTY_MANIFEST)
  {
    PruneKeepsOk(t, id, number);
    RevertedIsLoaded(DeleteVersion(t, id, number).0, id, VersionId(t, id, number).value);
  }

  // ---- A node that does not live through ----

  const B: seq<byte> := [98]
  const C: seq<byte> := [99]

  const ROOT_NODE := Node(None, [], true, 0, None)
  const UNWRITTEN_B := Node(Some(ROOT_ID), B, false, 0, None)
  const UNWRITTEN_C := Node(Some(ROOT_ID), C, false, 0, None)

  /** Only a file `b`, not written yet. */
  const EMPTY_B := Tables(map[1 := ROOT_NODE, 2 := UNWRITTEN_B], map[], map[])

  const EMPTY_B_AND_C := Tables(map[1 := ROOT_NODE, 2 := UNWRITTEN_B, 3 := UNWRITTEN_C], map[], map[])

  /** A file `b` whose first version is in row 1. */
  function OneFile(m: Manifest): Tables {
    Tables(map[1 := ROOT_NODE, 2 := UNWRITTEN_B.(size := m.totalSize, current := Some(1))],
           map[1 := VersionRow(2, 1, m.totalSize)], map[1 := EncodeRows(m.chunks)])
  }

  /** Two files `b` and `c`; `c` has its first version in row 1. */
  function OtherFile(m: Manifest): Tables {
    Tables(map[1 := ROOT_NODE, 2 := UNWRITTEN_B, 3 := UNWRITTEN_C.(size := m.totalSize, current := Some(1))],
           map[1 := VersionRow(3, 1, m.totalSize)], map[1 := EncodeRows(m.chunks)])
  }

  /** Creates `b` and writes it. */
  function Start(m: Manifest): seq<MetaOp> {
    [InsertOp(ROOT_ID, B, false), WriteOp(2, m)]
  }

  /** Deletes `b`, creates it anew along with `c`, and writes `c`. */
  function Replacement(m: Manifest): seq<MetaOp> {
    [DeleteOp(2), InsertOp(ROOT_ID, B, false), InsertOp(ROOT_ID, C, false), WriteOp(3, m)]
  }

  lemma NextOf(ids: set<nat>, top: nat)
    requires top in ids && forall x :: x in ids ==> x <= top
    ensures NextId(ids) == top + 1
  {
    assert NextId(ids) - 1 in ids;
  }

  lemma InsertsBAndC()
    ensures Apply(FRESH_TABLES, InsertOp(ROOT_ID, B, false)) == EMPTY_B
    ensures Apply(EMPTY_B, InsertOp(ROOT_ID, C, false)) == EMPTY_B_AND_C
  {
    NextOf(FRESH_TABLES.nodes.Keys, 1);
    NextOf(EMPTY_B.nodes.Keys, 2);
    assert B[0] != C[0];
  }

  lemma FirstWrite(t: Tables, id: nat, m: Manifest)
    requires id in t.nodes && t.nodes[id].current.None? && t.versions == map[] && t.chunks == map[]
    ensures Apply(t, WriteOp(id, m)) ==
            Tables(t.nodes[id := t.nodes[id].(current := Some(1), size := m.totalSize)],
                   map[1 := VersionRow(id, 1, m.totalSize)], map[1 := EncodeRows(m.chunks)])
  {
    assert Numbers(t, id) == {};
    assert NextId(t.versions.Keys) == 1;
  }

  lemma DeletesB(m: Manifest)
    ensures Apply(OneFile(m), DeleteOp(2)) == FRESH_TABLES
  {
    CascadeOfLeaf(OneFile(m).nodes, 2);
  }

  lemma StartRun(m: Manifest)
    ensures Run(FRESH_TABLES, Start(m)) == OneFile(m)
  {
    var ops := Start(m);
    InsertsBAndC();
    FirstWrite(EMPTY_B, 2, m);
    assert Run(FRESH_TABLES, ops[..0]) == FRESH_TABLES;
    assert Init(ops[..1]) == ops[..0] && Run(FRESH_TABLES, ops[..1]) == EMPTY_B;
    assert Init(ops) == ops[..1];
  }

  lemma OneFileVersion(m: Manifest)
    requires Stored(m)
    ensures VersionId(OneFile(m), 2, 1) == Some(1) && CurrentManifest(OneFile(m), 2) == Ok(m)
  {
    StoredRoundTrip(m);
    assert IsVersion(OneFile(m), 2, 1, 1);
  }

  lemma OtherFileContents(m: Manifest)
    requires Stored(m)
    ensures CurrentManifest(OtherFile(m), 2) == Ok(EMPTY_MANIFEST)
    ensures CurrentManifest(OtherFile(m), 3) == Ok(m) == Ok(ManifestAt(OtherFile(m), 1))
  {
    StoredRoundTrip(m);
  }

  lemma ReplacementRun(m: Manifest, other: Manifest)
    ensures Run(OneFile(m), Replacement(other)) == OtherFile(other)
  {
    var t, ops := OneFile(m), Replacement(other);
    InsertsBAndC();
    FirstWrite(EMPTY_B_AND_C, 3, other);
    DeletesB(m);
    assert Run(t, ops[..0]) == t;
    assert Init(ops[..1]) == ops[..0] && Run(t, ops[..1]) == FRESH_TABLES;
    assert Init(ops[..2]) == ops[..1] && Run(t, ops[..2]) == EMPTY_B;
    assert Init(ops[..3]) == ops[..2] && Run(t, ops[..3]) == EMPTY_B_AND_C;
    assert Init(ops) == ops[..3];
  }

  lemma OtherFileIsOk(m: Manifest, other: Manifest)
    requires Stored(m) && Stored(other)
    ensures TablesOk(OtherFile(other))
  {
    StartRun(m);
    ReplacementRun(m, other);
    RunKeepsOk(FRESH_TABLES, Start(m));
    RunKeepsOk(Run(FRESH_TABLES, Start(m)), Replacement(other));
  }

  lemma RevertedIsLoaded(u: Tables, id: nat, v: nat)
    requires TablesOk(u) && id in u.nodes
    ensures Reverted(u, id, v) == Ok(ManifestAt(u, v))
  {
    LoadedManifestIsStored(u, v);
    SetContentCommits(u, id, ManifestAt(u, v));
  }

  lemma RevertedOther(m: Manifest, other: Manifest)
    requires Stored(m) && Stored(other)
    ensures Reverted(OtherFile(other), 2, 1) == Ok(other)
  {
    OtherFileContents(other);
    assert TablesOk(OtherFile(other)) by {
      OtherFileIsOk(m, other);
    }
    RevertedIsLoaded(OtherFile(other), 2, 1);
  }

  /** If the file is deleted in between, both its node id and the version's row id may be in
      use again, for other files: a revert of `b` to its own version 1 then succeeds and puts
      the content of `c` into the new `b`. */
  lemma RevertAcrossReuse(m: Manifest, other: Manifest)
    requires Stored(m) && Stored(other)
    ensures AllOk(Start(m) + Replacement(other))
    ensures var t := Run(FRESH_TABLES, Start(m));
      var u := Run(t, Replacement(other));
      && VersionId(t, 2, 1) == Some(1) && CurrentManifest(t, 2) == Ok(m)
      && CurrentManifest(u, 2) == Ok(EMPTY_MANIFEST) && CurrentManifest(u, 3) == Ok(other)
      && Reverted(u, 2, 1) == Ok(other)
  {
    StartRun(m);
    ReplacementRun(m, other);
    OneFileVersion(m);
    OtherFileContents(other);
    RevertedOther(m, other);
  }
}
