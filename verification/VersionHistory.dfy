// Version histories over whole runs of metadata statements, from any interleaving of
// clients: every statement is one atomic step on the tables.
module VersionHistory {
  import opened Base
  import opened Manifests
  import opened MetaTables

  datatype MetaOp =
    | InsertOp(parent: nat, name: seq<byte>, isDir: bool)
    | RenameOp(id: nat, parent: nat, name: seq<byte>)
    | DeleteOp(id: nat)
    | DeleteIfEmptyOp(id: nat)
    | PruneOp(node: nat, number: nat)
    | WriteOp(id: nat, manifest: Manifest)

  ghost function Apply(t: Tables, op: MetaOp): Tables {
    match op
    case InsertOp(parent, name, isDir) => Insert(t, parent, name, isDir).0
    case RenameOp(id, parent, name) => Rename(t, id, parent, name).0
    case DeleteOp(id) => if id in t.nodes then Delete(t, id) else t
    case DeleteIfEmptyOp(id) => if id in t.nodes && !HasChildren(t.nodes, id) then Delete(t, id) else t
    case PruneOp(node, number) => DeleteVersion(t, node, number).0
    case WriteOp(id, m) => SetContent(t, id, m).0
  }

  /** Only manifests of stored files are ever written. */
  ghost predicate OpOk(op: MetaOp) {
    op.WriteOp? ==> Stored(op.manifest)
  }

  // ---- Every statement keeps the schema's constraints ----

  lemma InsertKeepsSchema(t: Tables, parent: nat, name: seq<byte>, isDir: bool)
    requires SchemaOk(t)
    ensures SchemaOk(Insert(t, parent, name, isDir).0)
  {
    var u := Insert(t, parent, name, isDir).0;
    if u != t {
      InsertKeepsSiblingsUnique(t.nodes, NextId(t.nodes.Keys), u.nodes[NextId(t.nodes.Keys)]);
      NumbersStayUnique(t, u);
    }
  }

  lemma InsertKeepsSiblingsUnique(nodes: map<nat, Node>, id: nat, node: Node)
    requires SiblingsUnique(nodes) && id !in nodes
    requires node.parent.Some? ==> forall c :: !IsChild(nodes, node.parent.value, node.name, c)
    ensures SiblingsUnique(nodes[id := node])
  {
    var after := nodes[id := node];
    forall p: nat, x, a: nat, b: nat | IsChild(after, p, x, a) && IsChild(after, p, x, b) ensures a == b {
      assert a != id ==> IsChild(nodes, p, x, a);
      assert b != id ==> IsChild(nodes, p, x, b);
    }
  }

  lemma NumbersStayUnique(t: Tables, u: Tables)
    requires NumbersUnique(t) && forall v :: v in u.versions ==> v in t.versions && u.versions[v] == t.versions[v]
    ensures NumbersUnique(u)
  {
    forall node: nat, k: nat, v: nat, w: nat | IsVersion(u, node, k, v) && IsVersion(u, node, k, w) ensures v == w {
      assert IsVersion(t, node, k, v) && IsVersion(t, node, k, w);
    }
  }

  lemma RenameKeepsSchema(t: Tables, id: nat, parent: nat, name: seq<byte>)
    requires SchemaOk(t)
    ensures SchemaOk(Rename(t, id, parent, name).0)
  {
    var u := Rename(t, id, parent, name).0;
    if u != t {
      forall p: nat, x, a: nat, b: nat | IsChild(u.nodes, p, x, a) && IsChild(u.nodes, p, x, b) ensures a == b {
        assert a != id ==> IsChild(t.nodes, p, x, a);
        assert b != id ==> IsChild(t.nodes, p, x, b);
      }
      assert SiblingsUnique(u.nodes);
      NumbersStayUnique(t, u);
    }
  }

  lemma DeleteKeepsSchema(t: Tables, id: nat)
    requires SchemaOk(t) && id in t.nodes
    ensures SchemaOk(Delete(t, id))
  {
    var u := Delete(t, id);
    forall p: nat, x, a: nat, b: nat | IsChild(u.nodes, p, x, a) && IsChild(u.nodes, p, x, b) ensures a == b {
      assert IsChild(t.nodes, p, x, a) && IsChild(t.nodes, p, x, b);
    }
    assert SiblingsUnique(u.nodes);
    NumbersStayUnique(t, u);
  }

  lemma PruneKeepsSchema(t: Tables, node: nat, number: nat)
    requires SchemaOk(t)
    ensures SchemaOk(DeleteVersion(t, node, number).0)
  {
    NumbersStayUnique(t, DeleteVersion(t, node, number).0);
  }

  lemma AppendKeepsSchema(t: Tables, id: nat, m: Manifest)
    requires SchemaOk(t) && id in t.nodes
    ensures SchemaOk(AppendVersion(t, id, m))
  {
    AppendKeepsSiblingsUnique(t, id, m);
    AppendKeepsOwners(t, id, m);
    AppendKeepsNumbersUnique(t, id, m);
  }

  lemma AppendKeepsOwners(t: Tables, id: nat, m: Manifest)
    requires OwnersExist(t) && ParentsExist(t.nodes) && id in t.nodes
    ensures OwnersExist(AppendVersion(t, id, m)) && ParentsExist(AppendVersion(t, id, m).nodes)
  {
  }

  lemma AppendKeepsSiblingsUnique(t: Tables, id: nat, m: Manifest)
    requires SiblingsUnique(t.nodes) && id in t.nodes
    ensures SiblingsUnique(AppendVersion(t, id, m).nodes)
  {
    var after := AppendVersion(t, id, m).nodes;
    forall p: nat, x, a: nat, b: nat | IsChild(after, p, x, a) && IsChild(after, p, x, b) ensures a == b {
      assert IsChild(t.nodes, p, x, a) && IsChild(t.nodes, p, x, b);
    }
  }

  lemma AppendKeepsNumbersUnique(t: Tables, id: nat, m: Manifest)
    requires NumbersUnique(t) && id in t.nodes
    ensures NumbersUnique(AppendVersion(t, id, m))
  {
    var u := AppendVersion(t, id, m);
    var appended := NextId(t.versions.Keys);
    NumbersAreBelowTop(t, id);
    forall node: nat, k: nat, v: nat, w: nat | IsVersion(u, node, k, v) && IsVersion(u, node, k, w) ensures v == w {
      assert v != appended ==> IsVersion(t, node, k, v);
      assert w != appended ==> IsVersion(t, node, k, w);
    }
  }

  // ---- Every statement keeps the tables well-formed ----

  lemma InsertKeepsCurrents(t: Tables, id: nat, node: Node)
    requires CurrentsOk(t) && OwnersExist(t) && id !in t.nodes && node.current.None? && node.size == 0
    ensures CurrentsOk(t.(nodes := t.nodes[id := node]))
  {
    var u := t.(nodes := t.nodes[id := node]);
    forall n | n in u.nodes ensures CurrentOk(u, n) {
      assert n in t.nodes ==> CurrentOk(t, n);
    }
  }

  lemma InsertKeepsRows(t: Tables, id: nat, node: Node)
    requires VersionsOk(t) && CurrentsOk(t) && OwnersExist(t) && id !in t.nodes && node.current.None? && node.size == 0
    ensures VersionsOk(t.(nodes := t.nodes[id := node])) && CurrentsOk(t.(nodes := t.nodes[id := node]))
  {
    InsertKeepsCurrents(t, id, node);
    SameVersionsOk(t, t.(nodes := t.nodes[id := node]));
  }

  lemma InsertKeepsOk(t: Tables, parent: nat, name: seq<byte>, isDir: bool)
    requires TablesOk(t)
    ensures TablesOk(Insert(t, parent, name, isDir).0)
  {
    var u := Insert(t, parent, name, isDir).0;
    assert SchemaOk(u) by {
      InsertKeepsSchema(t, parent, name, isDir);
    }
    if u != t {
      InsertKeepsRows(t, NextId(t.nodes.Keys), Node(Some(parent), name, isDir, 0, None));
    }
  }

  lemma SameVersionsOk(t: Tables, u: Tables)
    requires VersionsOk(t)
    requires forall v :: v in u.versions ==> v in t.versions && u.versions[v] == t.versions[v]
                                             && ManifestAt(u, v) == ManifestAt(t, v)
    ensures VersionsOk(u)
  {
  }

  /** Dropping rows without dropping a surviving node's current version keeps every current
      version its node's highest. */
  lemma FewerRowsCurrentsOk(t: Tables, u: Tables)
    requires CurrentsOk(t)
    requires forall n :: n in u.nodes ==>
               && n in t.nodes && u.nodes[n].current == t.nodes[n].current && u.nodes[n].size == t.nodes[n].size
               && (u.nodes[n].current.Some? ==> u.nodes[n].current.value in u.versions)
    requires forall v :: v in u.versions ==> v in t.versions && u.versions[v] == t.versions[v]
    ensures CurrentsOk(u)
  {
    forall n | n in u.nodes ensures CurrentOk(u, n) {
      assert CurrentOk(t, n);
    }
  }

  lemma RelinkKeepsRows(t: Tables, id: nat, parent: nat, name: seq<byte>)
    requires VersionsOk(t) && CurrentsOk(t) && id in t.nodes
    ensures VersionsOk(Relink(t, id, parent, name)) && CurrentsOk(Relink(t, id, parent, name))
  {
    assert forall n :: n in t.nodes ==> CurrentOk(t, n);
    FewerRowsCurrentsOk(t, Relink(t, id, parent, name));
    SameVersionsOk(t, Relink(t, id, parent, name));
  }

  lemma RenameKeepsOk(t: Tables, id: nat, parent: nat, name: seq<byte>)
    requires TablesOk(t)
    ensures TablesOk(Rename(t, id, parent, name).0)
  {
    RenameKeepsSchema(t, id, parent, name);
    if id in t.nodes {
      RelinkKeepsRows(t, id, parent, name);
    }
  }

  lemma DeleteKeepsOk(t: Tables, id: nat)
    requires TablesOk(t) && id in t.nodes
    ensures TablesOk(Delete(t, id))
  {
    DeleteKeepsSchema(t, id);
    assert forall n :: n in t.nodes ==> CurrentOk(t, n);
    FewerRowsCurrentsOk(t, Delete(t, id));
    SameVersionsOk(t, Delete(t, id));
  }

  lemma DropKeepsRows(t: Tables, v: nat)
    requires VersionsOk(t) && CurrentsOk(t) && v in t.versions
    requires t.versions[v].node in t.nodes ==> t.nodes[t.versions[v].node].current != Some(v)
    ensures VersionsOk(DropVersion(t, v)) && CurrentsOk(DropVersion(t, v))
  {
    assert forall n :: n in t.nodes ==> CurrentOk(t, n);
    FewerRowsCurrentsOk(t, DropVersion(t, v));
    SameVersionsOk(t, DropVersion(t, v));
  }

  lemma PruneKeepsOk(t: Tables, node: nat, number: nat)
    requires TablesOk(t)
    ensures TablesOk(DeleteVersion(t, node, number).0)
  {
    PruneKeepsSchema(t, node, number);
    if DeleteVersion(t, node, number).1.Ok? {
      DropKeepsRows(t, VersionId(t, node, number).value);
    }
  }

  lemma AppendKeepsOk(t: Tables, id: nat, m: Manifest)
    requires TablesOk(t) && id in t.nodes && Stored(m)
    ensures TablesOk(AppendVersion(t, id, m))
  {
    AppendKeepsSchema(t, id, m);
    AppendKeepsVersionsOk(t, id, m);
    AppendKeepsCurrentsOk(t, id, m);
  }

  lemma AppendKeepsVersionsOk(t: Tables, id: nat, m: Manifest)
    requires VersionsOk(t) && id in t.nodes && Stored(m)
    ensures VersionsOk(AppendVersion(t, id, m))
  {
    var u := AppendVersion(t, id, m);
    forall v | v in u.versions
      ensures u.versions[v].number >= 1 && Stored(ManifestAt(u, v)) && u.versions[v].size == ManifestAt(u, v).totalSize
    {
      if v in t.versions {
        assert ManifestAt(u, v) == ManifestAt(t, v);
      } else {
        StoredRoundTrip(m);
      }
    }
  }

  lemma AppendKeepsCurrentsOk(t: Tables, id: nat, m: Manifest)
    requires CurrentsOk(t) && OwnersExist(t) && id in t.nodes
    ensures CurrentsOk(AppendVersion(t, id, m))
  {
    var u := AppendVersion(t, id, m);
    NumbersAreBelowTop(t, id);
    forall n | n in u.nodes ensures CurrentOk(u, n) {
      assert CurrentOk(t, n);
    }
  }

  /** Any statement, in any order, from any client keeps the tables well-formed. */
  lemma ApplyKeepsOk(t: Tables, op: MetaOp)
    requires TablesOk(t) && OpOk(op)
    ensures TablesOk(Apply(t, op))
  {
    match op
    case InsertOp(parent, name, isDir) => InsertKeepsOk(t, parent, name, isDir);
    case RenameOp(id, parent, name) => RenameKeepsOk(t, id, parent, name);
    case DeleteOp(id) => if id in t.nodes { DeleteKeepsOk(t, id); }
    case DeleteIfEmptyOp(id) => if id in t.nodes { DeleteKeepsOk(t, id); }
    case PruneOp(node, number) => PruneKeepsOk(t, node, number);
    case WriteOp(id, m) => if id in t.nodes { AppendKeepsOk(t, id, m); }
  }

  // ---- Numbers and what they denote ----

  /** The manifest recorded under a version number, if that version is there. */
  ghost function Recorded(t: Tables, node: nat, number: nat): Option<Manifest> {
    match VersionId(t, node, number)
    case None => None
    case Some(v) => Some(ManifestAt(t, v))
  }

  /** The manifest a node currently exposes, if content was ever written to it. */
  ghost function CurrentOf(t: Tables, node: nat): Option<Manifest> {
    if node in t.nodes && t.nodes[node].current.Some? then Some(ManifestAt(t, t.nodes[node].current.value)) else None
  }

  lemma RecordedIs(t: Tables, node: nat, number: nat, v: nat)
    requires NumbersUnique(t) && IsVersion(t, node, number, v)
    ensures Recorded(t, node, number) == Some(ManifestAt(t, v))
  {
  }

  lemma NothingAboveTop(t: Tables, node: nat)
    ensures forall k: nat :: k > TopNumber(t, node) ==> Recorded(t, node, k) == None
  {
    NumbersAreBelowTop(t, node);
  }

  /** The effect of one statement on the history of a node that survives it: one version
      appended under the next number, or one pruned, or nothing. */
  ghost predicate HistoryStep(t: Tables, op: MetaOp, u: Tables, node: nat) {
    if op.WriteOp? && op.id == node && CurrentOf(t, node) != Some(op.manifest) then
      && TopNumber(u, node) == TopNumber(t, node) + 1
      && CurrentOf(u, node) == Some(op.manifest)
      && forall k: nat :: Recorded(u, node, k) ==
           if k == TopNumber(t, node) + 1 then Some(op.manifest) else Recorded(t, node, k)
    else
      && TopNumber(u, node) == TopNumber(t, node)
      && CurrentOf(u, node) == CurrentOf(t, node)
      && forall k: nat :: Recorded(u, node, k) == Recorded(t, node, k)
           || (Recorded(u, node, k) == None && op == PruneOp(node, k))
  }

  lemma RecordedAgrees(t: Tables, u: Tables, node: nat, k: nat)
    requires NumbersUnique(t)
    requires forall v :: IsVersion(u, node, k, v) <==> IsVersion(t, node, k, v)
    requires forall v :: IsVersion(t, node, k, v) ==> ManifestAt(u, v) == ManifestAt(t, v)
    ensures Recorded(u, node, k) == Recorded(t, node, k)
  {
    match VersionId(t, node, k)
    case None =>
    case Some(v) =>
      assert IsVersion(u, node, k, v);
      assert IsVersion(t, node, k, VersionId(u, node, k).value);
  }

  /** The node's row pointer and versions are the same in both tables. */
  ghost predicate SameFor(t: Tables, u: Tables, node: nat) {
    && node in t.nodes && node in u.nodes
    && t.nodes[node].current == u.nodes[node].current
    && (forall v :: v in t.versions && t.versions[v].node == node ==>
          v in u.versions && u.versions[v] == t.versions[v] && ManifestAt(u, v) == ManifestAt(t, v))
    && (forall v :: v in u.versions && u.versions[v].node == node ==>
          v in t.versions && u.versions[v] == t.versions[v])
  }

  lemma SameHistory(t: Tables, u: Tables, node: nat)
    requires NumbersUnique(t) && SameFor(t, u, node) && CurrentOk(t, node) && CurrentOk(u, node)
    ensures TopNumber(u, node) == TopNumber(t, node)
    ensures CurrentOf(u, node) == CurrentOf(t, node)
    ensures forall k: nat :: Recorded(u, node, k) == Recorded(t, node, k)
  {
    TopIsCurrent(t, node);
    TopIsCurrent(u, node);
    forall k: nat ensures Recorded(u, node, k) == Recorded(t, node, k) {
      RecordedAgrees(t, u, node, k);
    }
  }

  lemma AppendRecords(t: Tables, id: nat, m: Manifest, k: nat)
    requires id in t.nodes && Stored(m) && NumbersUnique(t) && NumbersUnique(AppendVersion(t, id, m))
    ensures Recorded(AppendVersion(t, id, m), id, k) ==
            if k == TopNumber(t, id) + 1 then Some(m) else Recorded(t, id, k)
  {
    var u := AppendVersion(t, id, m);
    if k == TopNumber(t, id) + 1 {
      StoredRoundTrip(m);
      RecordedIs(u, id, k, NextId(t.versions.Keys));
    } else {
      RecordedAgrees(t, u, id, k);
    }
  }

  lemma AppendTop(t: Tables, id: nat, m: Manifest)
    requires id in t.nodes && Stored(m) && CurrentsOk(t) && OwnersExist(t)
    ensures TopNumber(AppendVersion(t, id, m), id) == TopNumber(t, id) + 1
    ensures CurrentOf(AppendVersion(t, id, m), id) == Some(m)
  {
    AppendKeepsCurrentsOk(t, id, m);
    StoredRoundTrip(m);
    TopIsCurrent(AppendVersion(t, id, m), id);
  }

  lemma AppendStep(t: Tables, id: nat, m: Manifest)
    requires TablesOk(t) && Stored(m) && id in t.nodes && CurrentOf(t, id) != Some(m)
    ensures HistoryStep(t, WriteOp(id, m), AppendVersion(t, id, m), id)
  {
    AppendTop(t, id, m);
    AppendHistory(t, id, m);
  }

  lemma AppendHistory(t: Tables, id: nat, m: Manifest)
    requires NumbersUnique(t) && Stored(m) && id in t.nodes
    ensures forall k: nat :: Recorded(AppendVersion(t, id, m), id, k) ==
              if k == TopNumber(t, id) + 1 then Some(m) else Recorded(t, id, k)
  {
    AppendKeepsNumbersUnique(t, id, m);
    forall k: nat
      ensures Recorded(AppendVersion(t, id, m), id, k) ==
              if k == TopNumber(t, id) + 1 then Some(m) else Recorded(t, id, k)
    {
      AppendRecords(t, id, m, k);
    }
  }

  lemma PruneRecords(t: Tables, node: nat, number: nat, k: nat)
    requires NumbersUnique(t) && DeleteVersion(t, node, number).1.Ok?
    ensures Recorded(DeleteVersion(t, node, number).0, node, k) == if k == number then None else Recorded(t, node, k)
  {
    var gone := VersionId(t, node, number).value;
    var u := DropVersion(t, gone);
    assert IsVersion(t, node, number, gone);
    forall v: nat ensures IsVersion(u, node, k, v) <==> IsVersion(t, node, k, v) && k != number {
      assert k == number && IsVersion(t, node, k, v) ==> v == gone;
    }
    if k != number {
      RecordedAgrees(t, u, node, k);
    }
  }

  lemma PruneStep(t: Tables, node: nat, number: nat)
    requires TablesOk(t) && node in t.nodes && DeleteVersion(t, node, number).1.Ok?
    ensures HistoryStep(t, PruneOp(node, number), DeleteVersion(t, node, number).0, node)
  {
    var u := DeleteVersion(t, node, number).0;
    PruneKeepsOk(t, node, number);
    forall k: nat
      ensures Recorded(u, node, k) == if k == number then None else Recorded(t, node, k)
    {
      PruneRecords(t, node, number, k);
    }
    assert CurrentOk(t, node) && CurrentOk(u, node);
    TopIsCurrent(t, node);
    TopIsCurrent(u, node);
  }

  lemma DeleteUntouched(t: Tables, id: nat, node: nat)
    requires OwnersExist(t) && id in t.nodes && node in Delete(t, id).nodes
    ensures SameFor(t, Delete(t, id), node)
  {
  }

  lemma PruneUntouched(t: Tables, pruned: nat, number: nat, node: nat)
    requires OwnersExist(t) && node in t.nodes
    requires pruned == node ==> DeleteVersion(t, pruned, number).1.Err?
    ensures SameFor(t, DeleteVersion(t, pruned, number).0, node)
  {
  }

  lemma WriteUntouched(t: Tables, id: nat, m: Manifest, node: nat)
    requires OwnersExist(t) && node in t.nodes
    requires id == node ==> CurrentOf(t, node) == Some(m)
    ensures SameFor(t, SetContent(t, id, m).0, node)
  {
  }

  lemma OthersUntouched(t: Tables, op: MetaOp, node: nat)
    requires OwnersExist(t) && node in t.nodes && node in Apply(t, op).nodes
    requires op.PruneOp? && op.node == node ==> DeleteVersion(t, node, op.number).1.Err?
    requires op.WriteOp? && op.id == node ==> CurrentOf(t, node) == Some(op.manifest)
    ensures SameFor(t, Apply(t, op), node)
  {
    match op
    case DeleteOp(id) => if id in t.nodes { DeleteUntouched(t, id, node); }
    case DeleteIfEmptyOp(id) => if id in t.nodes && !HasChildren(t.nodes, id) { DeleteUntouched(t, id, node); }
    case PruneOp(pruned, number) => PruneUntouched(t, pruned, number, node);
    case WriteOp(id, m) => WriteUntouched(t, id, m, node);
    case _ =>
  }

  lemma StepOnHistory(t: Tables, op: MetaOp, node: nat)
    requires TablesOk(t) && OpOk(op) && node in t.nodes && node in Apply(t, op).nodes
    ensures HistoryStep(t, op, Apply(t, op), node)
  {
    ApplyKeepsOk(t, op);
    if op.PruneOp? && op.node == node && DeleteVersion(t, node, op.number).1.Ok? {
      PruneStep(t, node, op.number);
    } else if op.WriteOp? && op.id == node && CurrentOf(t, node) != Some(op.manifest) {
      AppendStep(t, node, op.manifest);
    } else {
      OthersUntouched(t, op, node);
      assert CurrentOk(t, node) && CurrentOk(Apply(t, op), node);
      SameHistory(t, Apply(t, op), node);
    }
  }

  // ---- Whole runs ----

  ghost function Run(t: Tables, ops: seq<MetaOp>): Tables {
    if ops == [] then t else Apply(Run(t, Init(ops)), Last(ops))
  }

  ghost predicate AllOk(ops: seq<MetaOp>) {
    forall i :: 0 <= i < |ops| ==> OpOk(ops[i])
  }

  /** The node exists before, during and after the whole run. */
  ghost predicate LivesThrough(t: Tables, ops: seq<MetaOp>, node: nat) {
    forall i :: 0 <= i <= |ops| ==> node in Run(t, ops[..i]).nodes
  }

  lemma {:induction false} RunKeepsOk(t: Tables, ops: seq<MetaOp>)
    requires TablesOk(t) && AllOk(ops)
    ensures TablesOk(Run(t, ops))
  {
    if ops != [] {
      RunKeepsOk(t, Init(ops));
      ApplyKeepsOk(Run(t, Init(ops)), Last(ops));
    }
  }

  lemma LivesThroughInit(t: Tables, ops: seq<MetaOp>, node: nat)
    requires ops != [] && LivesThrough(t, ops, node)
    ensures LivesThrough(t, Init(ops), node)
    ensures node in Run(t, Init(ops)).nodes && node in Run(t, ops).nodes
  {
    forall i | 0 <= i <= |Init(ops)| ensures node in Run(t, Init(ops)[..i]).nodes {
      assert Init(ops)[..i] == ops[..i];
    }
    assert Init(ops)[..|Init(ops)|] == Init(ops);
    assert ops[..|ops|] == ops;
  }

  ghost predicate GoneOr(recorded: Option<Manifest>, m: Manifest) {
    recorded == None || recorded == Some(m)
  }

  /** No number in use at `t` is given a new meaning at `u`. */
  ghost predicate HistoryExtends(t: Tables, u: Tables, node: nat) {
    && TopNumber(t, node) <= TopNumber(u, node)
    && forall k: nat :: k <= TopNumber(t, node) ==>
         Recorded(u, node, k) == None || Recorded(u, node, k) == Recorded(t, node, k)
  }

  /** Version identity. While a node lives, its numbers only grow and a number denotes the
      same content from its first use until it is gone for good; at the end of the run the
      node's current version is its own highest-numbered one. */
  lemma {:induction false} VersionIdentity(t: Tables, ops: seq<MetaOp>, node: nat)
    requires TablesOk(t) && AllOk(ops) && LivesThrough(t, ops, node)
    ensures node in Run(t, ops).nodes && CurrentOk(Run(t, ops), node)
    ensures HistoryExtends(t, Run(t, ops), node)
  {
    RunKeepsOk(t, ops);
    if ops == [] {
      assert ops[..0] == ops;
    } else {
      LivesThroughInit(t, ops, node);
      VersionIdentity(t, Init(ops), node);
      RunKeepsOk(t, Init(ops));
      StepOnHistory(Run(t, Init(ops)), Last(ops), node);
    }
  }

  /** The same between any two moments of a run. */
  lemma SameNumberSameContent(t: Tables, ops: seq<MetaOp>, more: seq<MetaOp>, node: nat, number: nat)
    requires TablesOk(t) && AllOk(ops) && AllOk(more)
    requires LivesThrough(Run(t, ops), more, node)
    requires Recorded(Run(t, ops), node, number).Some?
    ensures GoneOr(Recorded(Run(Run(t, ops), more), node, number), Recorded(Run(t, ops), node, number).value)
  {
    RunKeepsOk(t, ops);
    VersionIdentity(Run(t, ops), more, node);
    NothingAboveTop(Run(t, ops), node);
  }

  // ---- Concurrent writers lose nothing ----

  /** The manifests a run writes to a node, in commit order. */
  function Writes(ops: seq<MetaOp>, node: nat): seq<Manifest> {
    if ops == [] then []
    else Writes(Init(ops), node) +
         (if Last(ops).WriteOp? && Last(ops).id == node then [Last(ops).manifest] else [])
  }

  function Latest(start: Option<Manifest>, written: seq<Manifest>): Option<Manifest> {
    if written == [] then start else Some(Last(written))
  }

  /** Drops each manifest that repeats the one before it. */
  function Collapse(start: Option<Manifest>, written: seq<Manifest>): seq<Manifest> {
    if written == [] then []
    else Collapse(start, Init(written)) +
         (if Latest(start, Init(written)) == Some(Last(written)) then [] else [Last(written)])
  }

  /** What a run that wrote `written` to a node leaves of it. */
  ghost predicate NothingLost(t: Tables, u: Tables, node: nat, written: seq<Manifest>) {
    var appended := Collapse(CurrentOf(t, node), written);
    && CurrentOf(u, node) == Latest(CurrentOf(t, node), written)
    && TopNumber(u, node) == TopNumber(t, node) + |appended|
    && forall j: nat :: j < |appended| ==>
         GoneOr(Recorded(u, node, TopNumber(t, node) + 1 + j), appended[j])
  }

  lemma CollapseSnoc(start: Option<Manifest>, written: seq<Manifest>, m: Manifest)
    ensures Latest(start, written + [m]) == Some(m)
    ensures Collapse(start, written + [m]) ==
            Collapse(start, written) + if Latest(start, written) == Some(m) then [] else [m]
  {
    assert Init(written + [m]) == written && Last(written + [m]) == m;
  }

  lemma NothingLostWrite(t: Tables, u: Tables, m: Manifest, w: Tables, node: nat, written: seq<Manifest>)
    requires NothingLost(t, u, node, written) && HistoryStep(u, WriteOp(node, m), w, node)
    ensures NothingLost(t, w, node, written + [m])
  {
    CollapseSnoc(CurrentOf(t, node), written, m);
    if CurrentOf(u, node) == Some(m) {
      assert Collapse(CurrentOf(t, node), written + [m]) == Collapse(CurrentOf(t, node), written);
    }
  }

  lemma NothingLostOther(t: Tables, u: Tables, op: MetaOp, w: Tables, node: nat, written: seq<Manifest>)
    requires NothingLost(t, u, node, written) && HistoryStep(u, op, w, node) && !(op.WriteOp? && op.id == node)
    ensures NothingLost(t, w, node, written)
  {
  }

  lemma NothingLostStep(t: Tables, u: Tables, op: MetaOp, w: Tables, node: nat, written: seq<Manifest>)
    requires NothingLost(t, u, node, written) && HistoryStep(u, op, w, node)
    ensures NothingLost(t, w, node, written + (if op.WriteOp? && op.id == node then [op.manifest] else []))
  {
    if op.WriteOp? && op.id == node {
      NothingLostWrite(t, u, op.manifest, w, node, written);
    } else {
      NothingLostOther(t, u, op, w, node, written);
      assert written + [] == written;
    }
  }

  /** Whatever interleaving of writers, pruners and other statements happens while a node
      lives: its current content is exactly the last manifest committed; the numbers handed
      out are those of the committed manifests in commit order with consecutive repeats
      collapsed; and an appended number still present means the manifest appended there. */
  lemma {:induction false} NoLostUpdate(t: Tables, ops: seq<MetaOp>, node: nat)
    requires TablesOk(t) && AllOk(ops) && LivesThrough(t, ops, node)
    ensures NothingLost(t, Run(t, ops), node, Writes(ops, node))
  {
    if ops != [] {
      LivesThroughInit(t, ops, node);
      NoLostUpdate(t, Init(ops), node);
      RunKeepsOk(t, Init(ops));
      StepOnHistory(Run(t, Init(ops)), Last(ops), node);
      NothingLostStep(t, Run(t, Init(ops)), Last(ops), Run(t, ops), node, Writes(Init(ops), node));
    }
  }

  /** Every old version and every appended one is recorded. */
  ghost predicate AllRecorded(t: Tables, u: Tables, node: nat, written: seq<Manifest>) {
    var appended := Collapse(CurrentOf(t, node), written);
    && (forall k: nat :: k <= TopNumber(t, node) ==> Recorded(u, node, k) == Recorded(t, node, k))
    && (forall j: nat :: j < |appended| ==> Recorded(u, node, TopNumber(t, node) + 1 + j) == Some(appended[j]))
  }

  lemma AllRecordedStep(t: Tables, u: Tables, op: MetaOp, w: Tables, node: nat, written: seq<Manifest>)
    requires NothingLost(t, u, node, written) && AllRecorded(t, u, node, written) && HistoryStep(u, op, w, node)
    requires !(op.PruneOp? && op.node == node)
    ensures AllRecorded(t, w, node, written + (if op.WriteOp? && op.id == node then [op.manifest] else []))
  {
    if op.WriteOp? && op.id == node {
      assert Init(written + [op.manifest]) == written;
    } else {
      assert written + [] == written;
    }
  }

  /** Without pruning the history is complete. */
  lemma {:induction false} HistoryIsComplete(t: Tables, ops: seq<MetaOp>, node: nat)
    requires TablesOk(t) && AllOk(ops) && LivesThrough(t, ops, node)
    requires forall i :: 0 <= i < |ops| ==> !(ops[i].PruneOp? && ops[i].node == node)
    ensures AllRecorded(t, Run(t, ops), node, Writes(ops, node))
  {
    if ops != [] {
      LivesThroughInit(t, ops, node);
      HistoryIsComplete(t, Init(ops), node);
      NoLostUpdate(t, Init(ops), node);
      RunKeepsOk(t, Init(ops));
      StepOnHistory(Run(t, Init(ops)), Last(ops), node);
      AllRecordedStep(t, Run(t, Init(ops)), Last(ops), Run(t, ops), node, Writes(Init(ops), node));
    }
  }
}
