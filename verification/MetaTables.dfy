// The metadata tables (vfs crate, meta.rs) as values, and what each SQL statement or
// transaction does to them.
module MetaTables {
  import opened Base
  import opened Manifests

  const ROOT_ID := 1

  datatype Node = Node(parent: Option<nat>, name: seq<byte>, isDir: bool, size: nat, current: Option<nat>)

  datatype VersionRow = VersionRow(node: nat, number: nat, size: nat)

  /** A `version_chunks` row: both integers are signed 64-bit columns. */
  datatype ChunkRow = ChunkRow(hash: Hash, offset: int, length: int)

  /** `chunks` maps a version id to its rows in `seq` order. */
  datatype Tables = Tables(nodes: map<nat, Node>, versions: map<nat, VersionRow>, chunks: map<nat, seq<ChunkRow>>)

  datatype MetaError =
    | NotFound
    | Exists
    | NotEmpty
    | NotADirectory
    | IsADirectory
    | CurrentVersion
    | Corrupt

  type Outcome<T> = Result<T, MetaError>

  /** The store after migration: only the root collection. */
  const FRESH_TABLES := Tables(map[ROOT_ID := Node(None, [], true, 0, None)], map[], map[])

  // ---- Row encoding ----

  /** Rust's `as i64` on a `u64`. */
  function AsI64(x: nat): int {
    if x % U64_LIMIT < I64_LIMIT then x % U64_LIMIT else x % U64_LIMIT - U64_LIMIT
  }

  /** Rust's `as u64` on an `i64`. */
  function AsU64(x: int): nat {
    x % U64_LIMIT
  }

  /** Rust's `as u32` on an `i64`. */
  function AsU32(x: int): nat {
    x % U32_LIMIT
  }

  function EncodeChunk(c: ChunkRef): ChunkRow {
    ChunkRow(c.hash, AsI64(c.offset), c.length)
  }

  function EncodeRows(chunks: seq<ChunkRef>): seq<ChunkRow> {
    seq(|chunks|, i requires 0 <= i < |chunks| => EncodeChunk(chunks[i]))
  }

  function DecodeChunk(row: ChunkRow): ChunkRef {
    ChunkRef(row.hash, AsU64(row.offset), AsU32(row.length))
  }

  /** Appends a decoded row, recomputing the total size as the furthest chunk end. */
  function DecodeRow(m: Manifest, row: ChunkRow): Manifest {
    var c := DecodeChunk(row);
    Manifest(Max(m.totalSize, c.offset + c.length), m.chunks + [c])
  }

  function DecodeRows(rows: seq<ChunkRow>): Manifest {
    if rows == [] then EMPTY_MANIFEST else DecodeRow(DecodeRows(Init(rows)), Last(rows))
  }

  function FurthestEnd(chunks: seq<ChunkRef>): nat {
    if chunks == [] then 0
    else Max(FurthestEnd(Init(chunks)), Last(chunks).offset + Last(chunks).length)
  }

  predicate FitsColumns(chunks: seq<ChunkRef>) {
    forall i :: 0 <= i < |chunks| ==> chunks[i].offset < U64_LIMIT && chunks[i].length < U32_LIMIT
  }

  lemma ColumnsRoundTrip(c: ChunkRef)
    requires c.offset < U64_LIMIT && c.length < U32_LIMIT
    ensures DecodeChunk(EncodeChunk(c)) == c
  {
  }

  lemma {:induction false} DecodeInvertsEncode(chunks: seq<ChunkRef>)
    requires FitsColumns(chunks)
    ensures DecodeRows(EncodeRows(chunks)) == Manifest(FurthestEnd(chunks), chunks)
  {
    if chunks == [] {
      assert EncodeRows(chunks) == [];
    } else {
      DecodeInvertsEncode(Init(chunks));
      EncodedSnoc(chunks);
      ColumnsRoundTrip(Last(chunks));
      assert chunks == Init(chunks) + [Last(chunks)];
    }
  }

  lemma EncodedSnoc(chunks: seq<ChunkRef>)
    requires chunks != []
    ensures var rows := EncodeRows(chunks);
      rows != [] && Init(rows) == EncodeRows(Init(chunks)) && Last(rows) == EncodeChunk(Last(chunks))
  {
    assert Init(EncodeRows(chunks)) == EncodeRows(Init(chunks));
  }

  /** Reading a manifest back from its rows reproduces it exactly when its total size is
      where its furthest chunk ends, whatever sizes the 64-bit columns hold. */
  lemma RowsReproduceManifest(m: Manifest)
    requires FitsColumns(m.chunks)
    ensures DecodeRows(EncodeRows(m.chunks)) == m <==> m.totalSize == FurthestEnd(m.chunks)
  {
    DecodeInvertsEncode(m.chunks);
  }

  lemma {:induction false} FurthestEndOfPrefix(m: Manifest, n: nat)
    requires Stored(m) && n <= |m.chunks|
    ensures FurthestEnd(m.chunks[..n]) == if n == |m.chunks| then m.totalSize else m.chunks[n].offset
  {
    if n == 0 {
      if m.chunks != [] {
        ChunkTiling(m, 0);
      } else {
        assert m.chunks == [] ==> PiecesOf(m) == [];
      }
    } else {
      FurthestEndOfPrefix(m, n - 1);
      ChunkTiling(m, n - 1);
      assert Init(m.chunks[..n]) == m.chunks[..n - 1];
    }
  }

  /** A stored manifest survives the trip through the rows. */
  lemma StoredRoundTrip(m: Manifest)
    requires Stored(m)
    ensures DecodeRows(EncodeRows(m.chunks)) == m
  {
    FurthestEndOfPrefix(m, |m.chunks|);
    assert m.chunks[..|m.chunks|] == m.chunks;
    forall i | 0 <= i < |m.chunks|
      ensures m.chunks[i].offset < U64_LIMIT && m.chunks[i].length < U32_LIMIT
    {
      ChunkTiling(m, i);
      assert PiecesOf(m)[i] == m.chunks[i].hash.preimage;
    }
    RowsReproduceManifest(m);
  }

  // ---- Queries ----

  /** The row id SQLite gives the next row: one past the largest in use, so the largest id
      is handed out again once its row is gone. */
  function NextId(ids: set<nat>): (id: nat)
    ensures forall x :: x in ids ==> x < id
    ensures if ids == {} then id == 1 else id - 1 in ids
  {
    MaxOr(ids, 0) + 1
  }

  predicate IsChild(nodes: map<nat, Node>, parent: nat, name: seq<byte>, c: nat) {
    c in nodes && nodes[c].parent == Some(parent) && nodes[c].name == name
  }

  ghost function Child(nodes: map<nat, Node>, parent: nat, name: seq<byte>): (r: Option<nat>)
    ensures r.Some? ==> IsChild(nodes, parent, name, r.value)
    ensures r.None? ==> forall c :: !IsChild(nodes, parent, name, c)
  {
    if c :| IsChild(nodes, parent, name, c) then Some(c) else None
  }

  predicate HasChildren(nodes: map<nat, Node>, id: nat) {
    exists c :: c in nodes && nodes[c].parent == Some(id)
  }

  function Numbers(t: Tables, node: nat): set<nat> {
    set v | v in t.versions && t.versions[v].node == node :: t.versions[v].number
  }

  /** The highest version number in use for a node, 0 when it has none. */
  function TopNumber(t: Tables, node: nat): nat {
    MaxOr(Numbers(t, node), 0)
  }

  predicate IsVersion(t: Tables, node: nat, number: nat, v: nat) {
    v in t.versions && t.versions[v].node == node && t.versions[v].number == number
  }

  ghost function VersionId(t: Tables, node: nat, number: nat): (r: Option<nat>)
    ensures r.Some? ==> IsVersion(t, node, number, r.value)
    ensures r.None? ==> forall v :: !IsVersion(t, node, number, v)
  {
    if v :| IsVersion(t, node, number, v) then Some(v) else None
  }

  /** The manifest of a version; a version that is not there reads as empty. */
  function ManifestAt(t: Tables, version: nat): Manifest {
    if version in t.chunks then DecodeRows(t.chunks[version]) else EMPTY_MANIFEST
  }

  function CurrentManifest(t: Tables, id: nat): Outcome<Manifest> {
    if id !in t.nodes then Err(NotFound)
    else match t.nodes[id].current
      case None => Ok(EMPTY_MANIFEST)
      case Some(v) => if v in t.versions then Ok(ManifestAt(t, v)) else Err(Corrupt)
  }

  ghost predicate Refers(t: Tables, hash: Hash) {
    exists v, i :: v in t.chunks && 0 <= i < |t.chunks[v]| && t.chunks[v][i].hash == hash
  }

  /** The live set: every hash that some version row of some file refers to. */
  ghost function Referenced(t: Tables): (r: set<Hash>)
    ensures forall h :: h in r <==> Refers(t, h)
  {
    set v, i | v in t.chunks && 0 <= i < |t.chunks[v]| :: t.chunks[v][i].hash
  }

  // ---- Statements ----

  function NewChildren(nodes: map<nat, Node>, doomed: set<nat>): (r: set<nat>)
    ensures forall n :: n in r <==>
              n in nodes && n !in doomed && nodes[n].parent.Some? && nodes[n].parent.value in doomed
  {
    set n | n in nodes && n !in doomed && nodes[n].parent.Some? && nodes[n].parent.value in doomed
  }

  /** `ON DELETE CASCADE` over parent links: the rows that go when `doomed` go. */
  function Cascade(nodes: map<nat, Node>, doomed: set<nat>): (r: set<nat>)
    requires doomed <= nodes.Keys
    ensures doomed <= r <= nodes.Keys
    ensures forall n :: n in nodes && nodes[n].parent.Some? && nodes[n].parent.value in r ==> n in r
    decreases nodes.Keys - doomed
  {
    var more := NewChildren(nodes, doomed);
    if more == {} then doomed else Cascade(nodes, doomed + more)
  }

  lemma CascadeOfLeaf(nodes: map<nat, Node>, id: nat)
    requires id in nodes && !HasChildren(nodes, id)
    ensures Cascade(nodes, {id}) == {id}
  {
    assert forall n :: n in NewChildren(nodes, {id}) ==> nodes[n].parent == Some(id);
    assert NewChildren(nodes, {id}) == {};
  }

  function InsertNode(t: Tables, parent: nat, name: seq<byte>, isDir: bool): Tables {
    t.(nodes := t.nodes[NextId(t.nodes.Keys) := Node(Some(parent), name, isDir, 0, None)])
  }

  ghost function Insert(t: Tables, parent: nat, name: seq<byte>, isDir: bool): (Tables, Outcome<nat>) {
    if parent !in t.nodes then (t, Err(NotFound))
    else if Child(t.nodes, parent, name).Some? then (t, Err(Exists))
    else (InsertNode(t, parent, name, isDir), Ok(NextId(t.nodes.Keys)))
  }

  function Delete(t: Tables, id: nat): Tables
    requires id in t.nodes
  {
    var gone := Cascade(t.nodes, {id});
    var goneVersions := set v | v in t.versions && t.versions[v].node in gone;
    Tables(t.nodes - gone, t.versions - goneVersions, t.chunks - goneVersions)
  }

  /** Deleting a file: only files, together with their versions. */
  function RemoveFile(t: Tables, id: nat): (Tables, Outcome<()>) {
    if id !in t.nodes then (t, Err(NotFound))
    else if t.nodes[id].isDir then (t, Err(IsADirectory))
    else (Delete(t, id), Ok(()))
  }

  /** Deleting a collection: only when it has no children. */
  function RemoveDir(t: Tables, id: nat): (Tables, Outcome<()>) {
    if id !in t.nodes then (t, Err(NotFound))
    else if !t.nodes[id].isDir then (t, Err(NotADirectory))
    else if HasChildren(t.nodes, id) then (t, Err(NotEmpty))
    else (Delete(t, id), Ok(()))
  }

  function DropVersion(t: Tables, v: nat): Tables {
    t.(versions := t.versions - {v}, chunks := t.chunks - {v})
  }

  ghost function DeleteVersion(t: Tables, node: nat, number: nat): (Tables, Outcome<()>) {
    match VersionId(t, node, number)
    case None => (t, Err(NotFound))
    case Some(v) =>
      if node !in t.nodes then (t, Err(NotFound))
      else if t.nodes[node].current == Some(v) then (t, Err(CurrentVersion))
      else (DropVersion(t, v), Ok(()))
  }

  function Relink(t: Tables, id: nat, parent: nat, name: seq<byte>): Tables
    requires id in t.nodes
  {
    t.(nodes := t.nodes[id := t.nodes[id].(parent := Some(parent), name := name)])
  }

  ghost function Rename(t: Tables, id: nat, parent: nat, name: seq<byte>): (Tables, Outcome<()>) {
    if id !in t.nodes then (t, Err(NotFound))
    else if exists c :: IsChild(t.nodes, parent, name, c) && c != id then (t, Err(Exists))
    else if parent !in t.nodes then (t, Err(NotFound))
    else (Relink(t, id, parent, name), Ok(()))
  }

  function AppendVersion(t: Tables, id: nat, m: Manifest): Tables
    requires id in t.nodes
  {
    var v := NextId(t.versions.Keys);
    Tables(t.nodes[id := t.nodes[id].(current := Some(v), size := m.totalSize)],
           t.versions[v := VersionRow(id, TopNumber(t, id) + 1, m.totalSize)],
           t.chunks[v := EncodeRows(m.chunks)])
  }

  /** Makes `m` the content of a node, unless it already is. */
  function SetContent(t: Tables, id: nat, m: Manifest): (Tables, Outcome<()>) {
    if id !in t.nodes then (t, Err(NotFound))
    else if t.nodes[id].current.Some? && ManifestAt(t, t.nodes[id].current.value) == m then (t, Ok(()))
    else (AppendVersion(t, id, m), Ok(()))
  }

  // ---- What the tables always satisfy ----

  ghost predicate SiblingsUnique(nodes: map<nat, Node>) {
    forall parent: nat, name, a: nat, b: nat ::
      IsChild(nodes, parent, name, a) && IsChild(nodes, parent, name, b) ==> a == b
  }

  ghost predicate ParentsExist(nodes: map<nat, Node>) {
    forall n :: n in nodes && nodes[n].parent.Some? ==> nodes[n].parent.value in nodes
  }

  ghost predicate NumbersUnique(t: Tables) {
    forall node: nat, number: nat, v: nat, w: nat ::
      IsVersion(t, node, number, v) && IsVersion(t, node, number, w) ==> v == w
  }

  ghost predicate OwnersExist(t: Tables) {
    && (forall v :: v in t.versions ==> t.versions[v].node in t.nodes)
    && t.chunks.Keys == t.versions.Keys
  }

  /** The constraints the schema declares: keys, foreign keys and unique indexes. */
  ghost predicate SchemaOk(t: Tables) {
    SiblingsUnique(t.nodes) && ParentsExist(t.nodes) && NumbersUnique(t) && OwnersExist(t)
  }

  /** Version numbers start at 1, and a version row agrees with its chunk rows, which
      describe a stored file. */
  ghost predicate VersionsOk(t: Tables) {
    forall v :: v in t.versions ==>
      && t.versions[v].number >= 1
      && Stored(ManifestAt(t, v))
      && t.versions[v].size == ManifestAt(t, v).totalSize
  }

  /** A node's current version is its own highest-numbered one, in its own largest row, and
      the node's size is that version's; a node without a current version has none at all. */
  ghost predicate CurrentOk(t: Tables, n: nat)
    requires n in t.nodes
  {
    match t.nodes[n].current
    case None => t.nodes[n].size == 0 && forall v :: v in t.versions ==> t.versions[v].node != n
    case Some(c) =>
      && c in t.versions
      && t.versions[c].node == n
      && t.nodes[n].size == t.versions[c].size
      && forall v :: v in t.versions && t.versions[v].node == n ==>
           v <= c && t.versions[v].number <= t.versions[c].number
  }

  ghost predicate CurrentsOk(t: Tables) {
    forall n :: n in t.nodes ==> CurrentOk(t, n)
  }

  ghost predicate TablesOk(t: Tables) {
    SchemaOk(t) && VersionsOk(t) && CurrentsOk(t)
  }

  lemma NumbersAreBelowTop(t: Tables, node: nat)
    ensures forall v :: v in t.versions && t.versions[v].node == node ==> t.versions[v].number <= TopNumber(t, node)
  {
    forall v | v in t.versions && t.versions[v].node == node
      ensures t.versions[v].number <= TopNumber(t, node)
    {
      assert t.versions[v].number in Numbers(t, node);
    }
  }

  /** The highest number in use is the current version's. */
  lemma TopIsCurrent(t: Tables, node: nat)
    requires node in t.nodes && CurrentOk(t, node)
    ensures TopNumber(t, node) ==
            if t.nodes[node].current.None? then 0 else t.versions[t.nodes[node].current.value].number
  {
    NumbersAreBelowTop(t, node);
    match t.nodes[node].current
    case None => assert Numbers(t, node) == {};
    case Some(c) => assert t.versions[c].number in Numbers(t, node);
  }
}
