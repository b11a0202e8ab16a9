// The metadata store (vfs crate, meta.rs): tables that its methods update in place.
module MetaStores {
  import opened Base
  import opened Manifests
  import opened Paths
  import opened MetaTables
  import opened Namespace
  import opened VersionHistory

  function Reversed<T>(s: seq<T>): seq<T> {
    if s == [] then [] else [Last(s)] + Reversed(Init(s))
  }

  /** A walk's result with the names already collected below it put back. */
  function Attach(walk: Outcome<Option<Path>>, below: Path): Outcome<Option<Path>> {
    match walk
    case Ok(Some(path)) => Ok(Some(path + below))
    case other => other
  }

  function Rendered(walk: Outcome<Option<Path>>): Outcome<Option<seq<byte>>> {
    match walk
    case Ok(Some(path)) => Ok(Some(PathBytes(path)))
    case Ok(None) => Ok(None)
    case Err(e) => Err(e)
  }

  function OrNotFound<T>(r: Option<T>): Outcome<T> {
    match r
    case Some(x) => Ok(x)
    case None => Err(NotFound)
  }

  class MetaStore {
    var nodes: map<nat, Node>
    var versions: map<nat, VersionRow>
    var chunks: map<nat, seq<ChunkRow>>

    ghost function State(): Tables reads this {
      Tables(nodes, versions, chunks)
    }

    ghost predicate Valid() reads this {
      SchemaOk(State())
    }

    constructor ()
      ensures Valid() && State() == FRESH_TABLES
    {
      nodes, versions, chunks := FRESH_TABLES.nodes, map[], map[];
    }

    method LookupChild(parent: nat, name: seq<byte>) returns (r: Option<nat>)
      requires Valid()
      ensures r == Child(nodes, parent, name)
    {
      if c: nat :| c in nodes && IsChild(nodes, parent, name, c) {
        return Some(c);
      }
      return None;
    }

    method LookupPath(segments: Path) returns (r: Outcome<nat>)
      requires Valid()
      ensures r == OrNotFound(Resolve(nodes, segments))
    {
      if ROOT_ID !in nodes {
        ResolveWithoutPrefix(nodes, segments, 0);
        return Err(NotFound);
      }
      var current: nat := ROOT_ID;
      for i := 0 to |segments|
        invariant Resolve(nodes, segments[..i]) == Some(current)
      {
        assert Init(segments[..i + 1]) == segments[..i];
        var child := LookupChild(current, segments[i]);
        if child.None? {
          ResolveWithoutPrefix(nodes, segments, i + 1);
          return Err(NotFound);
        }
        current := child.value;
      }
      assert segments[..|segments|] == segments;
      return Ok(current);
    }

    method InsertNode(parent: nat, name: seq<byte>, isDir: bool) returns (r: Outcome<nat>)
      requires Valid()
      modifies this
      ensures Valid() && (State(), r) == Insert(old(State()), parent, name, isDir)
    {
      InsertKeepsSchema(State(), parent, name, isDir);
      var taken := LookupChild(parent, name);
      if parent !in nodes {
        return Err(NotFound);
      }
      if taken.Some? {
        return Err(Exists);
      }
      var id := NextId(nodes.Keys);
      nodes := nodes[id := Node(Some(parent), name, isDir, 0, None)];
      return Ok(id);
    }

    method ReadManifest(version: nat) returns (m: Manifest)
      ensures m == ManifestAt(State(), version)
    {
      var rows := if version in chunks then chunks[version] else [];
      m := EMPTY_MANIFEST;
      for i := 0 to |rows|
        invariant m == DecodeRows(rows[..i])
      {
        assert Init(rows[..i + 1]) == rows[..i];
        m := DecodeRow(m, rows[i]);
      }
      assert rows[..|rows|] == rows;
    }

    method LoadManifest(id: nat) returns (r: Outcome<Manifest>)
      ensures r == CurrentManifest(State(), id)
    {
      if id !in nodes {
        return Err(NotFound);
      }
      if nodes[id].current.None? {
        return Ok(EMPTY_MANIFEST);
      }
      if nodes[id].current.value !in versions {
        return Err(Corrupt);
      }
      var m := ReadManifest(nodes[id].current.value);
      return Ok(m);
    }

    method SetFileContent(id: nat, m: Manifest) returns (r: Outcome<()>)
      requires Valid()
      modifies this
      ensures Valid() && (State(), r) == SetContent(old(State()), id, m)
    {
      if id !in nodes {
        return Err(NotFound);
      }
      if nodes[id].current.Some? {
        var existing := ReadManifest(nodes[id].current.value);
        if existing == m {
          return Ok(());
        }
      }
      AppendKeepsSchema(State(), id, m);
      ghost var top := TopNumber(State(), id);
      var numbers := set v | v in versions && versions[v].node == id :: versions[v].number;
      assert numbers == Numbers(State(), id);
      var number := MaxOr(numbers, 0) + 1;
      var version := NextId(versions.Keys);
      var rows := [];
      for i := 0 to |m.chunks|
        invariant rows == EncodeRows(m.chunks[..i])
      {
        rows := rows + [EncodeChunk(m.chunks[i])];
      }
      assert m.chunks[..|m.chunks|] == m.chunks;
      versions := versions[version := VersionRow(id, number, m.totalSize)];
      chunks := chunks[version := rows];
      nodes := nodes[id := nodes[id].(current := Some(version), size := m.totalSize)];
      return Ok(());
    }

    method VersionByNumber(node: nat, number: nat) returns (r: Outcome<nat>)
      requires Valid()
      ensures r == OrNotFound(VersionId(State(), node, number))
    {
      if v: nat :| v in versions && versions[v].node == node && versions[v].number == number {
        assert IsVersion(State(), node, number, v);
        return Ok(v);
      }
      assert forall v: nat :: !IsVersion(State(), node, number, v);
      return Err(NotFound);
    }

    method DeleteVersion(node: nat, number: nat) returns (r: Outcome<()>)
      requires Valid()
      modifies this
      ensures Valid() && (State(), r) == MetaTables.DeleteVersion(old(State()), node, number)
    {
      PruneKeepsSchema(State(), node, number);
      var version := VersionByNumber(node, number);
      if version.Err? || node !in nodes {
        return Err(NotFound);
      }
      if nodes[node].current == Some(version.value) {
        return Err(CurrentVersion);
      }
      versions, chunks := versions - {version.value}, chunks - {version.value};
      return Ok(());
    }

    method DeleteNode(id: nat)
      requires Valid() && id in nodes
      modifies this
      ensures Valid() && State() == Delete(old(State()), id)
    {
      DeleteKeepsSchema(State(), id);
      var gone := Cascade(nodes, {id});
      var goneVersions := set v | v in versions && versions[v].node in gone;
      nodes, versions, chunks := nodes - gone, versions - goneVersions, chunks - goneVersions;
    }

    method RemoveFile(id: nat) returns (r: Outcome<()>)
      requires Valid()
      modifies this
      ensures Valid() && (State(), r) == MetaTables.RemoveFile(old(State()), id)
    {
      if id !in nodes {
        return Err(NotFound);
      }
      if nodes[id].isDir {
        return Err(IsADirectory);
      }
      DeleteNode(id);
      return Ok(());
    }

    method RemoveDir(id: nat) returns (r: Outcome<()>)
      requires Valid()
      modifies this
      ensures Valid() && (State(), r) == MetaTables.RemoveDir(old(State()), id)
    {
      if id !in nodes {
        return Err(NotFound);
      }
      if !nodes[id].isDir {
        return Err(NotADirectory);
      }
      if HasChildren(nodes, id) {
        return Err(NotEmpty);
      }
      DeleteNode(id);
      return Ok(());
    }

    method Rename(id: nat, parent: nat, name: seq<byte>) returns (r: Outcome<()>)
      requires Valid()
      modifies this
      ensures Valid() && (State(), r) == MetaTables.Rename(old(State()), id, parent, name)
    {
      RenameKeepsSchema(State(), id, parent, name);
      if id !in nodes {
        return Err(NotFound);
      }
      if c: nat :| c in nodes && IsChild(nodes, parent, name, c) && c != id {
        return Err(Exists);
      }
      if parent !in nodes {
        return Err(NotFound);
      }
      nodes := nodes[id := nodes[id].(parent := Some(parent), name := name)];
      return Ok(());
    }

    /** The absolute path of a node, from a bounded walk to the root. */
    method PathOf(id: nat) returns (r: Outcome<Option<seq<byte>>>)
      ensures r == Rendered(WalkUp(nodes, id, WALK_LIMIT))
    {
      var names: Path := [];
      var current := id;
      AttachNothing(WalkUp(nodes, id, WALK_LIMIT));
      for i := 0 to WALK_LIMIT
        invariant WalkUp(nodes, id, WALK_LIMIT) == Attach(WalkUp(nodes, current, WALK_LIMIT - i), Reversed(names))
      {
        if current !in nodes {
          return Ok(None);
        }
        match nodes[current].parent {
          case Some(parent) =>
            AttachOne(nodes, current, WALK_LIMIT - i, names);
            names := names + [nodes[current].name];
            current := parent;
          case None =>
            assert [] + Reversed(names) == Reversed(names);
            var bytes := RenderReversed(names);
            return Ok(Some(bytes));
        }
      }
      return Err(Corrupt);
    }

    method IsAncestorOrSelf(ancestor: nat, node: nat) returns (r: Outcome<bool>)
      ensures r == AncestorWalk(nodes, ancestor, node, WALK_LIMIT)
    {
      var current := node;
      for i := 0 to WALK_LIMIT
        invariant AncestorWalk(nodes, ancestor, node, WALK_LIMIT) ==
                  AncestorWalk(nodes, ancestor, current, WALK_LIMIT - i)
      {
        if current == ancestor {
          return Ok(true);
        }
        if current !in nodes {
          return Err(NotFound);
        }
        match nodes[current].parent {
          case Some(parent) => current := parent;
          case None => return Ok(false);
        }
      }
      return Err(Corrupt);
    }

    method ReferencedChunkHashes() returns (live: set<Hash>)
      ensures live == Referenced(State())
    {
      live := {};
      var rest := chunks.Keys;
      while rest != {}
        invariant rest <= chunks.Keys
        invariant forall h :: h in live <==> RefersFrom(chunks, chunks.Keys - rest, h)
        decreases |rest|
      {
        var v: nat :| v in rest;
        ghost var before := live;
        for i := 0 to |chunks[v]|
          invariant forall h :: h in live <==> h in before || exists j :: 0 <= j < i && chunks[v][j].hash == h
        {
          live := live + {chunks[v][i].hash};
        }
        ghost var seen := chunks.Keys - rest;
        rest := rest - {v};
        assert chunks.Keys - rest == seen + {v};
      }
      assert chunks.Keys - rest == chunks.Keys;
      assert forall h :: h in live <==> Refers(State(), h);
    }
  }

  ghost predicate RefersFrom(chunks: map<nat, seq<ChunkRow>>, from: set<nat>, h: Hash) {
    exists v, i :: v in from && v in chunks && 0 <= i < |chunks[v]| && chunks[v][i].hash == h
  }

  lemma {:induction false} ResolveWithoutPrefix(nodes: Nodes, segments: Path, i: nat)
    requires i <= |segments| && Resolve(nodes, segments[..i]).None?
    ensures Resolve(nodes, segments).None?
    decreases |segments| - i
  {
    if i == |segments| {
      assert segments[..i] == segments;
    } else {
      assert Init(segments[..i + 1]) == segments[..i];
      ResolveWithoutPrefix(nodes, segments, i + 1);
    }
  }

  lemma AttachNothing(walk: Outcome<Option<Path>>)
    ensures Attach(walk, []) == walk
  {
    if walk.Ok? && walk.value.Some? {
      assert walk.value.value + [] == walk.value.value;
    }
  }

  lemma AttachOne(nodes: Nodes, id: nat, fuel: nat, names: Path)
    requires fuel > 0 && id in nodes && nodes[id].parent.Some?
    ensures Attach(WalkUp(nodes, id, fuel), Reversed(names)) ==
            Attach(WalkUp(nodes, nodes[id].parent.value, fuel - 1), Reversed(names + [nodes[id].name]))
  {
    assert Init(names + [nodes[id].name]) == names;
    var above := WalkUp(nodes, nodes[id].parent.value, fuel - 1);
    if above.Ok? && above.value.Some? {
      var path := above.value.value;
      assert path + [nodes[id].name] + Reversed(names) == path + ([nodes[id].name] + Reversed(names));
    }
  }

  lemma {:induction false} ReversedAt<T>(s: seq<T>, i: nat)
    requires i < |s|
    ensures |Reversed(s)| == |s| && Reversed(s)[i] == s[|s| - 1 - i]
  {
    if |s| > 1 {
      ReversedAt(Init(s), if i > 0 then i - 1 else 0);
    } else {
      assert Reversed(Init(s)) == [];
    }
  }

  /** Renders names collected from the innermost outwards. */
  method RenderReversed(names: Path) returns (bytes: seq<byte>)
    ensures bytes == PathBytes(Reversed(names))
  {
    ghost var path := Reversed(names);
    bytes := [];
    if names != [] {
      ReversedAt(names, 0);
    }
    for i := 0 to |names|
      invariant |path| == |names|
      invariant bytes == JoinNames(path[..i])
      invariant i > 0 ==> bytes != []
    {
      ReversedAt(names, i);
      assert Init(path[..i + 1]) == path[..i];
      bytes := bytes + [SLASH] + names[|names| - 1 - i];
    }
    assert path[..|path|] == path;
    if bytes == [] {
      bytes := [SLASH];
    }
  }

  // ---- Rendered paths and lookups are inverse to each other ----

  /** A rendered path, on any table at all, is the node's own. */
  lemma RenderedIsOwnPath(nodes: Nodes, id: nat, bytes: seq<byte>)
    requires Rendered(WalkUp(nodes, id, WALK_LIMIT)) == Ok(Some(bytes))
    ensures exists path :: At(nodes, path, id) && bytes == PathBytes(path) && |path| < WALK_LIMIT
  {
    WalkUpIsExact(nodes, id, WALK_LIMIT, WalkUp(nodes, id, WALK_LIMIT).value.value);
  }

  /** Rendering a node's path and looking it up finds the node again; beyond the walk limit
      the path is reported corrupt instead. */
  lemma LookupInvertsPathOf(nodes: Nodes, id: nat)
    requires TreeOk(nodes) && id in nodes
    ensures var r := Rendered(WalkUp(nodes, id, WALK_LIMIT));
      if |PathOf(nodes, id)| < WALK_LIMIT then
        r.Ok? && r.value.Some? && Resolve(nodes, Segments(r.value.value)) == Some(id)
      else r == Err(Corrupt)
  {
    var path := PathOf(nodes, id);
    WalkUpOnTree(nodes, id);
    PathNamesOk(nodes, path, id);
    SegmentsInvertPathBytes(path);
    ResolveIffAt(nodes, path, id);
  }

  /** Looking a path up and rendering the node found gives the path back, normalised. */
  lemma PathOfInvertsLookup(nodes: Nodes, bytes: seq<byte>, id: nat)
    requires TreeOk(nodes) && Resolve(nodes, Segments(bytes)) == Some(id)
    ensures Rendered(WalkUp(nodes, id, WALK_LIMIT)) ==
            if |Segments(bytes)| < WALK_LIMIT then Ok(Some(PathBytes(Segments(bytes)))) else Err(Corrupt)
  {
    ResolveIffAt(nodes, Segments(bytes), id);
    PathUnique(nodes, Segments(bytes), PathOf(nodes, id), id);
    WalkUpOnTree(nodes, id);
  }
}
