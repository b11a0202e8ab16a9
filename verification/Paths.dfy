// Virtual paths as byte strings and as lists of names (vfs crate, davfs.rs and meta.rs).
module Paths {
  import opened Base

  type Path = seq<seq<byte>>

  const SLASH: byte := 47

  predicate NameOk(name: seq<byte>) {
    name != [] && SLASH !in name
  }

  predicate NamesOk(path: Path) {
    forall i :: 0 <= i < |path| ==> NameOk(path[i])
  }

  /** The rendered form of a path: every name preceded by a slash, and `/` for the root. */
  function JoinNames(path: Path): seq<byte> {
    if path == [] then [] else JoinNames(Init(path)) + [SLASH] + Last(path)
  }

  function PathBytes(path: Path): seq<byte> {
    if path == [] then [SLASH] else JoinNames(path)
  }

  /** The runs of bytes between slashes, empty runs included. */
  function SplitSlash(bytes: seq<byte>): (parts: seq<seq<byte>>)
    ensures parts != []
  {
    if bytes == [] then [[]]
    else
      var parts := SplitSlash(Init(bytes));
      if Last(bytes) == SLASH then parts + [[]] else Init(parts) + [Last(parts) + [Last(bytes)]]
  }

  function DropEmpty(parts: seq<seq<byte>>): Path {
    if parts == [] then []
    else DropEmpty(Init(parts)) + (if Last(parts) == [] then [] else [Last(parts)])
  }

  /** The non-empty name segments of a path. */
  function Segments(bytes: seq<byte>): Path {
    DropEmpty(SplitSlash(bytes))
  }

  lemma SplitSnoc(bytes: seq<byte>, c: byte)
    ensures SplitSlash(bytes + [c]) ==
            if c == SLASH then SplitSlash(bytes) + [[]]
            else Init(SplitSlash(bytes)) + [Last(SplitSlash(bytes)) + [c]]
  {
    assert Init(bytes + [c]) == bytes;
  }

  lemma {:induction false} SplitAtSlash(a: seq<byte>, b: seq<byte>)
    ensures SplitSlash(a + [SLASH] + b) == SplitSlash(a) + SplitSlash(b)
  {
    if b == [] {
      SplitSnoc(a, SLASH);
      assert a + [SLASH] + b == a + [SLASH];
    } else {
      SplitAtSlash(a, Init(b));
      var all := a + [SLASH] + b;
      assert Init(all) == a + [SLASH] + Init(b) && Last(all) == Last(b);
      AppendToLast(SplitSlash(a), SplitSlash(Init(b)), Last(b));
    }
  }

  lemma AppendToLast(left: seq<seq<byte>>, right: seq<seq<byte>>, c: byte)
    requires right != []
    ensures Init(left + right) + [Last(left + right) + [c]] == left + (Init(right) + [Last(right) + [c]])
    ensures left + right + [[]] == left + (right + [[]])
  {
  }

  lemma {:induction false} DropEmptyConcat(a: seq<seq<byte>>, b: seq<seq<byte>>)
    ensures DropEmpty(a + b) == DropEmpty(a) + DropEmpty(b)
  {
    if b == [] {
      assert a + b == a;
    } else {
      DropEmptyConcat(a, Init(b));
      assert Init(a + b) == a + Init(b);
    }
  }

  /** A slash separates: segments of a joined string are those of its two sides. */
  lemma SegmentsAtSlash(a: seq<byte>, b: seq<byte>)
    ensures Segments(a + [SLASH] + b) == Segments(a) + Segments(b)
  {
    SplitAtSlash(a, b);
    DropEmptyConcat(SplitSlash(a), SplitSlash(b));
  }

  lemma {:induction false} SplitWithoutSlash(name: seq<byte>)
    requires SLASH !in name
    ensures SplitSlash(name) == [name]
  {
    if name != [] {
      LastIsNot(name, SLASH);
      SplitWithoutSlash(Init(name));
    }
  }

  lemma DropEmptyOne(part: seq<byte>)
    ensures DropEmpty([part]) == if part == [] then [] else [part]
  {
    var parts := [part];
    assert Init(parts) == [];
    assert DropEmpty(Init(parts)) == [];
  }

  lemma SegmentsOfName(name: seq<byte>)
    requires NameOk(name)
    ensures Segments(name) == [name]
  {
    SplitWithoutSlash(name);
    DropEmptyOne(name);
  }

  lemma {:induction false} SegmentsOfJoin(path: Path)
    requires NamesOk(path)
    ensures Segments(JoinNames(path)) == path
  {
    if path == [] {
      DropEmptyOne([]);
    } else {
      SegmentsOfJoin(Init(path));
      SegmentsAtSlash(JoinNames(Init(path)), Last(path));
      SegmentsOfName(Last(path));
      assert path == Init(path) + [Last(path)];
    }
  }

  lemma {:induction false} JoinedParts(path: Path)
    requires NamesOk(path)
    ensures SplitSlash(JoinNames(path)) == [[]] + path
  {
    if path != [] {
      JoinedParts(Init(path));
      SplitAtSlash(JoinNames(Init(path)), Last(path));
      SplitWithoutSlash(Last(path));
      assert path == Init(path) + [Last(path)];
    }
  }

  /** A rendered path is each name after exactly one slash, and a lone slash for the root. */
  lemma RenderedParts(path: Path)
    requires NamesOk(path)
    ensures if path == [] then PathBytes(path) == [SLASH] else SplitSlash(PathBytes(path)) == [[]] + path
  {
    JoinedParts(path);
  }

  /** Rendering a path and splitting it again gives the path back. */
  lemma SegmentsInvertPathBytes(path: Path)
    requires NamesOk(path)
    ensures Segments(PathBytes(path)) == path
  {
    if path == [] {
      SegmentsAtSlash([], []);
      SegmentsOfJoin([]);
      assert [] + [SLASH] + [] == [SLASH];
    } else {
      SegmentsOfJoin(path);
    }
  }

  lemma {:induction false} PartsHaveNoSlash(bytes: seq<byte>)
    ensures forall i :: 0 <= i < |SplitSlash(bytes)| ==> SLASH !in SplitSlash(bytes)[i]
  {
    if bytes != [] {
      PartsHaveNoSlash(Init(bytes));
    }
  }

  lemma {:induction false} DropEmptyNames(parts: seq<seq<byte>>)
    requires forall i :: 0 <= i < |parts| ==> SLASH !in parts[i]
    ensures NamesOk(DropEmpty(parts))
  {
    if parts != [] {
      DropEmptyNames(Init(parts));
    }
  }

  /** Whatever bytes a client sends, the segments are proper names. */
  lemma SegmentsAreNames(bytes: seq<byte>)
    ensures NamesOk(Segments(bytes))
  {
    PartsHaveNoSlash(bytes);
    DropEmptyNames(SplitSlash(bytes));
  }

  /** Whether `path` names something strictly inside the collection at `prefix`. */
  predicate IsWithin(path: seq<byte>, prefix: seq<byte>) {
    |path| > |prefix| && path[..|prefix|] == prefix && path[|prefix|] == SLASH
  }

  lemma {:induction false} JoinOfPrefix(path: Path, n: nat)
    requires n < |path|
    ensures IsWithin(JoinNames(path), JoinNames(path[..n]))
    decreases |path|
  {
    if n + 1 == |path| {
      assert path[..n] == Init(path);
    } else {
      JoinOfPrefix(Init(path), n);
      assert Init(path)[..n] == path[..n];
    }
  }

  /** The byte-prefix filter is exact: below a non-root scope it accepts precisely the
      paths that properly extend the scope's path, name by name. */
  lemma WithinIsProperPrefix(path: Path, scope: Path)
    requires NamesOk(path) && NamesOk(scope) && scope != []
    ensures IsWithin(PathBytes(path), PathBytes(scope)) <==> scope < path
  {
    var bytes, prefix := PathBytes(path), PathBytes(scope);
    if IsWithin(bytes, prefix) {
      var rest := bytes[|prefix| + 1..];
      assert bytes == prefix + [SLASH] + rest;
      SegmentsAtSlash(prefix, rest);
      SegmentsInvertPathBytes(path);
      SegmentsInvertPathBytes(scope);
      assert path == scope + Segments(rest);
      assert path != scope;
    }
    if scope < path {
      JoinOfPrefix(path, |scope|);
      assert path[..|scope|] == scope;
    }
  }
}
