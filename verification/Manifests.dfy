// File manifests (blobstore crate): content hashes, chunk references, the manifest that
// storing a file produces, and the bytes a manifest stands for.
module Manifests {
  import opened Base

  /** A content hash. Hashing is taken to be collision-free, so a hash is determined by,
      and determines, the bytes it was computed from. Code never looks inside a hash;
      `preimage` is read by specifications only. */
  datatype Hash = Hash(preimage: seq<byte>)

  function HashOf(data: seq<byte>): Hash {
    Hash(data)
  }

  datatype ChunkRef = ChunkRef(hash: Hash, offset: nat, length: nat)

  datatype Manifest = Manifest(totalSize: nat, chunks: seq<ChunkRef>)

  const EMPTY_MANIFEST := Manifest(0, [])

  /** What the chunker may yield: contiguous non-empty pieces whose lengths fit the
      source's integer widths. */
  predicate Chunked(pieces: seq<seq<byte>>) {
    && (forall i :: 0 <= i < |pieces| ==> 0 < |pieces[i]| < U32_LIMIT)
    && |Flatten(pieces)| < U64_LIMIT
  }

  /** The manifest recorded for a file that the chunker split into `pieces`. */
  function ManifestOf(pieces: seq<seq<byte>>): Manifest {
    Manifest(|Flatten(pieces)|,
             seq(|pieces|, i requires 0 <= i < |pieces| =>
               ChunkRef(HashOf(pieces[i]), |Flatten(pieces[..i])|, |pieces[i]|)))
  }

  ghost function PiecesOf(m: Manifest): seq<seq<byte>> {
    seq(|m.chunks|, i requires 0 <= i < |m.chunks| => m.chunks[i].hash.preimage)
  }

  /** The bytes of the file a manifest describes. */
  ghost function Content(m: Manifest): seq<byte> {
    Flatten(PiecesOf(m))
  }

  /** A manifest that storing some file produces. */
  ghost predicate Stored(m: Manifest) {
    Chunked(PiecesOf(m)) && m == ManifestOf(PiecesOf(m))
  }

  ghost function Hashes(m: Manifest): set<Hash> {
    set i | 0 <= i < |m.chunks| :: m.chunks[i].hash
  }

  lemma ManifestOfIsStored(pieces: seq<seq<byte>>)
    requires Chunked(pieces)
    ensures PiecesOf(ManifestOf(pieces)) == pieces
    ensures Stored(ManifestOf(pieces)) && Content(ManifestOf(pieces)) == Flatten(pieces)
  {
    assert PiecesOf(ManifestOf(pieces)) == pieces;
  }

  /** Chunks tile the content: each starts where the previous one ends, the last ends at
      `totalSize`, and the content restricted to a chunk is that chunk's bytes. */
  lemma ChunkTiling(m: Manifest, i: nat)
    requires Stored(m) && i < |m.chunks|
    ensures m.totalSize == |Content(m)|
    ensures var c := m.chunks[i];
      && 0 < c.length == |c.hash.preimage|
      && c.offset + c.length <= m.totalSize
      && Content(m)[c.offset..c.offset + c.length] == c.hash.preimage
      && (i == 0 ==> c.offset == 0)
      && c.offset + c.length == if i + 1 < |m.chunks| then m.chunks[i + 1].offset else m.totalSize
  {
    var pieces := PiecesOf(m);
    FlattenAt(pieces, i);
    if i + 1 == |pieces| {
      assert pieces[..i + 1] == pieces;
    }
  }

  predicate Covers(c: ChunkRef, position: nat) {
    c.offset <= position < c.offset + c.length
  }

  /** Chunks in ascending, non-overlapping order. */
  predicate Ascending(chunks: seq<ChunkRef>) {
    forall i, j :: 0 <= i < j < |chunks| ==> chunks[i].offset + chunks[i].length <= chunks[j].offset
  }

  lemma {:induction false} StoredGap(m: Manifest, i: nat, j: nat)
    requires Stored(m) && i < j < |m.chunks|
    ensures m.chunks[i].offset + m.chunks[i].length <= m.chunks[j].offset
    decreases j
  {
    ChunkTiling(m, j - 1);
    if i < j - 1 {
      StoredGap(m, i, j - 1);
    }
  }

  lemma StoredAscending(m: Manifest)
    requires Stored(m)
    ensures Ascending(m.chunks)
  {
    forall i, j | 0 <= i < j < |m.chunks|
      ensures m.chunks[i].offset + m.chunks[i].length <= m.chunks[j].offset
    {
      StoredGap(m, i, j);
    }
  }

  /** Every position inside a stored file is covered by some chunk. */
  lemma {:induction false} SomeChunkCovers(m: Manifest, position: nat, n: nat) returns (i: nat)
    requires Stored(m) && 0 < n <= |m.chunks|
    requires position < m.chunks[n - 1].offset + m.chunks[n - 1].length
    ensures i < n && Covers(m.chunks[i], position)
    decreases n
  {
    ChunkTiling(m, n - 1);
    if m.chunks[n - 1].offset <= position {
      i := n - 1;
    } else {
      ChunkTiling(m, n - 2);
      i := SomeChunkCovers(m, position, n - 1);
    }
  }

  lemma CoveringChunk(m: Manifest, position: nat) returns (i: nat)
    requires Stored(m) && position < m.totalSize
    ensures i < |m.chunks| && Covers(m.chunks[i], position)
  {
    assert m.chunks == [] ==> PiecesOf(m) == [];
    ChunkTiling(m, |m.chunks| - 1);
    i := SomeChunkCovers(m, position, |m.chunks|);
  }

  /** The binary search both readers run over chunk offsets. A hit is always right; over
      ascending chunks a miss means that no chunk covers the position. */
  method FindChunk(chunks: seq<ChunkRef>, position: nat) returns (r: Option<nat>)
    ensures r.Some? ==> r.value < |chunks| && Covers(chunks[r.value], position)
    ensures r.None? && Ascending(chunks) ==> forall i :: 0 <= i < |chunks| ==> !Covers(chunks[i], position)
  {
    var lo, hi := 0, |chunks|;
    while lo < hi
      invariant 0 <= lo <= hi <= |chunks|
      invariant Ascending(chunks) ==> forall i :: 0 <= i < lo ==> chunks[i].offset + chunks[i].length <= position
      invariant Ascending(chunks) ==> forall i :: hi <= i < |chunks| ==> position < chunks[i].offset
    {
      var mid := lo + (hi - lo) / 2;
      if chunks[mid].offset + chunks[mid].length <= position {
        lo := mid + 1;
      } else if chunks[mid].offset > position {
        hi := mid;
      } else {
        return Some(mid);
      }
    }
    return None;
  }

  /** The binary search never misses inside a stored file. */
  method Locate(m: Manifest, at: nat) returns (r: Option<nat>)
    requires Stored(m) && at < m.totalSize
    ensures r.Some? && r.value < |m.chunks| && Covers(m.chunks[r.value], at)
  {
    StoredAscending(m);
    ghost var covering := CoveringChunk(m, at);
    r := FindChunk(m.chunks, at);
  }
}
