// The content-addressed blob store and the readers over it (blobstore crate).
module BlobStores {
  import opened Base
  import opened Manifests

  datatype IoError = BlobMissing | InvalidInput | InvalidData | Failed

  /** Every blob's bytes hash to its name. */
  ghost predicate BlobsSound(blobs: map<Hash, seq<byte>>) {
    forall h :: h in blobs ==> HashOf(blobs[h]) == h
  }

  /** Storing one blob: nothing changes when the content is already there. */
  function PutBlob(blobs: map<Hash, seq<byte>>, data: seq<byte>): map<Hash, seq<byte>> {
    if HashOf(data) in blobs then blobs else blobs[HashOf(data) := data]
  }

  function PutAll(blobs: map<Hash, seq<byte>>, pieces: seq<seq<byte>>): map<Hash, seq<byte>> {
    if pieces == [] then blobs else PutBlob(PutAll(blobs, Init(pieces)), Last(pieces))
  }

  /** Storing pieces adds exactly their hashes and disturbs no other blob. */
  lemma {:induction false} PutAllAdds(blobs: map<Hash, seq<byte>>, pieces: seq<seq<byte>>)
    requires BlobsSound(blobs)
    ensures BlobsSound(PutAll(blobs, pieces))
    ensures PutAll(blobs, pieces).Keys == blobs.Keys + Hashes(ManifestOf(pieces))
    ensures forall h :: h in blobs ==> PutAll(blobs, pieces)[h] == blobs[h]
  {
    if pieces != [] {
      PutAllAdds(blobs, Init(pieces));
      HashesSnoc(Init(pieces), Last(pieces));
      assert Init(pieces) + [Last(pieces)] == pieces;
    }
  }

  lemma ManifestSnoc(pieces: seq<seq<byte>>, piece: seq<byte>)
    ensures ManifestOf(pieces + [piece]).chunks ==
            ManifestOf(pieces).chunks + [ChunkRef(HashOf(piece), |Flatten(pieces)|, |piece|)]
    ensures ManifestOf(pieces + [piece]).totalSize == ManifestOf(pieces).totalSize + |piece|
  {
    var all := pieces + [piece];
    FlattenSnoc(pieces, piece);
    forall i | 0 <= i <= |pieces| ensures all[..i] == pieces[..i] {
    }
    assert all[..|pieces|] == pieces;
  }

  lemma HashesSnoc(pieces: seq<seq<byte>>, piece: seq<byte>)
    ensures Hashes(ManifestOf(pieces + [piece])) == Hashes(ManifestOf(pieces)) + {HashOf(piece)}
  {
    ManifestSnoc(pieces, piece);
    var old', new' := ManifestOf(pieces).chunks, ManifestOf(pieces + [piece]).chunks;
    assert new'[|pieces|].hash == HashOf(piece);
    forall h | h in Hashes(ManifestOf(pieces)) ensures h in Hashes(ManifestOf(pieces + [piece])) {
      var i :| 0 <= i < |old'| && h == old'[i].hash;
      assert new'[i].hash == h;
    }
  }

  class BlobStore {
    var blobs: map<Hash, seq<byte>>

    ghost predicate Valid() reads this {
      BlobsSound(blobs)
    }

    constructor ()
      ensures Valid() && blobs == map[]
    {
      blobs := map[];
    }

    method Put(data: seq<byte>) returns (hash: Hash)
      requires Valid()
      modifies this
      ensures Valid() && hash == HashOf(data)
      ensures blobs == PutBlob(old(blobs), data)
      ensures hash in blobs && blobs[hash] == data
    {
      hash := HashOf(data);
      if hash in blobs {
        return;
      }
      blobs := blobs[hash := data];
    }

    /** `pieces` is what the chunker yields for the file. */
    method StoreFile(pieces: seq<seq<byte>>) returns (m: Manifest)
      requires Valid() && Chunked(pieces)
      modifies this
      ensures Valid() && blobs == PutAll(old(blobs), pieces)
      ensures m == ManifestOf(pieces) && Stored(m) && Content(m) == Flatten(pieces)
      ensures Hashes(m) <= blobs.Keys
    {
      m := EMPTY_MANIFEST;
      for i := 0 to |pieces|
        invariant Valid() && blobs == PutAll(old(blobs), pieces[..i])
        invariant m == ManifestOf(pieces[..i])
      {
        assert pieces[..i + 1] == pieces[..i] + [pieces[i]];
        ManifestSnoc(pieces[..i], pieces[i]);
        var hash := Put(pieces[i]);
        m := Manifest(m.totalSize + |pieces[i]|, m.chunks + [ChunkRef(hash, m.totalSize, |pieces[i]|)]);
      }
      assert pieces[..|pieces|] == pieces;
      ManifestOfIsStored(pieces);
      PutAllAdds(old(blobs), pieces);
    }

    method Get(hash: Hash) returns (r: Result<seq<byte>, IoError>)
      requires Valid()
      ensures if hash in blobs then r == Ok(hash.preimage) else r == Err(BlobMissing)
    {
      if hash in blobs {
        return Ok(blobs[hash]);
      }
      return Err(BlobMissing);
    }

    /** Directory scan in no particular order; entries in `unreadable` are skipped. */
    method ListHashes(unreadable: set<Hash>) returns (hashes: seq<Hash>)
      ensures forall h :: h in hashes <==> h in blobs.Keys - unreadable
      ensures forall i, j :: 0 <= i < j < |hashes| ==> hashes[i] != hashes[j]
    {
      hashes := [];
      var rest := blobs.Keys;
      while rest != {}
        invariant rest <= blobs.Keys
        invariant forall h :: h in hashes <==> h in blobs.Keys - rest - unreadable
        invariant forall i, j :: 0 <= i < j < |hashes| ==> hashes[i] != hashes[j]
        decreases |rest|
      {
        var h :| h in rest;
        assert h !in hashes;
        rest := rest - {h};
        if h !in unreadable {
          hashes := hashes + [h];
        }
      }
    }

    /** `fails` stands for an I/O error while deleting. */
    method Remove(hash: Hash, fails: bool) returns (r: Result<nat, IoError>)
      requires Valid()
      modifies this
      ensures Valid()
      ensures fails && hash in old(blobs) ==> r == Err(Failed) && blobs == old(blobs)
      ensures !fails && hash in old(blobs) ==> r == Ok(|old(blobs)[hash]|) && blobs == old(blobs) - {hash}
      ensures hash !in old(blobs) ==> r == Ok(0) && blobs == old(blobs)
    {
      if hash !in blobs {
        return Ok(0);
      }
      if fails {
        return Err(Failed);
      }
      var size := |blobs[hash]|;
      blobs := blobs - {hash};
      return Ok(size);
    }
  }

  datatype SeekFrom = Start(position: u64) | Current(delta: i64) | End(delta: i64)

  /** The position a seek asks for, before the narrowing cast. */
  function SeekTarget(from: SeekFrom, position: nat, size: nat): int {
    match from
    case Start(n) => n
    case Current(n) => position + n
    case End(n) => size + n
  }

  /** Whether a move reaches position `q` of a file of `size` bytes, from position `p`: from
      the start, from where one is, or from the end, and never to a negative position. */
  predicate Lands(from: SeekFrom, p: nat, size: nat, q: nat) {
    match from
    case Start(n) => q == n
    case Current(d) => p + d >= 0 && q == (p + d) % U64_LIMIT
    case End(d) => size + d >= 0 && q == (size + d) % U64_LIMIT
  }

  /** Exactly when a move is refused. */
  predicate Refused(from: SeekFrom, p: nat, size: nat) {
    match from
    case Start(_) => false
    case Current(d) => p + d < 0
    case End(d) => size + d < 0
  }

  /** The `as u64` cast of a non-negative wide integer. */
  function TruncateToU64(x: nat): nat {
    x % U64_LIMIT
  }

  /** A target is refused, or reached, as the move says. */
  lemma TargetsLand(from: SeekFrom, p: nat, size: nat)
    ensures SeekTarget(from, p, size) < 0 <==> Refused(from, p, size)
    ensures SeekTarget(from, p, size) >= 0 ==> Lands(from, p, size, TruncateToU64(SeekTarget(from, p, size)))
    ensures forall q, r :: Lands(from, p, size, q) && Lands(from, p, size, r) ==> q == r
    ensures Refused(from, p, size) ==> forall q :: !Lands(from, p, size, q)
  {
  }

  /** The three kinds of move, in terms of the first: moving from the end or from where one is
      is moving from the start to the sum, where that is a position. */
  lemma MovesAgree(p: nat, size: nat, q: u64, d: i64, r: nat)
    ensures Lands(Start(q), p, size, r) <==> r == q
    ensures 0 <= size + d < U64_LIMIT ==> (Lands(End(d), p, size, r) <==> Lands(Start(size + d), p, size, r))
    ensures 0 <= p + d < U64_LIMIT ==> (Lands(Current(d), p, size, r) <==> Lands(Start(p + d), p, size, r))
    ensures Refused(End(d), p, size) <==> size + d < 0
    ensures Refused(Current(d), p, size) <==> p + d < 0
  {
  }

  /** A seek lands where it was asked to exactly when the target fits 64 bits. */
  lemma SeekIsExactBelowLimit(from: SeekFrom, position: nat, size: nat)
    requires SeekTarget(from, position, size) >= 0
    ensures TruncateToU64(SeekTarget(from, position, size)) == SeekTarget(from, position, size)
            <==> SeekTarget(from, position, size) < U64_LIMIT
  {
    var x := SeekTarget(from, position, size);
    assert 0 <= x % U64_LIMIT < U64_LIMIT;
  }

  /** From the last position that fits, one step forward lands at the start. */
  lemma SeekWrapsAround(size: nat)
    ensures TruncateToU64(SeekTarget(Start(U64_LIMIT - 1), 0, size)) == U64_LIMIT - 1
    ensures TruncateToU64(SeekTarget(Current(1), U64_LIMIT - 1, size)) == 0
  {
  }

  /** A chunk that covers the position is not in the store. */
  ghost predicate CoveringMissing(m: Manifest, blobs: map<Hash, seq<byte>>, position: nat) {
    exists i :: 0 <= i < |m.chunks| && Covers(m.chunks[i], position) && m.chunks[i].hash !in blobs
  }

  lemma NothingCoversTheEnd(m: Manifest, blobs: map<Hash, seq<byte>>, position: nat)
    requires Stored(m) && position >= m.totalSize
    ensures !CoveringMissing(m, blobs, position)
  {
    forall i | 0 <= i < |m.chunks| ensures !Covers(m.chunks[i], position) {
      ChunkTiling(m, i);
    }
  }

  /** Only one chunk covers a position, so that is the one that is missing or not. */
  lemma CoveringIsUnique(m: Manifest, i: nat, position: nat, blobs: map<Hash, seq<byte>>)
    requires Stored(m) && i < |m.chunks| && Covers(m.chunks[i], position)
    ensures CoveringMissing(m, blobs, position) <==> m.chunks[i].hash !in blobs
  {
    StoredAscending(m);
    forall j | 0 <= j < |m.chunks| && Covers(m.chunks[j], position) ensures j == i {
    }
  }

  /** The reader's fields fit together: either nothing is loaded and `base` is where the
      next chunk starts (or anywhere past the end), or the chunk before `nextIndex` is. */
  ghost predicate CursorOk(m: Manifest, nextIndex: nat, current: seq<byte>, cursor: nat, base: nat) {
    && nextIndex <= |m.chunks|
    && cursor <= |current|
    && (current == [] ==>
          if nextIndex < |m.chunks| then base == m.chunks[nextIndex].offset else base >= m.totalSize)
    && (current != [] ==>
          && 0 < nextIndex
          && base == m.chunks[nextIndex - 1].offset
          && current == m.chunks[nextIndex - 1].hash.preimage)
  }

  /** Freshly loading a chunk gives a well-placed cursor over part of the content. */
  lemma LoadedChunk(m: Manifest, i: nat, cursor: nat)
    requires Stored(m) && i < |m.chunks| && cursor <= m.chunks[i].length
    ensures CursorOk(m, i + 1, m.chunks[i].hash.preimage, cursor, m.chunks[i].offset)
    ensures |m.chunks[i].hash.preimage| == m.chunks[i].length > 0
  {
    ChunkTiling(m, i);
  }

  /** The bytes under the cursor are the content's bytes at the reader's position. */
  lemma CursorReads(m: Manifest, nextIndex: nat, current: seq<byte>, cursor: nat, base: nat, k: nat)
    requires Stored(m) && CursorOk(m, nextIndex, current, cursor, base)
    requires 0 < k <= |current| - cursor
    ensures base + cursor + k <= m.totalSize == |Content(m)|
    ensures Content(m)[base + cursor..base + cursor + k] == current[cursor..cursor + k]
  {
    ChunkTiling(m, nextIndex - 1);
    SliceOfSlice(Content(m), base, current, cursor, cursor + k);
  }

  /** An exhausted chunk ends where the next one starts, or at or past the end of the file. */
  lemma CursorExhausted(m: Manifest, nextIndex: nat, current: seq<byte>, cursor: nat, base: nat)
    requires Stored(m) && CursorOk(m, nextIndex, current, cursor, base) && cursor == |current|
    ensures if nextIndex < |m.chunks| then base + cursor == m.chunks[nextIndex].offset < m.totalSize
            else base + cursor >= m.totalSize
  {
    if nextIndex < |m.chunks| {
      ChunkTiling(m, nextIndex);
    }
    if current != [] {
      ChunkTiling(m, nextIndex - 1);
    }
  }

  /** Streaming `Read` + `Seek` over a manifest. The cursor over the chunk being read is
      the pair `current`, `cursor`. */
  class ManifestReader {
    const store: BlobStore
    const manifest: Manifest
    var nextIndex: nat
    var current: seq<byte>
    var cursor: nat
    var base: nat

    ghost predicate Valid() reads this, store {
      store.Valid() && Stored(manifest) && CursorOk(manifest, nextIndex, current, cursor, base)
    }

    /** All of the manifest's blobs are in the store. */
    ghost predicate Backed() reads store {
      Hashes(manifest) <= store.blobs.Keys
    }

    constructor (store: BlobStore, manifest: Manifest)
      requires store.Valid() && Stored(manifest)
      ensures Valid() && Position() == 0 && nextIndex == 0
      ensures this.store == store && this.manifest == manifest
    {
      this.store := store;
      this.manifest := manifest;
      nextIndex, current, cursor, base := 0, [], 0, 0;
      new;
      if manifest.chunks != [] {
        ChunkTiling(manifest, 0);
      } else {
        assert PiecesOf(manifest) == [];
      }
    }

    function Position(): nat reads this {
      base + cursor
    }

    /** The chunks from `lo` up to but not including `hi` are in the store. */
    ghost predicate Present(lo: nat, hi: nat) reads store
      requires hi <= |manifest.chunks|
    {
      forall i :: lo <= i < hi ==> manifest.chunks[i].hash in store.blobs
    }

    lemma PresentGrows(lo: nat, before: nat)
      requires lo <= before <= |manifest.chunks| && Present(lo, before) && Advanced(before)
      ensures lo <= nextIndex <= |manifest.chunks| && Present(lo, nextIndex)
    {
    }

    /** At most one chunk was loaded since `nextIndex` was `before`. */
    ghost predicate Advanced(before: nat) reads this, store {
      || nextIndex == before
      || (nextIndex == before + 1 <= |manifest.chunks| && manifest.chunks[before].hash in store.blobs)
    }

    /** The current chunk is used up and the next one is not in the store. */
    ghost predicate Stuck() reads this, store {
      cursor == |current| && nextIndex < |manifest.chunks| && manifest.chunks[nextIndex].hash !in store.blobs
    }

    /** A reader is stuck only where the chunk covering its position is missing. */
    lemma StuckAtMissing()
      requires Valid() && Stuck()
      ensures CoveringMissing(manifest, store.blobs, Position())
    {
      CursorExhausted(manifest, nextIndex, current, cursor, base);
      ChunkTiling(manifest, nextIndex);
      assert Covers(manifest.chunks[nextIndex], Position());
    }

    /** A read of up to `n` bytes returns the next bytes of the flat content, none exactly
        when `n` is zero or the position is at or past the end. It fails exactly when bytes
        are asked for and the next chunk is needed and gone, and then changes nothing. */
    method Read(n: nat) returns (r: Result<seq<byte>, IoError>)
      requires Valid()
      modifies this
      ensures Valid() && Advanced(old(nextIndex))
      ensures r.Ok? ==>
        && |r.value| <= n
        && (r.value == [] <==> n == 0 || old(Position()) >= manifest.totalSize)
        && (r.value == [] && n > 0 ==> nextIndex == |manifest.chunks|)
        && (|r.value| < n ==> cursor == |current|)
        && Position() == old(Position()) + |r.value|
        && (r.value != [] ==>
              && Position() <= |Content(manifest)|
              && r.value == Content(manifest)[old(Position())..Position()])
      ensures r.Err? <==> n > 0 && old(Stuck())
      ensures r.Err? ==>
        && r == Err(BlobMissing) && !Backed()
        && nextIndex == old(nextIndex) && current == old(current)
        && cursor == old(cursor) && base == old(base)
    {
      if n == 0 {
        return Ok([]);
      }
      while true
        invariant Valid() && Position() == old(Position())
        invariant cursor < |current| || (nextIndex == old(nextIndex) && current == old(current)
                                         && cursor == old(cursor) && base == old(base))
        invariant Advanced(old(nextIndex))
        invariant old(Stuck()) ==> cursor == |current|
        decreases |manifest.chunks| - nextIndex
      {
        if cursor < |current| {
          var bytes := Take(Min(n, |current| - cursor));
          return Ok(bytes);
        }
        if nextIndex >= |manifest.chunks| {
          assert Position() >= manifest.totalSize by {
            CursorExhausted(manifest, nextIndex, current, cursor, base);
          }
          return Ok([]);
        }
        var loaded := LoadNext();
        if loaded.Err? {
          return Err(loaded.error);
        }
      }
    }

    /** Takes the next `k` bytes of the current chunk. */
    method Take(k: nat) returns (bytes: seq<byte>)
      requires Valid() && 0 < k <= |current| - cursor
      modifies `cursor
      ensures Valid() && cursor == old(cursor) + k && |bytes| == k
      ensures Position() <= |Content(manifest)| == manifest.totalSize
      ensures bytes == Content(manifest)[old(Position())..Position()]
    {
      CursorReads(manifest, nextIndex, current, cursor, base, k);
      bytes := current[cursor..cursor + k];
      cursor := cursor + k;
    }

    /** Moves on to the next chunk once the current one is exhausted. */
    method LoadNext() returns (r: Result<(), IoError>)
      requires Valid() && cursor == |current| && nextIndex < |manifest.chunks|
      modifies this
      ensures Valid() && Position() == old(Position()) < manifest.totalSize
      ensures r.Ok? <==> manifest.chunks[old(nextIndex)].hash in store.blobs
      ensures r.Ok? ==> cursor < |current| && nextIndex == old(nextIndex) + 1
      ensures r.Err? ==>
        && r == Err(BlobMissing) && !Backed()
        && nextIndex == old(nextIndex) && current == old(current)
        && cursor == old(cursor) && base == old(base)
    {
      CursorExhausted(manifest, nextIndex, current, cursor, base);
      var chunk := manifest.chunks[nextIndex];
      LoadedChunk(manifest, nextIndex, 0);
      var got := store.Get(chunk.hash);
      if got.Err? {
        assert chunk.hash in Hashes(manifest);
        return Err(got.error);
      }
      current, cursor, base, nextIndex := got.value, 0, chunk.offset, nextIndex + 1;
      return Ok(());
    }

    /** A seek moves to the requested target (as truncated to 64 bits); seeking past the
        end is allowed. A failed seek changes nothing, and a stored manifest never yields
        the inconsistent-offsets error. */
    method Seek(from: SeekFrom) returns (r: Result<nat, IoError>)
      requires Valid()
      modifies this
      ensures Valid()
      ensures r == Err(InvalidInput) <==> Refused(from, old(Position()), |Content(manifest)|)
      ensures r.Ok? ==> r.value == Position() && Lands(from, old(Position()), |Content(manifest)|, Position())
      ensures r == Err(BlobMissing) <==>
        exists q :: Lands(from, old(Position()), |Content(manifest)|, q) && CoveringMissing(manifest, store.blobs, q)
      ensures r.Err? ==>
        && (r == Err(InvalidInput) || (r == Err(BlobMissing) && !Backed()))
        && nextIndex == old(nextIndex) && current == old(current)
        && cursor == old(cursor) && base == old(base)
    {
      var target := SeekTarget(from, Position(), manifest.totalSize);
      assert manifest.totalSize == |Content(manifest)|;
      TargetsLand(from, Position(), manifest.totalSize);
      if target < 0 {
        return Err(InvalidInput);
      }
      target := TruncateToU64(target);
      if target >= manifest.totalSize {
        NothingCoversTheEnd(manifest, store.blobs, target);
        nextIndex, current, cursor, base := |manifest.chunks|, [], 0, target;
        return Ok(target);
      }
      var found := Locate(manifest, target);
      if found.None? {
        return Err(InvalidData);
      }
      var chunk := manifest.chunks[found.value];
      LoadedChunk(manifest, found.value, target - chunk.offset);
      CoveringIsUnique(manifest, found.value, target, store.blobs);
      var got := store.Get(chunk.hash);
      if got.Err? {
        assert chunk.hash in Hashes(manifest);
        return Err(got.error);
      }
      current, cursor, base, nextIndex := got.value, target - chunk.offset, chunk.offset, found.value + 1;
      return Ok(target);
    }

    /** Reading until nothing comes back, `n` bytes at a time, yields the rest of the file
        from the current position, having needed every chunk not loaded before. */
    method ReadToEnd(n: nat) returns (r: Result<seq<byte>, IoError>)
      requires Valid() && n > 0
      modifies this
      ensures Valid()
      ensures r.Err? ==> r == Err(BlobMissing) && !Backed()
      ensures r.Ok? ==> Present(old(nextIndex), |manifest.chunks|)
      ensures r.Ok? ==> r.value == From(Content(manifest), old(Position()))
    {
      ghost var content, start := Content(manifest), Position();
      assert manifest.totalSize == |content|;
      var out: seq<byte> := [];
      while true
        invariant Valid() && old(nextIndex) <= nextIndex && Present(old(nextIndex), nextIndex)
        invariant Position() == start + |out|
        invariant out != [] ==> Position() <= |content|
        invariant From(content, start) == out + From(content, Position())
        decreases |content| - Position()
      {
        ghost var at, before := Position(), nextIndex;
        var got := Read(n);
        if got.Err? {
          return Err(got.error);
        }
        PresentGrows(old(nextIndex), before);
        if got.value == [] {
          assert out + [] == out;
          return Ok(out);
        }
        FromStep(content, start, out, at, got.value, Position());
        out := out + got.value;
      }
    }

    /** Reading a whole file from a fresh reader works exactly when every blob is there. */
    method ReadAll(n: nat) returns (r: Result<seq<byte>, IoError>)
      requires Valid() && n > 0 && nextIndex == 0 && Position() == 0
      modifies this
      ensures Valid()
      ensures r == if Backed() then Ok(Content(manifest)) else Err(BlobMissing)
    {
      r := ReadToEnd(n);
      if r.Ok? {
        assert Backed();
      }
    }

    /** Runs a script of reads and seeks against a store that holds every blob. */
    method Replay(script: seq<ReaderCall>) returns (outcomes: seq<ReaderOutcome>)
      requires Valid() && Backed()
      modifies this
      ensures Valid()
      ensures FlatTrace(Content(manifest), old(Position()), script, outcomes, Position())
    {
      assert manifest.totalSize == |Content(manifest)|;
      outcomes := [];
      for i := 0 to |script|
        invariant Valid() && Backed()
        invariant FlatTrace(Content(manifest), old(Position()), script[..i], outcomes, Position())
      {
        ghost var before := Position();
        var outcome;
        match script[i] {
          case ReadCall(n) =>
            var got := Read(n);
            outcome := Bytes(got.value);
          case SeekCall(from) =>
            var got := Seek(from);
            outcome := if got.Ok? then Landed(got.value) else Rejected;
        }
        assert Init(script[..i + 1]) == script[..i] && Last(script[..i + 1]) == script[i];
        assert Init(outcomes + [outcome]) == outcomes;
        outcomes := outcomes + [outcome];
        assert FlatStep(Content(manifest), before, script[i], outcome, Position());
      }
      assert script[..|script|] == script;
    }
  }

  /** What is left of a file from a position on; nothing past the end. */
  function From(content: seq<byte>, position: nat): seq<byte> {
    if position <= |content| then content[position..] else []
  }

  lemma FromStep(content: seq<byte>, start: nat, out: seq<byte>, lo: nat, next: seq<byte>, hi: nat)
    requires From(content, start) == out + From(content, lo)
    requires lo <= hi <= |content| && next == content[lo..hi]
    ensures From(content, start) == out + next + From(content, hi)
  {
    assert From(content, lo) == next + From(content, hi);
  }

  lemma SliceOfSlice(whole: seq<byte>, base: nat, part: seq<byte>, lo: nat, hi: nat)
    requires base + |part| <= |whole| && whole[base..base + |part|] == part
    requires lo <= hi <= |part|
    ensures whole[base + lo..base + hi] == part[lo..hi]
  {
    forall k | 0 <= k < hi - lo ensures whole[base + lo..base + hi][k] == part[lo..hi][k] {
      assert whole[base..base + |part|][lo + k] == part[lo + k];
    }
  }

  datatype ReaderCall = ReadCall(n: nat) | SeekCall(from: SeekFrom)

  datatype ReaderOutcome = Bytes(bytes: seq<byte>) | Landed(position: nat) | Rejected

  /** One call on a plain byte array with a cursor. */
  ghost predicate FlatStep(content: seq<byte>, p: nat, call: ReaderCall, outcome: ReaderOutcome, q: nat) {
    match call
    case ReadCall(n) =>
      && outcome.Bytes?
      && |outcome.bytes| <= n
      && q == p + |outcome.bytes|
      && (outcome.bytes == [] <==> n == 0 || p >= |content|)
      && (outcome.bytes != [] ==> q <= |content| && outcome.bytes == content[p..q])
    case SeekCall(from) =>
      if Refused(from, p, |content|) then outcome == Rejected && q == p
      else Lands(from, p, |content|, q) && outcome == Landed(q)
  }

  /** A whole script of calls on a plain byte array, from cursor `p` to cursor `q`. */
  ghost predicate FlatTrace(content: seq<byte>, p: nat, script: seq<ReaderCall>,
                            outcomes: seq<ReaderOutcome>, q: nat)
  {
    if script == [] then outcomes == [] && q == p
    else
      && outcomes != []
      && exists mid: nat ::
        && FlatTrace(content, p, Init(script), Init(outcomes), mid)
        && FlatStep(content, mid, Last(script), Last(outcomes), q)
  }

  /** Forward-only stream of a file's chunks. */
  class ChunkStream {
    const store: BlobStore
    const manifest: Manifest
    var next: nat

    ghost predicate Valid() reads this, store {
      store.Valid() && Stored(manifest) && next <= |manifest.chunks|
    }

    constructor (store: BlobStore, manifest: Manifest)
      requires store.Valid() && Stored(manifest)
      ensures Valid() && next == 0 && this.store == store && this.manifest == manifest
    {
      this.store, this.manifest, next := store, manifest, 0;
    }

    /** `None` once every chunk was yielded; a missing blob is yielded as an error. */
    method NextChunk() returns (r: Option<Result<seq<byte>, IoError>>)
      requires Valid()
      modifies this
      ensures Valid()
      ensures old(next) == |manifest.chunks| ==> r == None && next == old(next)
      ensures old(next) < |manifest.chunks| ==>
        var h := manifest.chunks[old(next)].hash;
        && next == old(next) + 1
        && r == Some(if h in store.blobs then Ok(h.preimage) else Err(BlobMissing))
    {
      if next >= |manifest.chunks| {
        return None;
      }
      var got := store.Get(manifest.chunks[next].hash);
      next := next + 1;
      return Some(got);
    }

    /** Concatenating the chunks gives the file, and so agrees with `ManifestReader.ReadAll`. */
    method Collect() returns (r: Result<seq<byte>, IoError>)
      requires Valid() && next == 0
      modifies this
      ensures Valid()
      ensures if Hashes(manifest) <= store.blobs.Keys then r == Ok(Content(manifest)) else r == Err(BlobMissing)
    {
      var out: seq<byte> := [];
      while next < |manifest.chunks|
        invariant Valid() && out == ContentUpTo(manifest, next)
        invariant forall i :: 0 <= i < next ==> manifest.chunks[i].hash in store.blobs
        decreases |manifest.chunks| - next
      {
        ContentStep(manifest, next);
        var got := NextChunk();
        if got.value.Err? {
          assert manifest.chunks[next - 1].hash in Hashes(manifest);
          return got.value;
        }
        out := out + got.value.value;
      }
      ContentUpToEnd(manifest);
      return Ok(out);
    }
  }

  /** The bytes of the first `n` chunks. */
  ghost function ContentUpTo(m: Manifest, n: nat): seq<byte>
    requires n <= |m.chunks|
  {
    Flatten(PiecesOf(m)[..n])
  }

  lemma ContentStep(m: Manifest, n: nat)
    requires n < |m.chunks|
    ensures ContentUpTo(m, n + 1) == ContentUpTo(m, n) + m.chunks[n].hash.preimage
  {
    var pieces := PiecesOf(m);
    assert pieces[..n + 1] == pieces[..n] + [pieces[n]];
    FlattenSnoc(pieces[..n], pieces[n]);
  }

  lemma ContentUpToEnd(m: Manifest)
    ensures ContentUpTo(m, |m.chunks|) == Content(m)
  {
    assert PiecesOf(m)[..|m.chunks|] == PiecesOf(m);
  }
}
