// Open file handles (vfs crate, file.rs): reading through a one-chunk cache, writing into a
// staging file, and committing on flush.
module Files {
  import opened Base
  import opened Manifests
  import opened BlobStores
  import opened MetaTables
  import opened FsModel
  import opened FsTheorems
  import opened Inners
  import opened Drafts

  datatype State =
    | ReadState(manifest: Manifest, cache: Option<(nat, seq<byte>)>)
    | WriteState(temp: seq<byte>, len: nat, append: bool, dirty: bool)

  /** Offsets are signed 64-bit, so no file is longer than this. */
  const MAX_FILE: nat := I64_LIMIT - 1

  /** The content a write handle stands for. */
  function Staged(s: State): seq<byte>
    requires s.WriteState?
  {
    SetLen(s.temp, s.len)
  }

  ghost predicate StateOk(s: State) {
    match s
    case ReadState(m, cache) =>
      && Stored(m)
      && (cache.Some? ==> cache.value.0 < |m.chunks| && cache.value.1 == m.chunks[cache.value.0].hash.preimage)
    case WriteState(_, len, _, _) => len <= MAX_FILE
  }

  /** No stray bytes of a failed write past the logical length. */
  predicate Clean(s: State) {
    s.WriteState? && |s.temp| <= s.len
  }

  // ---- Writing ----

  /** How many of `n` bytes written at `at` the disk takes, when it refuses to take more
      than `room`. */
  function Accepted(at: nat, n: nat, room: nat): nat
    requires at <= MAX_FILE
  {
    Min(n, Min(room, MAX_FILE - at))
  }

  /** One write call: the new state, the new position, and the outcome. */
  function WriteStep(s: State, pos: nat, bytes: seq<byte>, room: nat): (State, nat, FsOutcome<()>) {
    if s.ReadState? then (s, pos, Err(Forbidden))
    else
      var at := if s.append then s.len else pos;
      if at > MAX_FILE then (s, pos, Err(GeneralFailure))
      else
        var k := Accepted(at, |bytes|, room);
        var temp := FileWrite(s.temp, at, bytes[..k]);
        if k < |bytes| then (s.(temp := temp), pos, Err(GeneralFailure))
        else (WriteState(temp, Max(s.len, at + |bytes|), s.append, true), at + |bytes|, Ok(()))
  }

  /** A file under modification as its user sees it. */
  datatype Draft = Draft(content: seq<byte>, pos: nat, append: bool)

  datatype Edit =
    | Write(bytes: seq<byte>)
    | WriteParts(parts: seq<seq<byte>>)
    | SeekTo(from: SeekFrom)

  function Put(d: Draft, bytes: seq<byte>): Draft {
    var at := if d.append then |d.content| else d.pos;
    Draft(Overlay(d.content, at, bytes), at + |bytes|, d.append)
  }

  /** What an edit means on a plain byte string with a cursor. */
  function Edited(d: Draft, edit: Edit): Draft {
    match edit
    case Write(bytes) => Put(d, bytes)
    case WriteParts(parts) => Put(d, Flatten(parts))
    case SeekTo(from) =>
      var target := SeekTarget(from, d.pos, |d.content|);
      if target < 0 then d else d.(pos := TruncateToU64(target))
  }

  /** The edit puts no more bytes than the disk takes, and none past the largest offset. */
  predicate Fits(d: Draft, edit: Edit, room: nat) {
    var at := if d.append then |d.content| else d.pos;
    match edit
    case Write(bytes) => |bytes| <= room && at + |bytes| <= MAX_FILE
    case WriteParts(parts) => |Flatten(parts)| <= room && at + |Flatten(parts)| <= MAX_FILE
    case SeekTo(_) => true
  }

  /** Every edit fits when its turn comes. */
  predicate AllFit(d: Draft, edits: seq<Edit>, room: nat) {
    edits == [] || (AllFit(d, Init(edits), room) && Fits(AllEdited(d, Init(edits)), Last(edits), room))
  }

  lemma {:induction false} PrefixFits(d: Draft, edits: seq<Edit>, n: nat, room: nat)
    requires n <= |edits| && AllFit(d, edits, room)
    ensures AllFit(d, edits[..n], room)
  {
    if n < |edits| {
      PrefixFits(d, Init(edits), n, room);
      assert Init(edits)[..n] == edits[..n];
    } else {
      assert edits[..n] == edits;
    }
  }

  /** How a script goes on after its first `i` edits, which lead to `now`. */
  lemma OneMoreEdit(d: Draft, edits: seq<Edit>, i: nat, room: nat, now: Draft)
    requires i < |edits| && now == AllEdited(d, edits[..i]) && AllFit(d, edits[..i], room)
    ensures AllEdited(d, edits[..i + 1]) == Edited(now, edits[i])
    ensures AllFit(d, edits[..i + 1], room) <==> Fits(now, edits[i], room)
    ensures AllFit(d, edits, room) ==> Fits(now, edits[i], room)
    ensures OnlySeeks(edits[..i + 1]) <==> OnlySeeks(edits[..i]) && edits[i].SeekTo?
  {
    assert Init(edits[..i + 1]) == edits[..i] && Last(edits[..i + 1]) == edits[i];
    assert edits[..i + 1] == edits[..i] + [edits[i]];
    if AllFit(d, edits, room) {
      PrefixFits(d, edits, i + 1, room);
    }
  }

  predicate OnlySeeks(edits: seq<Edit>) {
    forall e :: e in edits ==> e.SeekTo?
  }

  function AllEdited(d: Draft, edits: seq<Edit>): Draft {
    if edits == [] then d else Edited(AllEdited(d, Init(edits)), Last(edits))
  }

  function DraftOf(s: State, pos: nat): Draft
    requires s.WriteState?
  {
    Draft(Staged(s), pos, s.append)
  }

  /** Without stray bytes in the staging file, a write that succeeds is the overlay it is
      meant to be, including the gap it zero-fills, and leaves no stray bytes. */
  lemma WriteStepEdits(s: State, pos: nat, bytes: seq<byte>, room: nat)
    requires Clean(s) && WriteStep(s, pos, bytes, room).2.Ok?
    ensures var (t, q, _) := WriteStep(s, pos, bytes, room);
      && Clean(t) && t.append == s.append && t.dirty
      && DraftOf(t, q) == Put(DraftOf(s, pos), bytes)
  {
    var at := if s.append then s.len else pos;
    assert bytes[..|bytes|] == bytes;
    WriteStaysClean(s.temp, s.len, at, bytes);
    WriteIsOverlayIff(s.temp, s.len, at, bytes);
  }

  /** Exactly when a write succeeds: the handle is open for writing, and the disk takes all
      the bytes without the file outgrowing its largest offset. A write that fails otherwise
      leaves the length, the position and the flags as they were. */
  lemma WriteSucceedsIff(s: State, pos: nat, bytes: seq<byte>, room: nat)
    ensures var (t, q, r) := WriteStep(s, pos, bytes, room);
      && (s.ReadState? ==> r == Err(Forbidden) && t == s && q == pos)
      && (s.WriteState? ==>
            var at := if s.append then |Staged(s)| else pos;
            && (r.Ok? <==> |bytes| <= room && at + |bytes| <= MAX_FILE)
            && (r.Err? ==> r == Err(GeneralFailure) && t.WriteState? && t.len == s.len && t.dirty == s.dirty
                           && t.append == s.append && q == pos))
  {
  }

  /** An append goes after everything that is there; any other write replaces the bytes at the
      position and leaves all others, with zeros in a gap it jumps over. */
  lemma WriteLands(s: State, pos: nat, bytes: seq<byte>, room: nat, k: nat)
    requires Clean(s) && WriteStep(s, pos, bytes, room).2.Ok?
    ensures var (t, q, _) := WriteStep(s, pos, bytes, room);
      && t.WriteState?
      && (s.append ==> Staged(t) == Staged(s) + bytes && q == |Staged(t)|)
      && (!s.append ==>
            && |Staged(t)| == Max(|Staged(s)|, pos + |bytes|) && q == pos + |bytes|
            && ByteAt(Staged(t), k) == if pos <= k < pos + |bytes| then bytes[k - pos] else ByteAt(Staged(s), k))
  {
    WriteStepEdits(s, pos, bytes, room);
    PutLands(DraftOf(s, pos), bytes, k);
  }

  lemma PutLands(d: Draft, bytes: seq<byte>, k: nat)
    ensures Put(d, bytes).append == d.append && Put(d, bytes).pos == (if d.append then |d.content| else d.pos) + |bytes|
    ensures d.append ==> Put(d, bytes).content == d.content + bytes
    ensures !d.append ==>
              && |Put(d, bytes).content| == Max(|d.content|, d.pos + |bytes|)
              && ByteAt(Put(d, bytes).content, k) ==
                 if d.pos <= k < d.pos + |bytes| then bytes[k - d.pos] else ByteAt(d.content, k)
  {
    OverlayAt(d.content, d.pos, bytes, k);
    assert Padded(d.content, |d.content|) == d.content;
    assert Overlay(d.content, |d.content|, bytes) == d.content + bytes;
  }

  /** Stray bytes do show: a successful write after a failed one is the intended overlay
      exactly when it does not jump over bytes the failed write left behind. */
  lemma WriteStepEditsIff(s: State, pos: nat, bytes: seq<byte>, room: nat)
    requires s.WriteState? && WriteStep(s, pos, bytes, room).2.Ok?
    ensures var (t, q, _) := WriteStep(s, pos, bytes, room);
      DraftOf(t, q) == Put(DraftOf(s, pos), bytes) <==> GapIsZero(s.temp, s.len, if s.append then s.len else pos)
  {
    var at := if s.append then s.len else pos;
    assert bytes[..|bytes|] == bytes;
    WriteIsOverlayIff(s.temp, s.len, at, bytes);
  }

  const NEW_STAGING := WriteState([], 0, false, true)

  /** A disk that refuses the third byte of a write leaves two behind; writing one byte right
      after them then succeeds, and the two have become content. */
  lemma StrayBytesShow()
    ensures var failed := WriteStep(NEW_STAGING, 0, [1, 1, 1], 2);
      && failed.2 == Err(GeneralFailure) && Staged(failed.0) == [] && failed.1 == 0
      && var (t, _, r) := WriteStep(failed.0, 2, [9], 100);
         && r == Ok(()) && Staged(t) == [1, 1, 9]
         && Put(DraftOf(failed.0, 2), [9]).content == [0, 0, 9]
  {
    var failed := WriteStep(NEW_STAGING, 0, [1, 1, 1], 2);
    assert [1, 1, 1][..2] == [1, 1];
    assert failed.0.temp == [1, 1];
    assert [9][..1] == [9];
    assert Zeros(2) == [0, 0];
  }

  // ---- Flushing ----

  /** What flushing a dirty handle of a live node leaves: the staged bytes are the node's
      content, whole, at the right size, with every blob present; no other file changed. */
  lemma FlushCommits(f: Fs, id: nat, pieces: seq<seq<byte>>)
    requires StoresOk(f) && Chunked(pieces) && id in f.tables.nodes
    ensures var (g, r) := Flush(f, id, pieces);
      && r.Ok? && id in g.tables.nodes
      && CurrentManifest(g.tables, id) == Ok(ManifestOf(pieces))
      && Content(ManifestOf(pieces)) == Flatten(pieces)
      && Hashes(ManifestOf(pieces)) <= g.blobs.Keys
      && g.tables.nodes[id].size == |Flatten(pieces)|
    ensures forall other :: other in f.tables.nodes && other != id ==>
              CurrentManifest(Flush(f, id, pieces).0.tables, other) == CurrentManifest(f.tables, other)
  {
    var stored := f.(blobs := PutAll(f.blobs, pieces));
    var m := ManifestOf(pieces);
    PutAllAdds(f.blobs, pieces);
    ManifestOfIsStored(pieces);
    SetContentCommits(f.tables, id, m);
    ReindexKeepsRest(stored.(tables := SetContent(f.tables, id, m).0), id);
  }

  lemma SetContentCommits(t: Tables, id: nat, m: Manifest)
    requires TablesOk(t) && Stored(m) && id in t.nodes
    ensures var u := SetContent(t, id, m).0;
      && id in u.nodes && CurrentManifest(u, id) == Ok(m) && u.nodes[id].size == m.totalSize
      && forall other :: other in t.nodes && other != id ==> CurrentManifest(u, other) == CurrentManifest(t, other)
  {
    assert CurrentOk(t, id);
    if SetContent(t, id, m).0 != t {
      StoredRoundTrip(m);
    }
    forall other | other in t.nodes && other != id
      ensures CurrentManifest(SetContent(t, id, m).0, other) == CurrentManifest(t, other)
    {
      CommitElsewhere(t, id, m, other);
    }
  }

  lemma CommitElsewhere(t: Tables, id: nat, m: Manifest, other: nat)
    requires CurrentsOk(t) && id in t.nodes && other in t.nodes && other != id
    ensures CurrentManifest(SetContent(t, id, m).0, other) == CurrentManifest(t, other)
  {
    assert CurrentOk(t, other);
  }

  // ---- Handles ----

  class FileHandle {
    const inner: Inner
    const node: nat
    var pos: nat
    var state: State

    ghost predicate Valid() reads this {
      StateOk(state)
    }

    constructor NewRead(inner: Inner, node: nat, manifest: Manifest)
      requires Stored(manifest)
      ensures Valid() && pos == 0 && state == ReadState(manifest, None)
      ensures this.inner == inner && this.node == node
    {
      this.inner, this.node, pos, state := inner, node, 0, ReadState(manifest, None);
    }

    constructor Staging(inner: Inner, node: nat, pos: nat, state: State)
      requires StateOk(state)
      ensures Valid() && this.pos == pos && this.state == state
      ensures this.inner == inner && this.node == node
    {
      this.inner, this.node, this.pos, this.state := inner, node, pos, state;
    }

    /** Opening for writing copies the existing content, if it is wanted, into the staging
        file. `room` is what the disk takes. */
    static method NewWrite(inner: Inner, node: nat, append: bool, existing: Option<Manifest>, truncate: bool, room: nat)
      returns (r: Result<FileHandle, IoError>)
      requires inner.blobs.Valid() && (existing.Some? ==> Stored(existing.value))
      ensures existing.Some? && !(Hashes(existing.value) <= inner.blobs.blobs.Keys) ==> r == Err(BlobMissing)
      ensures existing.Some? && Hashes(existing.value) <= inner.blobs.blobs.Keys ==>
                if existing.value.totalSize > Min(room, MAX_FILE) then r == Err(Failed) else r.Ok?
      ensures r.Ok? ==>
        var h, content := r.value, if existing.None? then [] else Content(existing.value);
        && fresh(h) && h.Valid() && Clean(h.state) && h.inner == inner && h.node == node
        && h.state == WriteState(content, |content|, append, truncate)
        && DraftOf(h.state, h.pos) == Draft(content, if append then |content| else 0, append)
      ensures existing.None? ==> r.Ok?
    {
      var temp: seq<byte> := [];
      if existing.Some? {
        var reader := new ManifestReader(inner.blobs, existing.value);
        var copied := reader.ReadAll(COPY_BUFFER);
        if copied.Err? {
          return Err(copied.error);
        }
        if |copied.value| > Min(room, MAX_FILE) {
          return Err(Failed);
        }
        temp := copied.value;
      }
      var pos := if append then |temp| else 0;
      var h := new FileHandle.Staging(inner, node, pos, WriteState(temp, |temp|, append, truncate));
      return Ok(h);
    }

    function Len(): nat reads this {
      if state.ReadState? then state.manifest.totalSize else state.len
    }

    method WriteBytes(bytes: seq<byte>, room: nat) returns (r: FsOutcome<()>)
      requires Valid()
      modifies this
      ensures Valid() && (state, pos, r) == WriteStep(old(state), old(pos), bytes, room)
    {
      if state.ReadState? {
        return Err(Forbidden);
      }
      var at := if state.append then state.len else pos;
      if at > MAX_FILE {
        return Err(GeneralFailure);
      }
      var k := Accepted(at, |bytes|, room);
      state := state.(temp := FileWrite(state.temp, at, bytes[..k]));
      if k < |bytes| {
        return Err(GeneralFailure);
      }
      at := at + |bytes|;
      state := state.(len := Max(state.len, at), dirty := true);
      pos := at;
      return Ok(());
    }

    /** Writing a buffer of several segments is writing their concatenation, also when the
        disk refuses part of it. */
    method WriteBuf(segments: seq<seq<byte>>, room: nat) returns (r: FsOutcome<()>)
      requires Valid()
      modifies this
      ensures Valid() && (state, pos, r) == WriteStep(old(state), old(pos), Flatten(segments), room)
    {
      if state.ReadState? {
        return Err(Forbidden);
      }
      var start := if state.append then state.len else pos;
      if start > MAX_FILE {
        return Err(GeneralFailure);
      }
      var temp, taken, whole := WriteSegments(state.temp, start, segments, room);
      state := state.(temp := temp);
      if !whole {
        return Err(GeneralFailure);
      }
      state := state.(len := Max(state.len, start + taken), dirty := true);
      pos := start + taken;
      return Ok(());
    }

    /** A seek moves to the requested target, as truncated to 64 bits; a negative target
        changes nothing. */
    method Seek(from: SeekFrom) returns (r: FsOutcome<nat>)
      requires Valid()
      modifies `pos
      ensures Valid()
      ensures if Refused(from, old(pos), Len()) then r == Err(GeneralFailure) && pos == old(pos)
              else Lands(from, old(pos), Len(), pos) && r == Ok(pos)
      ensures state.WriteState? ==> DraftOf(state, pos) == Edited(DraftOf(state, old(pos)), SeekTo(from))
    {
      TargetsLand(from, pos, Len());
      var target := SeekTarget(from, pos, Len());
      if target < 0 {
        return Err(GeneralFailure);
      }
      pos := TruncateToU64(target);
      return Ok(pos);
    }

    /** One call of a script. */
    method Perform(edit: Edit, room: nat) returns (r: FsOutcome<()>)
      requires Valid() && Clean(state)
      modifies this
      ensures Valid() && state.WriteState? && (old(state.dirty) ==> state.dirty)
      ensures r.Ok? ==> Clean(state) && DraftOf(state, pos) == Edited(old(DraftOf(state, pos)), edit)
      ensures r.Ok? && !edit.SeekTo? ==> state.dirty
      ensures r.Ok? <==> Fits(old(DraftOf(state, pos)), edit, room)
    {
      match edit {
        case Write(bytes) =>
          WriteSucceedsIff(state, pos, bytes, room);
          WriteStepIfOk(state, pos, bytes, room);
          r := WriteBytes(bytes, room);
        case WriteParts(parts) =>
          WriteSucceedsIff(state, pos, Flatten(parts), room);
          WriteStepIfOk(state, pos, Flatten(parts), room);
          r := WriteBuf(parts, room);
        case SeekTo(from) =>
          var sought := Seek(from);
          r := Ok(());
      }
    }

    /** Any sequence of seeks and writes does to the staged content what it means on a plain
        byte string with a cursor, and succeeds exactly as long as everything fits. */
    method Replay(edits: seq<Edit>, room: nat) returns (r: FsOutcome<()>)
      requires Valid() && Clean(state)
      modifies this
      ensures Valid() && state.WriteState?
      ensures r.Ok? ==> Clean(state) && DraftOf(state, pos) == AllEdited(old(DraftOf(state, pos)), edits)
      ensures r.Ok? && (old(state.dirty) || !OnlySeeks(edits)) ==> state.dirty
      ensures r.Ok? <==> AllFit(old(DraftOf(state, pos)), edits, room)
    {
      ghost var start := DraftOf(state, pos);
      for i := 0 to |edits|
        invariant Valid() && Clean(state)
        invariant DraftOf(state, pos) == AllEdited(start, edits[..i])
        invariant old(state.dirty) || !OnlySeeks(edits[..i]) ==> state.dirty
        invariant AllFit(start, edits[..i], room)
      {
        OneMoreEdit(start, edits, i, room, AllEdited(start, edits[..i]));
        r := Perform(edits[i], room);
        if r.Err? {
          return;
        }
      }
      assert edits[..|edits|] == edits;
      return Ok(());
    }

    /** In read mode: the slice of the file at the position, or an error when a chunk of
        that slice is gone from the store. In write mode: the slice of the staged content,
        or an error when the staging file does not reach that far. An error leaves the
        position where it was. */
    method ReadBytes(count: nat) returns (r: FsOutcome<seq<byte>>)
      requires Valid() && inner.blobs.Valid()
      modifies this
      ensures Valid() && Len() == old(Len())
      ensures old(state.WriteState?) ==>
        && state == old(state)
        && r == ReadStaged(state, old(pos), count)
      ensures old(state.ReadState?) ==>
        && state.ReadState? && state.manifest == old(state.manifest)
        && (r.Ok? ==> r.value == Slice(Content(state.manifest), old(pos), count))
        && (r.Err? ==> r == Err(Missing) && MissingWithin(state.manifest, inner.blobs.blobs, old(pos), count))
      ensures pos == old(pos) + if r.Ok? then |r.value| else 0
    {
      var len := Len();
      if pos >= len {
        return Ok([]);
      }
      var want := Min(len - pos, count);
      if state.WriteState? {
        if want > 0 && pos + want > |state.temp| {
          return Err(GeneralFailure);
        }
        StagedSlice(state, pos, want);
        r := Ok(if want == 0 then [] else state.temp[pos..pos + want]);
        pos := pos + want;
        return;
      }
      var out := new byte[want];
      var filled := Fill(out);
      if filled.Err? {
        return Err(filled.error);
      }
      r := Ok(out[..]);
      pos := pos + want;
    }

    /** The bytes the handle reads from. */
    ghost function Readable(): seq<byte> reads this {
      if state.ReadState? then Content(state.manifest) else Staged(state)
    }

    /** Nothing in the way of reading it all: every chunk is there, or every staged byte. */
    ghost predicate AllThere() reads this, inner.blobs {
      match state
      case ReadState(m, _) => Hashes(m) <= inner.blobs.blobs.Keys
      case WriteState(temp, len, _, _) => len <= |temp|
    }

    /** Reading `n` bytes at a time until nothing comes back yields the rest of the file, from
        the position on. */
    method ReadAllBytes(n: nat) returns (r: FsOutcome<seq<byte>>)
      requires Valid() && inner.blobs.Valid() && n > 0
      modifies this
      ensures Valid() && Readable() == old(Readable())
      ensures r.Ok? ==> r.value == From(Readable(), old(pos))
      ensures old(AllThere()) ==> r.Ok?
    {
      ghost var content, start := Readable(), pos;
      var out: seq<byte> := [];
      while true
        invariant Valid() && Readable() == content
        invariant old(AllThere()) ==> AllThere()
        invariant From(content, start) == out + From(content, pos)
        decreases |content| - pos
      {
        ghost var at := pos;
        var got := ReadNext(n, content);
        if got.Err? {
          return Err(got.error);
        }
        OneMorePart(content, start, out, at, got.value, pos);
        if got.value == [] {
          return Ok(out);
        }
        out := out + got.value;
      }
    }

    /** One turn of that loop. */
    method ReadNext(n: nat, ghost content: seq<byte>) returns (r: FsOutcome<seq<byte>>)
      requires Valid() && inner.blobs.Valid() && n > 0 && content == Readable()
      modifies this
      ensures Valid() && Readable() == content && (old(AllThere()) ==> AllThere() && r.Ok?)
      ensures r.Ok? ==> pos == old(pos) + |r.value| && From(content, old(pos)) == r.value + From(content, pos)
      ensures r.Ok? ==> (r.value == [] <==> old(pos) >= |content|)
    {
      if AllThere() {
        NothingInTheWay(pos, n);
      }
      SliceComesNext(content, pos, n);
      r := ReadBytes(n);
    }

    lemma NothingInTheWay(at: nat, count: nat)
      requires Valid() && AllThere()
      ensures state.ReadState? ==> !MissingWithin(state.manifest, inner.blobs.blobs, at, count)
      ensures state.WriteState? ==> ReadStaged(state, at, count).Ok?
    {
      if state.ReadState? {
        assert forall i :: 0 <= i < |state.manifest.chunks| ==>
                             state.manifest.chunks[i].hash in Hashes(state.manifest);
      }
    }

    /** Fills `out` with the bytes at the position, chunk by chunk. */
    method Fill(out: array<byte>) returns (r: FsOutcome<()>)
      requires Valid() && state.ReadState? && inner.blobs.Valid()
      requires pos + out.Length <= state.manifest.totalSize
      modifies this`state, out
      ensures Valid() && state.ReadState? && state.manifest == old(state.manifest)
      ensures r.Ok? ==> out[..] == Content(state.manifest)[pos..pos + out.Length]
      ensures r.Err? ==> r == Err(Missing) && MissingWithin(state.manifest, inner.blobs.blobs, pos, out.Length)
    {
      ghost var m, content := state.manifest, Content(state.manifest);
      assert |content| == m.totalSize;
      var filled := 0;
      while filled < out.Length
        invariant Valid() && state.ReadState? && state.manifest == m && filled <= out.Length
        invariant out[..filled] == content[pos..pos + filled]
      {
        var at := pos + filled;
        var piece := NextPiece(at, out.Length - filled);
        if piece.Err? {
          return Err(piece.error);
        }
        CopySlice(out, filled, piece.value, content, pos);
        filled := filled + |piece.value|;
      }
      assert out[..] == out[..filled];
      return Ok(());
    }

    /** As many bytes at `at` as one chunk can give, up to `limit`. */
    method NextPiece(at: nat, limit: nat) returns (r: FsOutcome<seq<byte>>)
      requires Valid() && state.ReadState? && inner.blobs.Valid() && at < state.manifest.totalSize && limit > 0
      modifies `state
      ensures Valid() && state.ReadState? && state.manifest == old(state.manifest)
      ensures r.Ok? ==>
        && 0 < |r.value| <= limit
        && at + |r.value| <= |Content(state.manifest)|
        && r.value == Content(state.manifest)[at..at + |r.value|]
      ensures r.Err? ==> r == Err(Missing) && MissingWithin(state.manifest, inner.blobs.blobs, at, limit)
    {
      ghost var m := state.manifest;
      var found := Locate(state.manifest, at);
      if found.None? {
        return Err(GeneralFailure);
      }
      var i := found.value;
      var loaded := LoadChunk(i);
      if loaded.Err? {
        return Err(loaded.error);
      }
      var data := loaded.value;
      var within := at - state.manifest.chunks[i].offset;
      var take := Min(|data| - within, limit);
      ChunkHolds(m, i, at, limit);
      return Ok(data[within..within + take]);
    }

    /** The bytes of a chunk, from the cache when it is the chunk loaded last. */
    method LoadChunk(i: nat) returns (r: FsOutcome<seq<byte>>)
      requires Valid() && state.ReadState? && i < |state.manifest.chunks| && inner.blobs.Valid()
      modifies `state
      ensures Valid() && state.ReadState? && state.manifest == old(state.manifest)
      ensures r.Ok? ==> r.value == state.manifest.chunks[i].hash.preimage && state.cache == Some((i, r.value))
      ensures r.Err? ==> r == Err(Missing) && state.manifest.chunks[i].hash !in inner.blobs.blobs
    {
      if state.cache.Some? && state.cache.value.0 == i {
        return Ok(state.cache.value.1);
      }
      var got := inner.blobs.Get(state.manifest.chunks[i].hash);
      if got.Err? {
        return Err(Missing);
      }
      state := state.(cache := Some((i, got.value)));
      return Ok(got.value);
    }

    /** Commits the staged content, if there are changes, as the node's content. */
    method Flush() returns (r: FsOutcome<()>)
      requires Valid() && inner.Valid()
      modifies this, inner.meta, inner.blobs, inner.index
      ensures Valid() && inner.Valid() && pos == old(pos)
      ensures !old(state.WriteState? && state.dirty) ==>
        r == Ok(()) && state == old(state) && inner.Snapshot() == old(inner.Snapshot())
      ensures old(state.WriteState? && state.dirty) ==>
        && (inner.Snapshot(), r) == FsModel.Flush(old(inner.Snapshot()), node, old(PiecesFor(Staged(state))))
        && Flatten(old(PiecesFor(Staged(state)))) == old(Staged(state))
        && state == old(state).(temp := old(Staged(state)), dirty := r.Err?)
    {
      if state.ReadState? || !state.dirty {
        return Ok(());
      }
      state := state.(temp := SetLen(state.temp, state.len));
      r := Commit(state.temp);
      if r.Ok? {
        state := state.(dirty := false);
      }
    }

    /** Stores `data` and makes it the node's content, under the shared guard, then updates
        the index. */
    method Commit(data: seq<byte>) returns (r: FsOutcome<()>)
      requires inner.Valid() && |data| < U64_LIMIT
      modifies inner.meta, inner.blobs, inner.index
      ensures inner.Valid()
      ensures (inner.Snapshot(), r) == FsModel.Flush(old(inner.Snapshot()), node, old(PiecesFor(data)))
    {
      if node !in inner.meta.nodes {
        return Err(Missing);
      }
      var pieces := inner.chunkerFor(inner.meta.nodes[node].name, data);
      FlushKeeps(inner.Snapshot(), node, pieces);
      StoringKeepsTables(inner.Snapshot(), node, pieces);
      var manifest := inner.blobs.StoreFile(pieces);
      var committed := inner.meta.SetFileContent(node, manifest);
      if committed.Err? {
        return FromMeta(committed);
      }
      inner.Reindex(node);
      return Ok(());
    }

    /** How the chunker splits `data` for this handle's node. */
    ghost function PiecesFor(data: seq<byte>): seq<seq<byte>>
      reads inner.meta
    {
      inner.chunkerFor(if node in inner.meta.nodes then inner.meta.nodes[node].name else [], data)
    }
  }

  lemma StoringKeepsTables(f: Fs, id: nat, pieces: seq<seq<byte>>)
    requires StoresOk(f) && Chunked(pieces)
    ensures TablesOk(SetContent(f.tables, id, ManifestOf(pieces)).0)
  {
    ManifestOfIsStored(pieces);
    SetContentKeepsOk(f.tables, id, ManifestOf(pieces));
  }

  /** Reading at a position, up to `count` bytes. */
  function Slice(content: seq<byte>, pos: nat, count: nat): seq<byte> {
    if pos >= |content| then [] else content[pos..Min(|content|, pos + count)]
  }

  /** What a read returns is what comes next, as much of it as asked for. */
  lemma SliceComesNext(content: seq<byte>, pos: nat, count: nat)
    ensures var next := Slice(content, pos, count);
      && From(content, pos) == next + From(content, pos + |next|)
      && |next| == Min(count, |From(content, pos)|)
      && (next == [] <==> count == 0 || pos >= |content|)
  {
  }

  lemma OneMorePart(content: seq<byte>, start: nat, out: seq<byte>, at: nat, part: seq<byte>, next: nat)
    requires From(content, start) == out + From(content, at)
    requires From(content, at) == part + From(content, next) && next == at + |part|
    requires part == [] <==> at >= |content|
    ensures From(content, start) == (out + part) + From(content, next)
    ensures part == [] ==> From(content, start) == out
    ensures part != [] ==> at < next && at < |content|
  {
    assert out + (part + From(content, next)) == (out + part) + From(content, next);
  }

  /** Writing nothing at offset 1 of an empty file leaves one zero byte staged, which a flush
      would commit but the handle cannot read back. */
  lemma PaddingIsNotReadable()
    ensures var (s, _, r) := WriteStep(NEW_STAGING, 1, [], 100);
      && r == Ok(()) && s.WriteState? && Staged(s) == [0]
      && ReadStaged(s, 0, 1) == Err(GeneralFailure)
  {
    var s := WriteStep(NEW_STAGING, 1, [], 100).0;
    assert s.temp == [] && s.len == 1;
    assert Zeros(1) == [0];
  }

  lemma StagedSlice(s: State, pos: nat, want: nat)
    requires s.WriteState? && pos + want <= s.len && (want > 0 ==> pos + want <= |s.temp|)
    ensures Staged(s)[pos..pos + want] == if want == 0 then [] else s.temp[pos..pos + want]
  {
    forall k | pos <= k < pos + want ensures Staged(s)[k] == s.temp[k] {
    }
  }

  function ReadStaged(s: State, pos: nat, count: nat): FsOutcome<seq<byte>>
    requires s.WriteState?
  {
    var end := Min(s.len, pos + count);
    if pos < end && end > |s.temp| then Err(GeneralFailure) else Ok(Slice(Staged(s), pos, count))
  }

  /** A chunk holding some of the bytes asked for is not in the store. */
  ghost predicate MissingWithin(m: Manifest, blobs: map<Hash, seq<byte>>, pos: nat, count: nat) {
    exists i :: 0 <= i < |m.chunks| && m.chunks[i].hash !in blobs
      && m.chunks[i].offset < pos + count && pos < m.chunks[i].offset + m.chunks[i].length
  }

  lemma ChunkHolds(m: Manifest, i: nat, at: nat, limit: nat)
    requires Stored(m) && i < |m.chunks| && Covers(m.chunks[i], at) && limit > 0
    ensures var data, within := m.chunks[i].hash.preimage, at - m.chunks[i].offset;
      && within < |data|
      && var take := Min(|data| - within, limit);
         at + take <= |Content(m)| && Content(m)[at..at + take] == data[within..within + take]
  {
    ChunkTiling(m, i);
    var c, within := m.chunks[i], at - m.chunks[i].offset;
    SliceOfSlice(Content(m), c.offset, c.hash.preimage, within, within + Min(c.length - within, limit));
  }

  /** Copies `bytes` into `out` at `at`. If `out` held what `whole` holds from `lo` on, and
      `bytes` comes next in it, `out` holds that much more. */
  method CopySlice(out: array<byte>, at: nat, bytes: seq<byte>, ghost whole: seq<byte>, ghost lo: nat)
    requires at + |bytes| <= out.Length && lo + at + |bytes| <= |whole|
    requires out[..at] == whole[lo..lo + at] && bytes == whole[lo + at..lo + at + |bytes|]
    modifies out
    ensures out[..at + |bytes|] == whole[lo..lo + at + |bytes|]
  {
    ghost var before := out[..at];
    forall k | 0 <= k < |bytes| {
      out[at + k] := bytes[k];
    }
    assert out[..at + |bytes|] == before + bytes;
  }

  lemma WriteStepIfOk(s: State, pos: nat, bytes: seq<byte>, room: nat)
    requires Clean(s)
    ensures var (t, q, r) := WriteStep(s, pos, bytes, room);
      && t.WriteState?
      && (s.dirty ==> t.dirty)
      && (r.Ok? ==> Clean(t) && t.append == s.append && t.dirty && DraftOf(t, q) == Put(DraftOf(s, pos), bytes))
  {
    if WriteStep(s, pos, bytes, room).2.Ok? {
      WriteStepEdits(s, pos, bytes, room);
    }
  }

  /** The draining loop of `WriteBuf`: writes segment after segment until the disk refuses,
      and reports how many bytes it took. */
  method WriteSegments(file: seq<byte>, start: nat, segments: seq<seq<byte>>, room: nat)
    returns (temp: seq<byte>, taken: nat, whole: bool)
    requires start <= MAX_FILE
    ensures taken == Accepted(start, |Flatten(segments)|, room)
    ensures whole <==> taken == |Flatten(segments)|
    ensures temp == FileWrite(file, start, Flatten(segments)[..taken])
  {
    temp, taken, whole := file, 0, true;
    ghost var all := Flatten(segments);
    for i := 0 to |segments|
      invariant taken == |Flatten(segments[..i])|
      invariant WrittenUpTo(file, start, all, room, taken, temp)
    {
      SegmentFits(segments, i);
      temp, taken, whole := WriteSegment(file, start, all, segments[i], room, taken, temp);
      if !whole {
        return;
      }
    }
    assert segments[..|segments|] == segments;
  }

  /** The first `taken` bytes of `all` have been written. */
  ghost predicate WrittenUpTo(file: seq<byte>, start: nat, all: seq<byte>, room: nat, taken: nat, temp: seq<byte>)
    requires start <= MAX_FILE
  {
    taken <= Accepted(start, |all|, room) && temp == FileWrite(file, start, all[..taken])
  }

  /** One turn of that loop, for the piece that comes next in `all`. */
  method WriteSegment(ghost file: seq<byte>, start: nat, ghost all: seq<byte>, piece: seq<byte>, room: nat, taken: nat,
                      temp: seq<byte>)
    returns (after: seq<byte>, took: nat, whole: bool)
    requires start <= MAX_FILE && WrittenUpTo(file, start, all, room, taken, temp)
    requires taken + |piece| <= |all| && all[taken..taken + |piece|] == piece
    ensures WrittenUpTo(file, start, all, room, took, after)
    ensures if whole then took == taken + |piece| else took == Accepted(start, |all|, room) < |all|
  {
    var k := Accepted(start + taken, |piece|, room - taken);
    AcceptedStep(start, |all|, room, taken, |piece|);
    PieceWritten(file, start, all, taken, piece, k);
    after := FileWrite(temp, start + taken, piece[..k]);
    took := taken + k;
    whole := k == |piece|;
  }

  /** Segment `i` comes right after the ones before it. */
  lemma SegmentFits(segments: seq<seq<byte>>, i: nat)
    requires i < |segments|
    ensures var all, taken := Flatten(segments), |Flatten(segments[..i])|;
      && taken + |segments[i]| == |Flatten(segments[..i + 1])| <= |all|
      && all[taken..taken + |segments[i]|] == segments[i]
  {
    FlattenAt(segments, i);
  }

  lemma AcceptedStep(start: nat, n: nat, room: nat, taken: nat, more: nat)
    requires start <= MAX_FILE && taken <= Accepted(start, n, room) && taken + more <= n
    ensures var k := Accepted(start + taken, more, room - taken);
      && taken + k <= Accepted(start, n, room)
      && (k < more ==> taken + k == Accepted(start, n, room) < n)
  {
  }

  /** Extending what was written of `all` by `k` bytes of the piece that comes next in it. */
  lemma PieceWritten(file: seq<byte>, start: nat, all: seq<byte>, taken: nat, piece: seq<byte>, k: nat)
    requires k <= |piece| && taken + |piece| <= |all| && all[taken..taken + |piece|] == piece
    ensures FileWrite(FileWrite(file, start, all[..taken]), start + taken, piece[..k]) ==
            FileWrite(file, start, all[..taken + k])
  {
    assert all[..taken + k] == all[..taken] + piece[..k];
    FileWriteConcat(file, start, all[..taken], piece[..k]);
  }
}
