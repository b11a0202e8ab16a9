// The garbage-collection protocol (vfs crate, davfs.rs and file.rs): any number of
// concurrent clients flush, copy, revert, prune, delete and collect, in any interleaving,
// over three shared things: the blobs, the metadata tables and the reader/writer lock.
module GcProtocol {
  import opened Base
  import opened Manifests
  import opened BlobStores
  import opened MetaTables
  import opened VersionHistory
  import opened Sweeps
  import opened References

  type Client = nat

  /** Where a client is in its current operation. */
  datatype Phase =
    | Idle
    | Storing(node: nat, pieces: seq<seq<byte>>, next: nat)
    | Persisting(node: nat, pieces: seq<seq<byte>>, next: nat)
    | Loading(target: nat)
    | Holding(target: nat, manifest: Manifest)
    | Finished
    | Marking
    | Listing(live: set<Hash>)
    // `found` is what was on disk when the directory was scanned.
    | Sweeping(live: set<Hash>, found: set<Hash>, queue: seq<Hash>, skipped: set<Hash>, stats: GcStats)

  predicate HoldsShared(p: Phase) {
    p.Storing? || p.Persisting? || p.Loading? || p.Holding? || p.Finished?
  }

  predicate HoldsExclusive(p: Phase) {
    p.Marking? || p.Listing? || p.Sweeping?
  }

  datatype RwLock = RwLock(readers: set<Client>, writer: Option<Client>)

  datatype System = System(blobs: map<Hash, seq<byte>>, tables: Tables, gcLock: RwLock, phases: map<Client, Phase>)

  function PhaseOf(s: System, c: Client): Phase {
    if c in s.phases then s.phases[c] else Idle
  }

  const FRESH_SYSTEM := System(map[], FRESH_TABLES, RwLock({}, None), map[])

  datatype Step =
    // Prune, delete, create, rename: no guard, at any moment.
    | Unguarded(op: MetaOp)
    // Flush: take the guard, store chunk by chunk, commit.
    | BeginFlush(c: Client, node: nat, pieces: seq<seq<byte>>)
    | CheckChunk(c: Client)
    | PersistChunk(c: Client)
    | CommitFlush(c: Client)
    // Copy and revert: take the guard, load a manifest, commit.
    | BeginReference(c: Client, target: nat)
    | LoadCurrent(c: Client, source: nat)
    | LoadVersion(c: Client, version: nat)
    | CommitReference(c: Client)
    // A write that fails part-way, and the release of the shared guard.
    | GiveUp(c: Client)
    | Release(c: Client)
    // Collection: take the exclusive guard, mark, list, sweep blob by blob, release.
    | BeginGc(c: Client)
    | Mark(c: Client)
    | List(c: Client, listed: seq<Hash>)
    | Sweep(c: Client, fails: bool)
    | EndGc(c: Client)

  ghost predicate Enabled(s: System, step: Step) {
    match step
    case Unguarded(op) => !op.WriteOp?
    case BeginFlush(c, _, pieces) => PhaseOf(s, c).Idle? && s.gcLock.writer.None? && Chunked(pieces)
    case CheckChunk(c) => PhaseOf(s, c).Storing? && PhaseOf(s, c).next < |PhaseOf(s, c).pieces|
    case PersistChunk(c) => PhaseOf(s, c).Persisting? && PhaseOf(s, c).next < |PhaseOf(s, c).pieces|
    case CommitFlush(c) => PhaseOf(s, c).Storing? && PhaseOf(s, c).next == |PhaseOf(s, c).pieces|
    case BeginReference(c, _) => PhaseOf(s, c).Idle? && s.gcLock.writer.None?
    case LoadCurrent(c, source) => PhaseOf(s, c).Loading? && CurrentManifest(s.tables, source).Ok?
    case LoadVersion(c, _) => PhaseOf(s, c).Loading?
    case CommitReference(c) => PhaseOf(s, c).Holding?
    case GiveUp(c) => HoldsShared(PhaseOf(s, c))
    case Release(c) => PhaseOf(s, c).Finished?
    case BeginGc(c) => PhaseOf(s, c).Idle? && s.gcLock == RwLock({}, None)
    case Mark(c) => PhaseOf(s, c).Marking?
    case List(c, listed) =>
      && PhaseOf(s, c).Listing?
      && (forall h :: h in listed ==> h in s.blobs)
      && (forall i, j :: 0 <= i < j < |listed| ==> listed[i] != listed[j])
    case Sweep(c, _) => PhaseOf(s, c).Sweeping? && PhaseOf(s, c).queue != []
    case EndGc(c) => PhaseOf(s, c).Sweeping? && PhaseOf(s, c).queue == []
  }

  ghost function Goto(s: System, c: Client, p: Phase): System {
    s.(phases := s.phases[c := p])
  }

  ghost function Next(s: System, step: Step): System
    requires Enabled(s, step)
  {
    match step
    case Unguarded(op) => s.(tables := Apply(s.tables, op))
    case BeginFlush(c, node, pieces) =>
      Goto(s, c, Storing(node, pieces, 0)).(gcLock := s.gcLock.(readers := s.gcLock.readers + {c}))
    case CheckChunk(c) =>
      var Storing(node, pieces, next) := PhaseOf(s, c);
      Goto(s, c, if HashOf(pieces[next]) in s.blobs then Storing(node, pieces, next + 1)
                 else Persisting(node, pieces, next))
    case PersistChunk(c) =>
      var Persisting(node, pieces, next) := PhaseOf(s, c);
      Goto(s, c, Storing(node, pieces, next + 1)).(blobs := PutBlob(s.blobs, pieces[next]))
    case CommitFlush(c) =>
      Goto(s, c, Finished).(tables := SetContent(s.tables, PhaseOf(s, c).node, ManifestOf(PhaseOf(s, c).pieces)).0)
    case BeginReference(c, target) =>
      Goto(s, c, Loading(target)).(gcLock := s.gcLock.(readers := s.gcLock.readers + {c}))
    case LoadCurrent(c, source) =>
      Goto(s, c, Holding(PhaseOf(s, c).target, CurrentManifest(s.tables, source).value))
    case LoadVersion(c, version) =>
      Goto(s, c, Holding(PhaseOf(s, c).target, ManifestAt(s.tables, version)))
    case CommitReference(c) =>
      Goto(s, c, Finished).(tables := SetContent(s.tables, PhaseOf(s, c).target, PhaseOf(s, c).manifest).0)
    case GiveUp(c) => Goto(s, c, Finished)
    case Release(c) => Goto(s, c, Idle).(gcLock := s.gcLock.(readers := s.gcLock.readers - {c}))
    case BeginGc(c) => Goto(s, c, Marking).(gcLock := RwLock({}, Some(c)))
    case Mark(c) => Goto(s, c, Listing(Referenced(s.tables)))
    case List(c, listed) =>
      Goto(s, c, Sweeping(PhaseOf(s, c).live, s.blobs.Keys, listed, (set h | h in s.blobs && h !in listed), NO_STATS))
    case Sweep(c, fails) =>
      var Sweeping(live, found, queue, skipped, stats) := PhaseOf(s, c);
      var (blobs, after) := SweepOne(s.blobs, live, queue[0], fails, stats);
      var missed := if fails && queue[0] !in live then {queue[0]} else {};
      Goto(s, c, Sweeping(live, found, queue[1..], skipped + missed, after)).(blobs := blobs)
    case EndGc(c) => Goto(s, c, Idle).(gcLock := RwLock({}, None))
  }

  // ---- The invariant ----

  ghost predicate LockOk(s: System) {
    && (s.gcLock.writer.Some? ==> s.gcLock.readers == {})
    && (forall c: Client :: c in s.gcLock.readers <==> HoldsShared(PhaseOf(s, c)))
    && (forall c: Client :: s.gcLock.writer == Some(c) <==> HoldsExclusive(PhaseOf(s, c)))
  }

  ghost predicate StoredSoFar(blobs: map<Hash, seq<byte>>, pieces: seq<seq<byte>>, next: nat) {
    Chunked(pieces) && next <= |pieces| && forall i :: 0 <= i < next ==> HashOf(pieces[i]) in blobs
  }

  /** What is still to be swept is on disk, each blob once. */
  ghost predicate QueueOk(blobs: map<Hash, seq<byte>>, queue: seq<Hash>) {
    && (forall h :: h in queue ==> h in blobs)
    && (forall i, j :: 0 <= i < j < |queue| ==> queue[i] != queue[j])
  }

  /** Each blob seen is counted once, and the removed ones are those gone since the scan. */
  ghost predicate Accounted(blobs: map<Hash, seq<byte>>, found: set<Hash>, stats: GcStats) {
    && blobs.Keys <= found
    && stats.scanned == stats.kept + stats.removed + stats.failed
    && stats.removed == |found - blobs.Keys|
    && stats.reclaimed == SetBytes(found - blobs.Keys)
  }

  /** What a phase has already established about the shared state. */
  ghost predicate PhaseOk(blobs: map<Hash, seq<byte>>, tables: Tables, p: Phase) {
    match p
    case Idle => true
    // The chunks stored so far are all there.
    case Storing(_, pieces, next) => StoredSoFar(blobs, pieces, next)
    case Persisting(_, pieces, next) => StoredSoFar(blobs, pieces, next) && next < |pieces|
    case Loading(_) => true
    // The loaded chunks are there even if no version refers to them any more.
    case Holding(_, m) => Stored(m) && Hashes(m) <= blobs.Keys
    case Finished => true
    case Marking => true
    // The mark is stale, but still covers every reference and only marks what exists.
    case Listing(live) => Referenced(tables) <= live <= blobs.Keys
    case Sweeping(live, found, queue, skipped, stats) =>
      && Referenced(tables) <= live <= blobs.Keys
      && blobs.Keys <= live + (set h | h in queue) + skipped
      && QueueOk(blobs, queue)
      && Accounted(blobs, found, stats)
  }

  ghost predicate Inv(s: System) {
    && BlobsSound(s.blobs)
    && TablesOk(s.tables)
    && NothingDangles(s.blobs, s.tables)
    && LockOk(s)
    && forall c :: c in s.phases ==> PhaseOk(s.blobs, s.tables, s.phases[c])
  }

  // ---- Every step keeps the invariant ----

  /** What an exclusive holder relies on survives steps that only drop references; what a
      shared holder relies on survives steps that only add blobs. */
  lemma OthersStayOk(s: System, blobs: map<Hash, seq<byte>>, tables: Tables, c: Client)
    requires Inv(s) && c in s.phases
    requires HoldsShared(s.phases[c]) ==> s.blobs.Keys <= blobs.Keys
    requires HoldsExclusive(s.phases[c]) ==> blobs.Keys == s.blobs.Keys && Referenced(tables) <= Referenced(s.tables)
    ensures PhaseOk(blobs, tables, s.phases[c])
  {
    assert PhaseOk(s.blobs, s.tables, s.phases[c]);
  }

  lemma UnguardedKeepsInv(s: System, op: MetaOp)
    requires Inv(s) && !op.WriteOp?
    ensures Inv(Next(s, Unguarded(op)))
  {
    var t := Apply(s.tables, op);
    ApplyKeepsOk(s.tables, op);
    UnguardedAddsNoReference(s.tables, op);
    forall c | c in s.phases ensures PhaseOk(s.blobs, t, s.phases[c]) {
      OthersStayOk(s, s.blobs, t, c);
    }
    assert LockOk(Next(s, Unguarded(op)));
  }

  lemma NoCollectorBesideWriter(s: System, c: Client)
    requires LockOk(s) && HoldsShared(PhaseOf(s, c))
    ensures s.gcLock.writer == None && forall d :: !HoldsExclusive(PhaseOf(s, d))
  {
    assert c in s.gcLock.readers;
  }

  lemma NoWriterBesideCollector(s: System, c: Client)
    requires LockOk(s) && HoldsExclusive(PhaseOf(s, c))
    ensures forall d :: !HoldsShared(PhaseOf(s, d))
    ensures forall d :: HoldsExclusive(PhaseOf(s, d)) ==> d == c
  {
    assert s.gcLock.writer == Some(c);
  }

  /** A client's own phase change keeps the lock discipline when it keeps hold of whatever
      it holds. */
  lemma SameHoldKeepsLock(s: System, c: Client, p: Phase, r: System)
    requires LockOk(s) && r.gcLock == s.gcLock && r.phases == s.phases[c := p]
    requires HoldsShared(p) == HoldsShared(PhaseOf(s, c)) && HoldsExclusive(p) == HoldsExclusive(PhaseOf(s, c))
    ensures LockOk(r)
  {
    forall d ensures PhaseOf(r, d) == if d == c then p else PhaseOf(s, d) {
    }
  }

  lemma AcquireSharedKeepsInv(s: System, c: Client, p: Phase)
    requires Inv(s) && PhaseOf(s, c).Idle? && s.gcLock.writer.None?
    requires HoldsShared(p) && PhaseOk(s.blobs, s.tables, p)
    ensures Inv(Goto(s, c, p).(gcLock := s.gcLock.(readers := s.gcLock.readers + {c})))
  {
    var r := Goto(s, c, p).(gcLock := s.gcLock.(readers := s.gcLock.readers + {c}));
    forall d ensures PhaseOf(r, d) == if d == c then p else PhaseOf(s, d) {
    }
    assert LockOk(r);
    forall d | d in r.phases ensures PhaseOk(r.blobs, r.tables, r.phases[d]) {
      assert d != c ==> PhaseOk(s.blobs, s.tables, s.phases[d]);
    }
  }

  lemma AcquireExclusiveKeepsInv(s: System, c: Client)
    requires Inv(s) && Enabled(s, BeginGc(c))
    ensures Inv(Next(s, BeginGc(c)))
  {
    var r := Next(s, BeginGc(c));
    forall d ensures PhaseOf(r, d) == if d == c then Marking else PhaseOf(s, d) {
    }
    assert LockOk(r);
    forall d | d in r.phases ensures PhaseOk(r.blobs, r.tables, r.phases[d]) {
      assert d != c ==> PhaseOk(s.blobs, s.tables, s.phases[d]);
    }
  }

  lemma AcquireKeepsInv(s: System, step: Step)
    requires Inv(s) && Enabled(s, step) && (step.BeginFlush? || step.BeginReference? || step.BeginGc?)
    ensures Inv(Next(s, step))
  {
    match step
    case BeginFlush(c, node, pieces) => AcquireSharedKeepsInv(s, c, Storing(node, pieces, 0));
    case BeginReference(c, target) => AcquireSharedKeepsInv(s, c, Loading(target));
    case BeginGc(c) => AcquireExclusiveKeepsInv(s, c);
  }

  /** Going idle with the lock as it is without the client. */
  lemma LeaveKeepsInv(s: System, c: Client, lock: RwLock)
    requires Inv(s) && LockOk(Goto(s, c, Idle).(gcLock := lock))
    ensures Inv(Goto(s, c, Idle).(gcLock := lock))
  {
    var r := Goto(s, c, Idle).(gcLock := lock);
    forall d | d in r.phases ensures PhaseOk(r.blobs, r.tables, r.phases[d]) {
      assert d != c ==> PhaseOk(s.blobs, s.tables, s.phases[d]);
    }
  }

  lemma ReleaseKeepsInv(s: System, step: Step)
    requires Inv(s) && Enabled(s, step) && (step.Release? || step.EndGc?)
    ensures Inv(Next(s, step))
  {
    var r := Next(s, step);
    assert LockOk(r) by {
      ReleaseKeepsLock(s, step);
    }
    LeaveKeepsInv(s, step.c, r.gcLock);
  }

  lemma ReleaseKeepsLock(s: System, step: Step)
    requires LockOk(s) && Enabled(s, step) && (step.Release? || step.EndGc?)
    ensures LockOk(Next(s, step))
  {
    var r := Next(s, step);
    forall d ensures PhaseOf(r, d) == if d == step.c then Idle else PhaseOf(s, d) {
    }
    if step.EndGc? {
      NoWriterBesideCollector(s, step.c);
    }
  }

  /** A shared holder adds blobs, or commits a manifest whose blobs are all present. */
  lemma SharedStepKeepsInv(s: System, c: Client, p: Phase, blobs: map<Hash, seq<byte>>, tables: Tables)
    requires Inv(s) && HoldsShared(PhaseOf(s, c)) && HoldsShared(p)
    requires BlobsSound(blobs) && s.blobs.Keys <= blobs.Keys
    requires TablesOk(tables) && NothingDangles(blobs, tables)
    requires PhaseOk(blobs, tables, p)
    ensures Inv(System(blobs, tables, s.gcLock, s.phases[c := p]))
  {
    var r := System(blobs, tables, s.gcLock, s.phases[c := p]);
    NoCollectorBesideWriter(s, c);
    SameHoldKeepsLock(s, c, p, r);
    forall d | d in r.phases ensures PhaseOk(blobs, tables, r.phases[d]) {
      if d != c {
        assert s.phases[d] == PhaseOf(s, d);
        OthersStayOk(s, blobs, tables, d);
      }
    }
  }

  lemma StoreKeepsInv(s: System, step: Step)
    requires Inv(s) && Enabled(s, step) && (step.CheckChunk? || step.PersistChunk? || step.GiveUp?)
    ensures Inv(Next(s, step))
  {
    var c := step.c;
    assert PhaseOk(s.blobs, s.tables, s.phases[c]);
    var r := Next(s, step);
    SharedStepKeepsInv(s, c, r.phases[c], r.blobs, r.tables);
    assert r == System(r.blobs, r.tables, s.gcLock, s.phases[c := r.phases[c]]);
  }

  lemma LoadKeepsInv(s: System, step: Step)
    requires Inv(s) && Enabled(s, step) && (step.LoadCurrent? || step.LoadVersion?)
    ensures Inv(Next(s, step))
  {
    var c := step.c;
    var t := s.tables;
    var r := Next(s, step);
    EmptyIsStored();
    var v := if step.LoadVersion? then step.version
             else if t.nodes[step.source].current.Some? then t.nodes[step.source].current.value
             else NextId(t.versions.Keys);
    assert r.phases[c].manifest == ManifestAt(t, v);
    LoadedManifestIsStored(t, v);
    ManifestHashesAreReferenced(t, v);
    SharedStepKeepsInv(s, c, r.phases[c], s.blobs, t);
    assert r == System(s.blobs, t, s.gcLock, s.phases[c := r.phases[c]]);
  }

  lemma CommitKeepsInv(s: System, c: Client, id: nat, m: Manifest)
    requires Inv(s) && HoldsShared(PhaseOf(s, c)) && Stored(m) && Hashes(m) <= s.blobs.Keys
    ensures Inv(Goto(s, c, Finished).(tables := SetContent(s.tables, id, m).0))
  {
    var t := SetContent(s.tables, id, m).0;
    ApplyKeepsOk(s.tables, WriteOp(id, m));
    WriteAddsItsHashes(s.tables, id, m);
    SharedStepKeepsInv(s, c, Finished, s.blobs, t);
    assert Goto(s, c, Finished).(tables := t) == System(s.blobs, t, s.gcLock, s.phases[c := Finished]);
  }

  lemma CommitStepKeepsInv(s: System, step: Step)
    requires Inv(s) && Enabled(s, step) && (step.CommitFlush? || step.CommitReference?)
    ensures Inv(Next(s, step))
  {
    var c := step.c;
    var p := s.phases[c];
    assert PhaseOk(s.blobs, s.tables, p);
    if step.CommitFlush? {
      ManifestOfIsStored(p.pieces);
      assert Hashes(ManifestOf(p.pieces)) <= s.blobs.Keys;
      CommitKeepsInv(s, c, p.node, ManifestOf(p.pieces));
    } else {
      CommitKeepsInv(s, c, p.target, p.manifest);
    }
  }

  /** The exclusive holder may drop any blob that is not referenced. */
  lemma ExclusiveStepKeepsInv(s: System, c: Client, p: Phase, blobs: map<Hash, seq<byte>>)
    requires Inv(s) && HoldsExclusive(PhaseOf(s, c)) && HoldsExclusive(p)
    requires BlobsSound(blobs) && NothingDangles(blobs, s.tables) && PhaseOk(blobs, s.tables, p)
    ensures Inv(System(blobs, s.tables, s.gcLock, s.phases[c := p]))
  {
    var r := System(blobs, s.tables, s.gcLock, s.phases[c := p]);
    NoWriterBesideCollector(s, c);
    SameHoldKeepsLock(s, c, p, r);
    forall d | d in r.phases ensures PhaseOk(blobs, s.tables, r.phases[d]) {
      if d != c {
        assert s.phases[d] == PhaseOf(s, d);
        assert s.phases[d].Idle?;
      }
    }
  }

  lemma CollectKeepsInv(s: System, step: Step)
    requires Inv(s) && Enabled(s, step) && (step.Mark? || step.List? || step.Sweep?)
    ensures Inv(Next(s, step))
  {
    var c := step.c;
    var p := s.phases[c];
    assert PhaseOk(s.blobs, s.tables, p);
    var r := Next(s, step);
    if step.Sweep? {
      SweepKeepsPhaseOk(s.blobs, s.tables, p, step.fails, r.phases[c], r.blobs);
    }
    ExclusiveStepKeepsInv(s, c, r.phases[c], r.blobs);
    assert r == System(r.blobs, s.tables, s.gcLock, s.phases[c := r.phases[c]]);
  }

  lemma SweepKeepsPhaseOk(blobs: map<Hash, seq<byte>>, tables: Tables, p: Phase, fails: bool,
                          q: Phase, after: map<Hash, seq<byte>>)
    requires p.Sweeping? && p.queue != [] && PhaseOk(blobs, tables, p) && BlobsSound(blobs)
    requires var h := p.queue[0];
      && q.Sweeping?
      && (after, q.stats) == SweepOne(blobs, p.live, h, fails, p.stats)
      && q == Sweeping(p.live, p.found, p.queue[1..], p.skipped + (if fails && h !in p.live then {h} else {}), q.stats)
    ensures PhaseOk(after, tables, q) && BlobsSound(after) && NothingDangles(after, tables)
  {
    var h := p.queue[0];
    SweepQueue(blobs, p.queue, after);
    assert Accounted(after, q.found, q.stats) by {
      SweepAccounted(blobs, p.live, p.found, h, fails, p.stats);
    }
    assert after.Keys <= p.live + (set g | g in q.queue) + q.skipped by {
      assert forall g :: g in p.queue ==> g == h || g in q.queue;
    }
  }

  lemma SweepQueue(blobs: map<Hash, seq<byte>>, queue: seq<Hash>, after: map<Hash, seq<byte>>)
    requires queue != [] && QueueOk(blobs, queue) && blobs.Keys - {queue[0]} <= after.Keys
    ensures QueueOk(after, queue[1..])
  {
    assert queue[0] !in queue[1..];
  }

  lemma SweepAccounted(blobs: map<Hash, seq<byte>>, live: set<Hash>, found: set<Hash>, h: Hash, fails: bool,
                       stats: GcStats)
    requires BlobsSound(blobs) && Accounted(blobs, found, stats) && h in blobs
    ensures var (after, counted) := SweepOne(blobs, live, h, fails, stats);
      Accounted(after, found, counted)
  {
    if h !in live && !fails {
      RemovalAccounted(blobs, found, h, stats);
    }
  }

  lemma RemovalAccounted(blobs: map<Hash, seq<byte>>, found: set<Hash>, h: Hash, stats: GcStats)
    requires BlobsSound(blobs) && Accounted(blobs, found, stats) && h in blobs
    ensures Accounted(blobs - {h}, found, stats.(scanned := stats.scanned + 1, removed := stats.removed + 1,
                                                 reclaimed := stats.reclaimed + |blobs[h]|))
  {
    var gone := found - blobs.Keys;
    assert found - (blobs - {h}).Keys == gone + {h};
    SetBytesAdd(gone, h);
    assert blobs[h] == h.preimage;
  }

  lemma StepKeepsInv(s: System, step: Step)
    requires Inv(s) && Enabled(s, step)
    ensures Inv(Next(s, step))
  {
    match step
    case Unguarded(op) => UnguardedKeepsInv(s, op);
    case BeginFlush(_, _, _) => AcquireKeepsInv(s, step);
    case BeginReference(_, _) => AcquireKeepsInv(s, step);
    case BeginGc(_) => AcquireKeepsInv(s, step);
    case CheckChunk(_) => StoreKeepsInv(s, step);
    case PersistChunk(_) => StoreKeepsInv(s, step);
    case GiveUp(_) => StoreKeepsInv(s, step);
    case LoadCurrent(_, _) => LoadKeepsInv(s, step);
    case LoadVersion(_, _) => LoadKeepsInv(s, step);
    case CommitFlush(_) => CommitStepKeepsInv(s, step);
    case CommitReference(_) => CommitStepKeepsInv(s, step);
    case Release(_) => ReleaseKeepsInv(s, step);
    case EndGc(_) => ReleaseKeepsInv(s, step);
    case Mark(_) => CollectKeepsInv(s, step);
    case List(_, _) => CollectKeepsInv(s, step);
    case Sweep(_, _) => CollectKeepsInv(s, step);
  }

  // ---- Whole runs ----

  /** The metadata statement a step executes, if any. */
  ghost function StatementOf(s: System, step: Step): seq<MetaOp>
    requires Enabled(s, step)
  {
    match step
    case Unguarded(op) => [op]
    case CommitFlush(c) => [WriteOp(PhaseOf(s, c).node, ManifestOf(PhaseOf(s, c).pieces))]
    case CommitReference(c) => [WriteOp(PhaseOf(s, c).target, PhaseOf(s, c).manifest)]
    case _ => []
  }

  /** The steps of `run` can be taken one after another from `from`, execute the metadata
      statements `ops`, and end in `s`. */
  ghost predicate Leads(from: System, run: seq<Step>, ops: seq<MetaOp>, s: System)
    decreases |run|
  {
    if run == [] then s == from && ops == []
    else
      exists before, earlier ::
        && Leads(from, Init(run), earlier, before)
        && Enabled(before, Last(run))
        && s == Next(before, Last(run))
        && ops == earlier + StatementOf(before, Last(run))
  }

  ghost predicate Reachable(s: System) {
    exists run, ops :: Leads(FRESH_SYSTEM, run, ops, s)
  }

  lemma FreshIsOk()
    ensures TablesOk(FRESH_TABLES) && Inv(FRESH_SYSTEM)
  {
  }

  lemma {:induction false} RunKeepsInv(from: System, run: seq<Step>, ops: seq<MetaOp>, s: System)
    requires Inv(from) && Leads(from, run, ops, s)
    ensures Inv(s)
    decreases |run|
  {
    if run != [] {
      var before, earlier :| Leads(from, Init(run), earlier, before) && Enabled(before, Last(run))
                             && s == Next(before, Last(run)) && ops == earlier + StatementOf(before, Last(run));
      RunKeepsInv(from, Init(run), earlier, before);
      StepKeepsInv(before, Last(run));
    }
  }

  lemma ReachableKeepsInv(s: System)
    requires Reachable(s)
    ensures Inv(s)
  {
    FreshIsOk();
    var run, ops :| Leads(FRESH_SYSTEM, run, ops, s);
    RunKeepsInv(FRESH_SYSTEM, run, ops, s);
  }

  /** GC safety. In every reachable state of any number of clients, every hash a version
      refers to has its blob present, holding bytes that hash to it. */
  lemma GcSafety(s: System, h: Hash)
    requires Reachable(s) && Refers(s.tables, h)
    ensures h in s.blobs && HashOf(s.blobs[h]) == h
  {
    ReachableKeepsInv(s);
    assert h in Referenced(s.tables);
  }

  /** So every version of every file, current or historical, can be read in full. */
  lemma EveryVersionIsReadable(s: System, v: nat)
    requires Reachable(s) && v in s.tables.versions
    ensures Stored(ManifestAt(s.tables, v)) && Hashes(ManifestAt(s.tables, v)) <= s.blobs.Keys
    ensures s.tables.versions[v].size == |Content(ManifestAt(s.tables, v))|
  {
    ReachableKeepsInv(s);
    ManifestHashesAreReferenced(s.tables, v);
  }

  /** A copy or revert that has loaded its manifest can count on the chunks even when every
      version that referred to them has meanwhile been deleted. */
  lemma HeldChunksAreSafe(s: System, c: Client)
    requires Reachable(s) && PhaseOf(s, c).Holding?
    ensures Hashes(PhaseOf(s, c).manifest) <= s.blobs.Keys
  {
    ReachableKeepsInv(s);
    assert PhaseOk(s.blobs, s.tables, s.phases[c]);
  }

  /** GC completeness and conservation, even while other clients prune and delete during the
      sweep: when a sweep has gone through its list, what is left on disk is the marked live
      set plus at most what was skipped, and without skipped entries it is exactly the live
      set; and the statistics count exactly the blobs, and the bytes, gone since the scan. */
  lemma GcCompleteness(s: System, c: Client)
    requires Reachable(s) && Enabled(s, EndGc(c))
    ensures var p := PhaseOf(s, c);
      && p.live <= s.blobs.Keys <= p.live + p.skipped
      && (p.skipped == {} ==> s.blobs.Keys == p.live)
      && s.blobs.Keys <= p.found
      && p.stats.scanned == p.stats.kept + p.stats.removed + p.stats.failed
      && p.stats.removed == |p.found - s.blobs.Keys|
      && p.stats.reclaimed == SetBytes(p.found - s.blobs.Keys)
  {
    ReachableKeepsInv(s);
    SweepDone(s.blobs, s.tables, s.phases[c]);
  }

  lemma SweepDone(blobs: map<Hash, seq<byte>>, tables: Tables, p: Phase)
    requires p.Sweeping? && p.queue == [] && PhaseOk(blobs, tables, p)
    ensures p.live <= blobs.Keys <= p.live + p.skipped && Accounted(blobs, p.found, p.stats)
  {
    assert (set h | h in p.queue) == {};
  }

  lemma StatementsAreOk(s: System, step: Step)
    requires Inv(s) && Enabled(s, step)
    ensures AllOk(StatementOf(s, step))
  {
    if step.CommitFlush? {
      assert PhaseOk(s.blobs, s.tables, s.phases[step.c]);
      ManifestOfIsStored(s.phases[step.c].pieces);
    } else if step.CommitReference? {
      assert PhaseOk(s.blobs, s.tables, s.phases[step.c]);
    }
  }

  lemma StepRunsStatement(s: System, step: Step)
    requires Enabled(s, step)
    ensures Next(s, step).tables == Run(s.tables, StatementOf(s, step))
  {
    var ops := StatementOf(s, step);
    if ops != [] {
      assert Init(ops) == [] && Run(s.tables, Init(ops)) == s.tables;
    }
  }

  lemma RunSnoc(t: Tables, ops: seq<MetaOp>, more: seq<MetaOp>)
    requires |more| <= 1
    ensures Run(t, ops + more) == Run(Run(t, ops), more)
  {
    if more == [] {
      assert ops + more == ops;
    } else {
      assert Init(ops + more) == ops && Init(more) == [];
      assert Run(Run(t, ops), []) == Run(t, ops);
    }
  }

  /** Every run of the protocol is, for the tables, a run of atomic statements that write
      stored manifests only; so all that holds of such runs holds here. */
  lemma {:induction false} ProtocolRunsStatements(from: System, run: seq<Step>, ops: seq<MetaOp>, s: System)
    requires Inv(from) && Leads(from, run, ops, s)
    ensures AllOk(ops) && s.tables == Run(from.tables, ops)
    decreases |run|
  {
    if run != [] {
      var before, earlier :| Leads(from, Init(run), earlier, before) && Enabled(before, Last(run))
                             && s == Next(before, Last(run)) && ops == earlier + StatementOf(before, Last(run));
      ProtocolRunsStatements(from, Init(run), earlier, before);
      RunKeepsInv(from, Init(run), earlier, before);
      StatementsAreOk(before, Last(run));
      StepRunsStatement(before, Last(run));
      RunSnoc(from.tables, earlier, StatementOf(before, Last(run)));
    }
  }

  /** Concurrent flushes, copies and reverts onto a node that stays alive lose no update,
      whatever pruning, deleting and collecting goes on around them. */
  lemma ConcurrentWritersLoseNothing(from: System, run: seq<Step>, ops: seq<MetaOp>, s: System, node: nat)
    requires Reachable(from) && Leads(from, run, ops, s) && LivesThrough(from.tables, ops, node)
    ensures NothingLost(from.tables, s.tables, node, Writes(ops, node))
    ensures HistoryExtends(from.tables, s.tables, node)
  {
    ReachableKeepsInv(from);
    ProtocolRunsStatements(from, run, ops, s);
    NoLostUpdate(from.tables, ops, node);
    VersionIdentity(from.tables, ops, node);
  }
}
