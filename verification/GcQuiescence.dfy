// Collecting twice (vfs crate, davfs.rs): after a complete collection, a second one removes
// nothing, whatever other clients do in between, unless some reference was dropped or some
// write left stored chunks behind.
module GcQuiescence {
  import opened Base
  import opened Manifests
  import opened BlobStores
  import opened MetaTables
  import opened VersionHistory
  import opened Sweeps
  import opened References
  import opened GcProtocol

  predicate IsStoring(p: Phase) {
    p.Storing? || p.Persisting?
  }

  /** The chunk is one that a flush under way has stored already. */
  ghost predicate StoredBy(p: Phase, h: Hash) {
    IsStoring(p) && exists i :: 0 <= i < p.next && i < |p.pieces| && HashOf(p.pieces[i]) == h
  }

  ghost predicate Pending(s: System, h: Hash) {
    exists c :: c in s.phases && StoredBy(s.phases[c], h)
  }

  /** Every blob is needed by some version, or by a flush under way. */
  ghost predicate NoOrphans(s: System) {
    forall h :: h in s.blobs ==> h in Referenced(s.tables) || Pending(s, h)
  }

  /** A collection under way that has found, and will find, nothing to remove. */
  ghost predicate FindsNothing(blobs: map<Hash, seq<byte>>, p: Phase) {
    match p
    case Listing(live) => blobs.Keys <= live
    case Sweeping(live, _, _, _, stats) =>
      blobs.Keys <= live && stats.removed == 0 && stats.reclaimed == 0 && stats.failed == 0
    case _ => true
  }

  ghost predicate Quiet(s: System) {
    NoOrphans(s) && forall c :: c in s.phases ==> FindsNothing(s.blobs, s.phases[c])
  }

  /** The step drops no reference and strands no stored chunk: no flush gives up, and none
      commits to a node that is gone. */
  ghost predicate Tidy(s: System, step: Step) {
    match step
    case Unguarded(op) => Referenced(s.tables) <= Referenced(Apply(s.tables, op))
    case CommitFlush(c) => PhaseOf(s, c).Storing? && PhaseOf(s, c).node in s.tables.nodes
    case GiveUp(c) => !IsStoring(PhaseOf(s, c))
    case _ => true
  }

  // ---- References only grow ----

  lemma WriteDropsNothing(t: Tables, id: nat, m: Manifest)
    requires OwnersExist(t)
    ensures Referenced(t) <= Referenced(SetContent(t, id, m).0)
  {
    var u := SetContent(t, id, m).0;
    forall h | h in Referenced(t) ensures h in Referenced(u) {
      var v, i :| v in t.chunks && 0 <= i < |t.chunks[v]| && t.chunks[v][i].hash == h;
      assert v in u.chunks && u.chunks[v][i].hash == h;
    }
  }

  lemma WrittenIsReferenced(t: Tables, id: nat, m: Manifest)
    requires id in t.nodes
    ensures Hashes(m) <= Referenced(SetContent(t, id, m).0)
  {
    if t.nodes[id].current.Some? && ManifestAt(t, t.nodes[id].current.value) == m {
      ManifestHashesAreReferenced(t, t.nodes[id].current.value);
    } else {
      var u, v := AppendVersion(t, id, m), NextId(t.versions.Keys);
      forall h | h in Hashes(m) ensures h in Referenced(u) {
        var i :| 0 <= i < |m.chunks| && m.chunks[i].hash == h;
        assert u.chunks[v][i].hash == h;
      }
    }
  }

  // ---- Every tidy step keeps quiet ----

  /** A client's phase change loses no pending chunk if it keeps what it has stored. */
  lemma PendingStays(s: System, c: Client, p: Phase, r: System, h: Hash)
    requires r.phases == s.phases[c := p] && Pending(s, h)
    requires StoredBy(PhaseOf(s, c), h) ==> StoredBy(p, h)
    ensures Pending(r, h)
  {
    var d :| d in s.phases && StoredBy(s.phases[d], h);
    assert d in r.phases && StoredBy(r.phases[d], h);
  }

  /** A step of one client that removes no blob and loses no reference. */
  lemma GrowthKeepsQuiet(s: System, c: Client, p: Phase, r: System)
    requires Quiet(s) && r.phases == s.phases[c := p]
    requires Referenced(s.tables) <= Referenced(r.tables)
    requires forall h :: StoredBy(PhaseOf(s, c), h) ==> StoredBy(p, h) || h in Referenced(r.tables)
    requires forall h :: h in r.blobs && h !in s.blobs ==> StoredBy(p, h)
    requires r.blobs.Keys == s.blobs.Keys || forall d :: !HoldsExclusive(PhaseOf(s, d))
    requires FindsNothing(r.blobs, p)
    ensures Quiet(r)
  {
    forall h | h in r.blobs && h !in Referenced(r.tables) ensures Pending(r, h) {
      if h in s.blobs {
        PendingStays(s, c, p, r, h);
      } else {
        assert c in r.phases && StoredBy(r.phases[c], h);
      }
    }
    forall d | d in r.phases ensures FindsNothing(r.blobs, r.phases[d]) {
      if d != c {
        assert FindsNothing(s.blobs, s.phases[d]);
        assert s.phases[d] == PhaseOf(s, d);
      }
    }
  }

  lemma UnguardedKeepsQuiet(s: System, op: MetaOp)
    requires Quiet(s) && Enabled(s, Unguarded(op)) && Tidy(s, Unguarded(op))
    ensures Quiet(Next(s, Unguarded(op)))
  {
    var r := Next(s, Unguarded(op));
    forall h | h in r.blobs && h !in Referenced(r.tables) ensures Pending(r, h) {
      assert Pending(s, h);
    }
  }

  lemma StoredByOneMore(node: nat, pieces: seq<seq<byte>>, next: nat, h: Hash)
    requires next < |pieces|
    ensures StoredBy(Storing(node, pieces, next + 1), h) <==>
            StoredBy(Storing(node, pieces, next), h) || h == HashOf(pieces[next])
    ensures StoredBy(Storing(node, pieces, next), h) <==> StoredBy(Persisting(node, pieces, next), h)
  {
    if h == HashOf(pieces[next]) {
      assert HashOf(Storing(node, pieces, next + 1).pieces[next]) == h;
    }
  }

  lemma StoreKeepsQuiet(s: System, step: Step)
    requires Inv(s) && Quiet(s) && Enabled(s, step) && (step.CheckChunk? || step.PersistChunk?)
    ensures Quiet(Next(s, step))
  {
    var c := step.c;
    var p, r := s.phases[c], Next(s, step);
    NoCollectorBesideWriter(s, c);
    forall h {
      StoredByOneMore(p.node, p.pieces, p.next, h);
    }
    GrowthKeepsQuiet(s, c, r.phases[c], r);
  }

  lemma FlushedAreReferenced(s: System, c: Client, h: Hash)
    requires Inv(s) && Enabled(s, CommitFlush(c)) && Tidy(s, CommitFlush(c)) && StoredBy(s.phases[c], h)
    ensures h in Referenced(Next(s, CommitFlush(c)).tables)
  {
    var p := s.phases[c];
    var m := ManifestOf(p.pieces);
    var i :| 0 <= i < p.next && i < |p.pieces| && HashOf(p.pieces[i]) == h;
    assert m.chunks[i].hash == h;
    WrittenIsReferenced(s.tables, p.node, m);
  }

  lemma CommitKeepsQuiet(s: System, step: Step)
    requires Inv(s) && Quiet(s) && Enabled(s, step) && Tidy(s, step) && (step.CommitFlush? || step.CommitReference?)
    ensures Quiet(Next(s, step))
  {
    var c := step.c;
    var p := s.phases[c];
    if step.CommitFlush? {
      WriteDropsNothing(s.tables, p.node, ManifestOf(p.pieces));
      forall h | StoredBy(p, h) ensures h in Referenced(Next(s, step).tables) {
        FlushedAreReferenced(s, c, h);
      }
    } else {
      WriteDropsNothing(s.tables, p.target, p.manifest);
    }
    GrowthKeepsQuiet(s, c, Finished, Next(s, step));
  }

  /** No flush is under way while a collector holds the guard. */
  lemma NothingPending(s: System, c: Client, h: Hash)
    requires Inv(s) && HoldsExclusive(PhaseOf(s, c))
    ensures !Pending(s, h)
  {
    NoWriterBesideCollector(s, c);
    forall d | d in s.phases ensures !StoredBy(s.phases[d], h) {
      assert s.phases[d] == PhaseOf(s, d);
    }
  }

  lemma MarkKeepsQuiet(s: System, c: Client)
    requires Inv(s) && Quiet(s) && Enabled(s, Mark(c))
    ensures Quiet(Next(s, Mark(c)))
  {
    forall h | h in s.blobs ensures h in Referenced(s.tables) {
      NothingPending(s, c, h);
    }
    GrowthKeepsQuiet(s, c, Listing(Referenced(s.tables)), Next(s, Mark(c)));
  }

  lemma SweepKeepsQuiet(s: System, c: Client, fails: bool)
    requires Inv(s) && Quiet(s) && Enabled(s, Sweep(c, fails))
    ensures Quiet(Next(s, Sweep(c, fails)))
  {
    var p, r := s.phases[c], Next(s, Sweep(c, fails));
    assert PhaseOk(s.blobs, s.tables, p) && FindsNothing(s.blobs, p);
    assert p.queue[0] in p.live;
    GrowthKeepsQuiet(s, c, r.phases[c], r);
  }

  lemma StepKeepsQuiet(s: System, step: Step)
    requires Inv(s) && Quiet(s) && Enabled(s, step) && Tidy(s, step)
    ensures Quiet(Next(s, step))
  {
    match step
    case Unguarded(op) => UnguardedKeepsQuiet(s, op);
    case CheckChunk(_) => StoreKeepsQuiet(s, step);
    case PersistChunk(_) => StoreKeepsQuiet(s, step);
    case CommitFlush(_) => CommitKeepsQuiet(s, step);
    case CommitReference(_) => CommitKeepsQuiet(s, step);
    case Mark(c) => MarkKeepsQuiet(s, c);
    case Sweep(c, fails) => SweepKeepsQuiet(s, c, fails);
    case List(c, _) =>
      assert FindsNothing(s.blobs, s.phases[c]);
      GrowthKeepsQuiet(s, c, Next(s, step).phases[c], Next(s, step));
    case _ => GrowthKeepsQuiet(s, step.c, Next(s, step).phases[step.c], Next(s, step));
  }

  // ---- Whole runs ----

  /** The steps of `run` are all tidy when taken, and lead from `from` to `s`. */
  ghost predicate LeadsTidily(from: System, run: seq<Step>, s: System)
    decreases |run|
  {
    if run == [] then s == from
    else
      exists before ::
        && LeadsTidily(from, Init(run), before)
        && Enabled(before, Last(run)) && Tidy(before, Last(run))
        && s == Next(before, Last(run))
  }

  lemma {:induction false} TidyRunKeepsQuiet(from: System, run: seq<Step>, s: System)
    requires Inv(from) && Quiet(from) && LeadsTidily(from, run, s)
    ensures Inv(s) && Quiet(s)
    decreases |run|
  {
    if run != [] {
      var before :| LeadsTidily(from, Init(run), before) && Enabled(before, Last(run)) && Tidy(before, Last(run))
                    && s == Next(before, Last(run));
      TidyRunKeepsQuiet(from, Init(run), before);
      StepKeepsInv(before, Last(run));
      StepKeepsQuiet(before, Last(run));
    }
  }

  /** A complete collection leaves the system quiet, if no reference was dropped since its
      mark. */
  lemma CollectionQuiets(s: System, c: Client)
    requires Reachable(s) && Enabled(s, EndGc(c))
    requires PhaseOf(s, c).skipped == {} && PhaseOf(s, c).live <= Referenced(s.tables)
    ensures Inv(Next(s, EndGc(c))) && Quiet(Next(s, EndGc(c)))
  {
    assert Inv(s) by {
      ReachableKeepsInv(s);
    }
    assert s.blobs.Keys == PhaseOf(s, c).live by {
      GcCompleteness(s, c);
    }
    assert Inv(Next(s, EndGc(c))) by {
      StepKeepsInv(s, EndGc(c));
    }
    NothingLeftToFind(s, c);
  }

  lemma NothingLeftToFind(s: System, c: Client)
    requires LockOk(s) && Enabled(s, EndGc(c)) && s.blobs.Keys <= Referenced(s.tables)
    ensures Quiet(Next(s, EndGc(c)))
  {
    NoWriterBesideCollector(s, c);
    var r := Next(s, EndGc(c));
    forall d | d in r.phases ensures FindsNothing(r.blobs, r.phases[d]) {
      assert d != c ==> r.phases[d] == PhaseOf(s, d);
    }
  }

  /** From the end of a complete collection with nothing unreferenced since its mark, through
      any run of any clients that drops no reference and strands no stored chunk, the next
      collection to end, whoever runs it, removes nothing: each blob it saw was kept, and all
      it saw is still there. */
  lemma NextCollectionRemovesNothing(s: System, c: Client, run: seq<Step>, r: System, d: Client)
    requires Reachable(s) && Enabled(s, EndGc(c))
    requires PhaseOf(s, c).skipped == {} && PhaseOf(s, c).live <= Referenced(s.tables)
    requires LeadsTidily(Next(s, EndGc(c)), run, r) && Enabled(r, EndGc(d))
    ensures var p := PhaseOf(r, d);
      && p.stats.removed == p.stats.failed == p.stats.reclaimed == 0
      && p.stats.scanned == p.stats.kept
      && p.found == r.blobs.Keys
  {
    CollectionQuiets(s, c);
    TidyRunKeepsQuiet(Next(s, EndGc(c)), run, r);
    assert PhaseOk(r.blobs, r.tables, r.phases[d]) && FindsNothing(r.blobs, r.phases[d]);
    NothingGone(r.blobs.Keys, r.phases[d].found);
  }

  lemma NothingGone(left: set<Hash>, found: set<Hash>)
    requires left <= found
    ensures |found - left| == 0 ==> found == left
  {
  }
}
