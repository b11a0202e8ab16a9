// What collections, flushes and copies come to in the protocol (vfs crate, davfs.rs and
// file.rs): whatever other clients do in between, a collection leaves what was referenced
// at its mark, a commit writes what was stored or loaded; and each can run to its end.
module GcProgress {
  import opened Base
  import opened Manifests
  import opened BlobStores
  import opened MetaTables
  import opened VersionHistory
  import opened Sweeps
  import opened References
  import opened GcProtocol

  /** The client that takes a step. */
  function ClientOf(step: Step): Option<Client> {
    if step.Unguarded? then None else Some(step.c)
  }

  /** In a run of others, the client itself does nothing. */
  predicate WithoutClient(run: seq<Step>, c: Client) {
    forall i :: 0 <= i < |run| ==> ClientOf(run[i]) != Some(c)
  }

  lemma OthersKeepPhase(s: System, step: Step, c: Client)
    requires Enabled(s, step) && ClientOf(step) != Some(c)
    ensures PhaseOf(Next(s, step), c) == PhaseOf(s, c)
  {
  }

  lemma {:induction false} WaitingKeepsPhase(from: System, run: seq<Step>, ops: seq<MetaOp>, s: System, c: Client)
    requires Leads(from, run, ops, s) && WithoutClient(run, c)
    ensures PhaseOf(s, c) == PhaseOf(from, c)
    decreases |run|
  {
    if run != [] {
      var before, earlier :| Leads(from, Init(run), earlier, before) && Enabled(before, Last(run))
                             && s == Next(before, Last(run)) && ops == earlier + StatementOf(before, Last(run));
      WaitingKeepsPhase(from, Init(run), earlier, before, c);
      OthersKeepPhase(before, Last(run), c);
    }
  }

  // ---- Collections ----

  /** The collection that marked in state `m` has come this far: it works on what was
      referenced then; until it has listed the blobs they are as they were then. */
  ghost predicate Marked(m: System, s: System, c: Client, thorough: bool) {
    var p := PhaseOf(s, c);
    if p.Listing? then p.live == Referenced(m.tables) && s.blobs.Keys == m.blobs.Keys
    else
      && p.Sweeping? && p.live == Referenced(m.tables) && p.found == m.blobs.Keys
      && (thorough ==> p.skipped == {} && p.stats.failed == 0 && p.stats.scanned + |p.queue| == |m.blobs.Keys|)
  }

  /** The collection misses no blob that was there at its mark, and none it tries to delete
      stays. */
  ghost predicate Thorough(m: System, c: Client, step: Step) {
    match step
    case List(d, listed) => d == c ==> forall h :: h in m.blobs ==> h in listed
    case Sweep(d, fails) => d == c ==> !fails
    case _ => true
  }

  ghost predicate AllThorough(m: System, c: Client, run: seq<Step>) {
    forall i :: 0 <= i < |run| ==> Thorough(m, c, run[i])
  }

  lemma {:induction false} ListedOnce(listed: seq<Hash>, hashes: set<Hash>)
    requires forall i, j :: 0 <= i < j < |listed| ==> listed[i] != listed[j]
    requires forall h :: h in listed <==> h in hashes
    ensures |listed| == |hashes|
  {
    if listed != [] {
      LastIsNotAmong(listed);
      ListedOnce(Init(listed), hashes - {Last(listed)});
    } else {
      assert hashes == {};
    }
  }

  lemma LastIsNotAmong(listed: seq<Hash>)
    requires listed != [] && forall i, j :: 0 <= i < j < |listed| ==> listed[i] != listed[j]
    ensures forall h :: h in Init(listed) <==> h in listed && h != Last(listed)
  {
    assert listed == Init(listed) + [Last(listed)];
  }

  lemma StepKeepsMarked(m: System, s: System, c: Client, step: Step, thorough: bool)
    requires Inv(s) && Marked(m, s, c, thorough) && Enabled(s, step) && step != EndGc(c)
    requires thorough ==> Thorough(m, c, step)
    ensures Marked(m, Next(s, step), c, thorough)
  {
    NoWriterBesideCollector(s, c);
    if ClientOf(step) != Some(c) {
      OthersKeepMarked(m, s, c, step, thorough);
    } else if step.List? {
      ListMarks(m, s, c, step.listed, thorough);
    }
  }

  lemma OthersKeepMarked(m: System, s: System, c: Client, step: Step, thorough: bool)
    requires Marked(m, s, c, thorough) && Enabled(s, step) && ClientOf(step) != Some(c)
    requires forall d :: !HoldsShared(PhaseOf(s, d)) && (HoldsExclusive(PhaseOf(s, d)) ==> d == c)
    ensures Marked(m, Next(s, step), c, thorough)
  {
    OthersKeepPhase(s, step, c);
  }

  lemma ListMarks(m: System, s: System, c: Client, listed: seq<Hash>, thorough: bool)
    requires Marked(m, s, c, thorough) && Enabled(s, List(c, listed))
    requires thorough ==> Thorough(m, c, List(c, listed))
    ensures Marked(m, Next(s, List(c, listed)), c, thorough)
  {
    if thorough {
      ListedOnce(listed, m.blobs.Keys);
    }
  }

  lemma OneMoreMarked(m: System, c: Client, run: seq<Step>, s: System)
    requires run != [] && EndGc(c) !in run && Inv(s) && Enabled(s, Last(run))
    requires Marked(m, s, c, AllThorough(m, c, Init(run)))
    ensures Inv(Next(s, Last(run))) && Marked(m, Next(s, Last(run)), c, AllThorough(m, c, run))
  {
    StepKeepsInv(s, Last(run));
    assert Last(run) in run;
    StepKeepsMarked(m, s, c, Last(run), AllThorough(m, c, run));
  }

  lemma {:induction false} RunKeepsMarked(m: System, c: Client, from: System, run: seq<Step>, ops: seq<MetaOp>,
                                          s: System)
    requires Inv(from) && Marked(m, from, c, true) && EndGc(c) !in run
    requires Leads(from, run, ops, s)
    ensures Inv(s) && Marked(m, s, c, AllThorough(m, c, run))
    decreases |run|
  {
    if run != [] {
      var before, earlier :| Leads(from, Init(run), earlier, before) && Enabled(before, Last(run))
                             && s == Next(before, Last(run)) && ops == earlier + StatementOf(before, Last(run));
      RunKeepsMarked(m, c, from, Init(run), earlier, before);
      OneMoreMarked(m, c, run, before);
    }
  }

  /** What a collection leaves, in terms of the moment it marked: of the blobs there then,
      those that a version referred to, and at most what it skipped; and exactly those
      referred to if it listed every blob and no deletion failed. What it reports as removed
      and reclaimed is what was there then and is not now. */
  lemma CollectionLeavesReferenced(m: System, c: Client, run: seq<Step>, ops: seq<MetaOp>, s: System)
    requires Reachable(m) && Enabled(m, Mark(c)) && EndGc(c) !in run
    requires Leads(Next(m, Mark(c)), run, ops, s) && Enabled(s, EndGc(c))
    ensures Referenced(m.tables) <= s.blobs.Keys <= Referenced(m.tables) + PhaseOf(s, c).skipped
    ensures AllThorough(m, c, run) ==>
              && s.blobs.Keys == Referenced(m.tables)
              && PhaseOf(s, c).stats.scanned == |m.blobs.Keys| && PhaseOf(s, c).stats.failed == 0
    ensures s.blobs.Keys <= m.blobs.Keys
    ensures PhaseOf(s, c).stats.removed == |m.blobs.Keys - s.blobs.Keys|
    ensures PhaseOf(s, c).stats.reclaimed == SetBytes(m.blobs.Keys - s.blobs.Keys)
  {
    assert Inv(m) by {
      ReachableKeepsInv(m);
    }
    StepKeepsInv(m, Mark(c));
    RunKeepsMarked(m, c, Next(m, Mark(c)), run, ops, s);
    MarkedToEnd(m, s, c, AllThorough(m, c, run));
  }

  lemma MarkedToEnd(m: System, s: System, c: Client, thorough: bool)
    requires Inv(s) && Marked(m, s, c, thorough) && Enabled(s, EndGc(c))
    ensures Referenced(m.tables) <= s.blobs.Keys <= Referenced(m.tables) + PhaseOf(s, c).skipped
    ensures thorough ==>
              && s.blobs.Keys == Referenced(m.tables)
              && PhaseOf(s, c).stats.scanned == |m.blobs.Keys| && PhaseOf(s, c).stats.failed == 0
    ensures s.blobs.Keys <= m.blobs.Keys
    ensures PhaseOf(s, c).stats.removed == |m.blobs.Keys - s.blobs.Keys|
    ensures PhaseOf(s, c).stats.reclaimed == SetBytes(m.blobs.Keys - s.blobs.Keys)
  {
    SweepDone(s.blobs, s.tables, s.phases[c]);
  }

  // ---- What is committed ----

  /** A copy or revert commits, onto the node it began with, the manifest that was current
      or recorded at the moment it loaded it, whatever happens before and after. */
  lemma CommitWritesWhatWasLoaded(a: System, c: Client, target: nat, wait: seq<Step>, some: seq<MetaOp>, b: System,
                                  load: Step, m: Manifest, more: seq<Step>, others: seq<MetaOp>, d: System)
    requires Enabled(a, BeginReference(c, target))
    requires Leads(Next(a, BeginReference(c, target)), wait, some, b) && WithoutClient(wait, c)
    requires match load
             case LoadCurrent(e, source) => e == c && CurrentManifest(b.tables, source) == Ok(m)
             case LoadVersion(e, v) => e == c && m == ManifestAt(b.tables, v)
             case _ => false
    requires Enabled(b, load) && Leads(Next(b, load), more, others, d) && WithoutClient(more, c)
    ensures Enabled(d, CommitReference(c)) && StatementOf(d, CommitReference(c)) == [WriteOp(target, m)]
  {
    WaitingKeepsPhase(Next(a, BeginReference(c, target)), wait, some, b, c);
    WaitingKeepsPhase(Next(b, load), more, others, d, c);
  }

  /** Of its own steps, the client only stores chunks. */
  predicate OnlyStores(run: seq<Step>, c: Client) {
    forall i :: 0 <= i < |run| && ClientOf(run[i]) == Some(c) ==> run[i].CheckChunk? || run[i].PersistChunk?
  }

  predicate Flushing(p: Phase, node: nat, pieces: seq<seq<byte>>) {
    (p.Storing? || p.Persisting?) && p.node == node && p.pieces == pieces
  }

  lemma StepKeepsPieces(s: System, c: Client, node: nat, pieces: seq<seq<byte>>, step: Step)
    requires Flushing(PhaseOf(s, c), node, pieces) && Enabled(s, step)
    requires ClientOf(step) == Some(c) ==> step.CheckChunk? || step.PersistChunk?
    ensures Flushing(PhaseOf(Next(s, step), c), node, pieces)
  {
    if ClientOf(step) != Some(c) {
      OthersKeepPhase(s, step, c);
    }
  }

  lemma {:induction false} StoringKeepsPieces(a: System, c: Client, node: nat, pieces: seq<seq<byte>>,
                                              run: seq<Step>, ops: seq<MetaOp>, s: System)
    requires Enabled(a, BeginFlush(c, node, pieces)) && OnlyStores(run, c)
    requires Leads(Next(a, BeginFlush(c, node, pieces)), run, ops, s)
    ensures Flushing(PhaseOf(s, c), node, pieces)
    decreases |run|
  {
    if run != [] {
      var from := Next(a, BeginFlush(c, node, pieces));
      var before, earlier :| Leads(from, Init(run), earlier, before) && Enabled(before, Last(run))
                             && s == Next(before, Last(run)) && ops == earlier + StatementOf(before, Last(run));
      StoringKeepsPieces(a, c, node, pieces, Init(run), earlier, before);
      StepKeepsPieces(before, c, node, pieces, Last(run));
    }
  }

  /** A flush commits the manifest of the pieces it began with, once all of them are there. */
  lemma FlushCommitsItsPieces(a: System, c: Client, node: nat, pieces: seq<seq<byte>>,
                              run: seq<Step>, ops: seq<MetaOp>, s: System)
    requires Reachable(a) && Enabled(a, BeginFlush(c, node, pieces)) && OnlyStores(run, c)
    requires Leads(Next(a, BeginFlush(c, node, pieces)), run, ops, s) && Enabled(s, CommitFlush(c))
    ensures StatementOf(s, CommitFlush(c)) == [WriteOp(node, ManifestOf(pieces))]
    ensures Hashes(ManifestOf(pieces)) <= s.blobs.Keys
  {
    ReachableKeepsInv(a);
    StepKeepsInv(a, BeginFlush(c, node, pieces));
    RunKeepsInv(Next(a, BeginFlush(c, node, pieces)), run, ops, s);
    StoringKeepsPieces(a, c, node, pieces, run, ops, s);
    assert PhaseOk(s.blobs, s.tables, s.phases[c]);
  }

  // ---- Each operation can run to its end ----

  /** Some run of this client alone leads from one state to the other. */
  ghost predicate CanGo(from: System, c: Client, ops: seq<MetaOp>, s: System) {
    exists run :: Leads(from, run, ops, s) && ByClient(run, c)
  }

  lemma StayingIsGoing(s: System, c: Client)
    ensures CanGo(s, c, [], s)
  {
    assert Leads(s, [], [], s) && ByClient([], c);
  }

  lemma LeadsOn(from: System, run: seq<Step>, ops: seq<MetaOp>, s: System, step: Step)
    requires Leads(from, run, ops, s) && Enabled(s, step)
    ensures Leads(from, run + [step], ops + StatementOf(s, step), Next(s, step))
  {
    assert Init(run + [step]) == run && Last(run + [step]) == step;
  }

  predicate ByClient(run: seq<Step>, c: Client) {
    forall i :: 0 <= i < |run| ==> ClientOf(run[i]) == Some(c)
  }

  lemma GoOn(from: System, c: Client, ops: seq<MetaOp>, s: System, step: Step)
    requires CanGo(from, c, ops, s) && Enabled(s, step) && ClientOf(step) == Some(c)
    ensures CanGo(from, c, ops + StatementOf(s, step), Next(s, step))
  {
    var run :| Leads(from, run, ops, s) && ByClient(run, c);
    var longer := run + [step];
    assert ByClient(longer, c);
    LeadsOn(from, run, ops, s, step);
  }

  /** A step that executes no statement. */
  lemma GoOnSilently(from: System, c: Client, ops: seq<MetaOp>, s: System, step: Step)
    requires CanGo(from, c, ops, s) && Enabled(s, step) && ClientOf(step) == Some(c)
    requires StatementOf(s, step) == []
    ensures CanGo(from, c, ops, Next(s, step))
  {
    GoOn(from, c, ops, s, step);
    assert ops + [] == ops;
  }

  /** The blobs on disk in some order. */
  lemma {:induction false} Enumerate(hashes: set<Hash>) returns (listed: seq<Hash>)
    ensures forall h :: h in listed <==> h in hashes
    ensures forall i, j :: 0 <= i < j < |listed| ==> listed[i] != listed[j]
    decreases |hashes|
  {
    if hashes == {} {
      listed := [];
    } else {
      var h :| h in hashes;
      var rest := Enumerate(hashes - {h});
      listed := rest + [h];
    }
  }

  lemma {:induction false} SweepToEnd(from: System, c: Client, s: System) returns (r: System)
    requires Inv(s) && CanGo(from, c, [], s) && PhaseOf(s, c).Sweeping?
    ensures Inv(r) && CanGo(from, c, [], r) && PhaseOf(r, c).Sweeping? && PhaseOf(r, c).queue == []
    ensures PhaseOf(r, c).live == PhaseOf(s, c).live && PhaseOf(r, c).skipped == PhaseOf(s, c).skipped
    ensures r.tables == s.tables
    decreases |PhaseOf(s, c).queue|
  {
    if PhaseOf(s, c).queue == [] {
      r := s;
    } else {
      var next := StepOn(from, c, s, Sweep(c, false));
      r := SweepToEnd(from, c, next);
    }
  }

  /** Taking the guard, marking, and listing every blob. */
  lemma ScanAll(s: System, c: Client) returns (r: System)
    requires Inv(s) && Enabled(s, BeginGc(c))
    ensures Inv(r) && CanGo(s, c, [], r) && PhaseOf(r, c).Sweeping?
    ensures PhaseOf(r, c).live == Referenced(s.tables) && PhaseOf(r, c).skipped == {}
    ensures r.tables == s.tables
  {
    StayingIsGoing(s, c);
    r := StepOn(s, c, s, BeginGc(c));
    r := StepOn(s, c, r, Mark(c));
    var listed := Enumerate(s.blobs.Keys);
    r := StepOn(s, c, r, List(c, listed));
  }

  lemma StepOn(from: System, c: Client, s: System, step: Step) returns (r: System)
    requires Inv(s) && CanGo(from, c, [], s) && Enabled(s, step) && ClientOf(step) == Some(c)
    requires StatementOf(s, step) == []
    ensures r == Next(s, step) && Inv(r) && CanGo(from, c, [], r)
  {
    GoOnSilently(from, c, [], s, step);
    StepKeepsInv(s, step);
    r := Next(s, step);
  }

  lemma SweptClean(s: System, c: Client)
    requires Inv(s) && PhaseOf(s, c).Sweeping? && PhaseOf(s, c).queue == [] && PhaseOf(s, c).skipped == {}
    ensures Enabled(s, EndGc(c)) && s.blobs.Keys == PhaseOf(s, c).live
  {
    SweepDone(s.blobs, s.tables, s.phases[c]);
  }

  lemma CollectionEnds(s: System, c: Client) returns (r: System)
    requires Inv(s) && Enabled(s, BeginGc(c))
    ensures CanGo(s, c, [], r) && PhaseOf(r, c).Idle? && r.gcLock == s.gcLock
    ensures r.tables == s.tables && r.blobs.Keys == Referenced(s.tables)
  {
    var scanned := ScanAll(s, c);
    var swept := SweepToEnd(s, c, scanned);
    SweptClean(swept, c);
    r := StepOn(s, c, swept, EndGc(c));
  }

  /** Wherever the lock is free a collection can run to its end, and leaves on disk exactly
      what is referenced. */
  lemma CollectionCanComplete(s: System, c: Client) returns (r: System)
    requires Reachable(s) && PhaseOf(s, c).Idle? && s.gcLock == RwLock({}, None)
    ensures CanGo(s, c, [], r) && PhaseOf(r, c).Idle? && r.gcLock == s.gcLock
    ensures r.tables == s.tables && r.blobs.Keys == Referenced(s.tables)
  {
    ReachableKeepsInv(s);
    r := CollectionEnds(s, c);
  }

  /** A flush under way has stored the first `next` pieces on top of the blobs it began with. */
  ghost predicate StoredOn(blobs: map<Hash, seq<byte>>, s: System, c: Client, node: nat, pieces: seq<seq<byte>>) {
    var p := PhaseOf(s, c);
    p.Storing? && p.node == node && p.pieces == pieces && p.next <= |pieces|
    && s.blobs == PutAll(blobs, pieces[..p.next])
  }

  /** Storing one more piece, unless its blob is there already. */
  lemma StoreOne(from: System, c: Client, s: System, blobs: map<Hash, seq<byte>>, node: nat, pieces: seq<seq<byte>>)
    returns (r: System)
    requires CanGo(from, c, [], s) && StoredOn(blobs, s, c, node, pieces) && PhaseOf(s, c).next < |pieces|
    ensures CanGo(from, c, [], r) && StoredOn(blobs, r, c, node, pieces)
    ensures PhaseOf(r, c).next == PhaseOf(s, c).next + 1 && r.tables == s.tables && r.gcLock == s.gcLock
  {
    var checked := Next(s, CheckChunk(c));
    GoOnSilently(from, c, [], s, CheckChunk(c));
    if PhaseOf(checked, c).Persisting? {
      GoOnSilently(from, c, [], checked, PersistChunk(c));
      r := Next(checked, PersistChunk(c));
    } else {
      r := checked;
    }
    StoredOneMore(blobs, s, c, node, pieces, r);
  }

  lemma StoredOneMore(blobs: map<Hash, seq<byte>>, s: System, c: Client, node: nat, pieces: seq<seq<byte>>, r: System)
    requires StoredOn(blobs, s, c, node, pieces) && PhaseOf(s, c).next < |pieces|
    requires PhaseOf(r, c) == Storing(node, pieces, PhaseOf(s, c).next + 1)
    requires r.blobs == PutBlob(s.blobs, pieces[PhaseOf(s, c).next])
    ensures StoredOn(blobs, r, c, node, pieces)
  {
    var n := PhaseOf(s, c).next;
    assert Init(pieces[..n + 1]) == pieces[..n] && Last(pieces[..n + 1]) == pieces[n];
  }

  lemma {:induction false} StoreToEnd(from: System, c: Client, s: System, blobs: map<Hash, seq<byte>>, node: nat,
                                      pieces: seq<seq<byte>>) returns (r: System)
    requires CanGo(from, c, [], s) && StoredOn(blobs, s, c, node, pieces)
    ensures CanGo(from, c, [], r) && StoredOn(blobs, r, c, node, pieces)
    ensures PhaseOf(r, c).next == |pieces| && r.tables == s.tables && r.gcLock == s.gcLock
    decreases |pieces| - PhaseOf(s, c).next
  {
    if PhaseOf(s, c).next == |pieces| {
      r := s;
    } else {
      var next := StoreOne(from, c, s, blobs, node, pieces);
      r := StoreToEnd(from, c, next, blobs, node, pieces);
    }
  }

  /** Commit and release, once nothing is left to store or load. */
  lemma FinishUp(from: System, c: Client, s: System, step: Step, id: nat, m: Manifest) returns (r: System)
    requires CanGo(from, c, [], s) && Enabled(s, step) && (step == CommitFlush(c) || step == CommitReference(c))
    requires StatementOf(s, step) == [WriteOp(id, m)]
    ensures CanGo(from, c, [WriteOp(id, m)], r) && PhaseOf(r, c).Idle?
    ensures r.blobs == s.blobs && r.tables == SetContent(s.tables, id, m).0
    ensures r.gcLock == s.gcLock.(readers := s.gcLock.readers - {c})
  {
    var committed := Next(s, step);
    GoOn(from, c, [], s, step);
    assert [] + [WriteOp(id, m)] == [WriteOp(id, m)];
    GoOnSilently(from, c, [WriteOp(id, m)], committed, Release(c));
    r := Next(committed, Release(c));
  }

  /** Wherever no collector holds the lock, a flush can run to its end, and then has done
      what storing the pieces and recording their manifest at once would do. */
  lemma FlushCanComplete(s: System, c: Client, node: nat, pieces: seq<seq<byte>>) returns (r: System)
    requires Reachable(s) && PhaseOf(s, c).Idle? && s.gcLock.writer.None? && Chunked(pieces)
    ensures CanGo(s, c, [WriteOp(node, ManifestOf(pieces))], r) && PhaseOf(r, c).Idle? && r.gcLock == s.gcLock
    ensures r.blobs == PutAll(s.blobs, pieces)
    ensures r.tables == SetContent(s.tables, node, ManifestOf(pieces)).0
  {
    StayingIsGoing(s, c);
    GoOnSilently(s, c, [], s, BeginFlush(c, node, pieces));
    assert pieces[..0] == [];
    var stored := StoreToEnd(s, c, Next(s, BeginFlush(c, node, pieces)), s.blobs, node, pieces);
    assert pieces[..|pieces|] == pieces;
    r := FinishUp(s, c, stored, CommitFlush(c), node, ManifestOf(pieces));
    NotReading(s, c);
  }

  lemma NotReading(s: System, c: Client)
    requires Reachable(s) && PhaseOf(s, c).Idle?
    ensures s.gcLock.readers + {c} - {c} == s.gcLock.readers
  {
    ReachableKeepsInv(s);
  }

  /** The same for a copy of a current content, or a revert to a version. */
  lemma ReferenceCanComplete(s: System, c: Client, target: nat, load: Step, m: Manifest) returns (r: System)
    requires Reachable(s) && PhaseOf(s, c).Idle? && s.gcLock.writer.None?
    requires match load
             case LoadCurrent(d, source) => d == c && CurrentManifest(s.tables, source) == Ok(m)
             case LoadVersion(d, v) => d == c && m == ManifestAt(s.tables, v)
             case _ => false
    ensures CanGo(s, c, [WriteOp(target, m)], r) && PhaseOf(r, c).Idle? && r.gcLock == s.gcLock
    ensures r.blobs == s.blobs && r.tables == SetContent(s.tables, target, m).0
  {
    StayingIsGoing(s, c);
    var begun := Next(s, BeginReference(c, target));
    GoOnSilently(s, c, [], s, BeginReference(c, target));
    GoOnSilently(s, c, [], begun, load);
    r := FinishUp(s, c, Next(begun, load), CommitReference(c), target, m);
    NotReading(s, c);
  }

  lemma ReachOn(s: System, step: Step) returns (r: System)
    requires Reachable(s) && Enabled(s, step)
    ensures r == Next(s, step) && Reachable(r)
  {
    var run, ops :| Leads(FRESH_SYSTEM, run, ops, s);
    LeadsOn(FRESH_SYSTEM, run, ops, s, step);
    r := Next(s, step);
    assert Leads(FRESH_SYSTEM, run + [step], ops + StatementOf(s, step), r);
  }

  /** What the guard is for does happen: wherever a copy may begin, it may find itself holding
      the manifest of a source deleted since, and can commit it all the same, every chunk of it
      being there. */
  lemma SourceMayGo(s: System, c: Client, target: nat, source: nat) returns (r: System)
    requires Reachable(s) && PhaseOf(s, c).Idle? && s.gcLock.writer.None?
    requires CurrentManifest(s.tables, source).Ok?
    ensures Reachable(r) && source !in r.tables.nodes && Enabled(r, CommitReference(c))
    ensures PhaseOf(r, c) == Holding(target, CurrentManifest(s.tables, source).value)
    ensures Hashes(CurrentManifest(s.tables, source).value) <= r.blobs.Keys
  {
    r := ReachOn(s, BeginReference(c, target));
    r := ReachOn(r, LoadCurrent(c, source));
    r := ReachOn(r, Unguarded(DeleteOp(source)));
    HeldChunksAreSafe(r, c);
  }
}
