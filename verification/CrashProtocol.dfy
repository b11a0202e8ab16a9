// Storing blobs on a filesystem that may crash (blobstore crate): any number of concurrent
// `put` and `put_reader` calls fill temporary files, sync them and rename them into place,
// while others delete blobs. Renames are atomic, but what was not synced may be lost.
module CrashProtocol {
  import opened Base
  import opened Manifests
  import opened BlobStores

  type Client = nat

  /** A file's bytes, and whether they are known to have reached the disk. */
  datatype Inode = Inode(data: seq<byte>, synced: bool)

  /** Where a client is: the bytes hashed so far and those of them not yet in its temporary
      file; `ended` once the input is exhausted. */
  datatype Phase =
    | Idle
    | Filling(temp: nat, hashed: seq<byte>, pending: seq<byte>, ended: bool)
    | Committing(temp: nat, hash: Hash)
    | Persisting(temp: nat, hash: Hash)

  /** `links` is the directory of blob names; `linked` is every entry it ever had, which is
      what a crash may bring back. */
  datatype Disk = Disk(inodes: map<nat, Inode>, links: map<Hash, nat>, linked: set<(Hash, nat)>,
                       phases: map<Client, Phase>)

  const FRESH_DISK := Disk(map[], map[], {}, map[])

  function PhaseOf(d: Disk, c: Client): Phase {
    if c in d.phases then d.phases[c] else Idle
  }

  datatype Step =
    | BeginPut(c: Client, temp: nat, data: seq<byte>)
    | BeginReader(c: Client, temp: nat)
    | Feed(c: Client, bytes: seq<byte>)
    | EndOfInput(c: Client)
    | WriteSome(c: Client, n: nat)
    | FinishHash(c: Client)
    | Sync(c: Client)
    | Persist(c: Client)
    | GiveUp(c: Client)
    | Delete(hash: Hash)
    | Crash(after: map<nat, seq<byte>>, links: map<Hash, nat>)

  ghost predicate Enabled(d: Disk, step: Step) {
    match step
    case BeginPut(c, temp, data) => PhaseOf(d, c).Idle? && HashOf(data) !in d.links && temp !in d.inodes
    case BeginReader(c, temp) => PhaseOf(d, c).Idle? && temp !in d.inodes
    case Feed(c, _) => PhaseOf(d, c).Filling? && PhaseOf(d, c).pending == [] && !PhaseOf(d, c).ended
    case EndOfInput(c) => PhaseOf(d, c).Filling? && PhaseOf(d, c).pending == []
    case WriteSome(c, n) => PhaseOf(d, c).Filling? && 0 < n <= |PhaseOf(d, c).pending| && PhaseOf(d, c).temp in d.inodes
    case FinishHash(c) => PhaseOf(d, c).Filling? && PhaseOf(d, c).pending == [] && PhaseOf(d, c).ended
    case Sync(c) => PhaseOf(d, c).Committing? && PhaseOf(d, c).temp in d.inodes
    case Persist(c) => PhaseOf(d, c).Persisting?
    case GiveUp(c) => !PhaseOf(d, c).Idle?
    case Delete(hash) => hash in d.links
    case Crash(after, links) =>
      && after.Keys == d.inodes.Keys
      && (forall i :: i in d.inodes && d.inodes[i].synced ==> after[i] == d.inodes[i].data)
      && (forall h :: h in links ==> (h, links[h]) in d.linked)
  }

  function Goto(d: Disk, c: Client, p: Phase): Disk {
    d.(phases := d.phases[c := p])
  }

  ghost function Next(d: Disk, step: Step): Disk
    requires Enabled(d, step)
  {
    match step
    case BeginPut(c, temp, data) =>
      Goto(d, c, Filling(temp, data, data, true)).(inodes := d.inodes[temp := Inode([], false)])
    case BeginReader(c, temp) =>
      Goto(d, c, Filling(temp, [], [], false)).(inodes := d.inodes[temp := Inode([], false)])
    case Feed(c, bytes) =>
      var p := PhaseOf(d, c);
      Goto(d, c, p.(hashed := p.hashed + bytes, pending := bytes))
    case EndOfInput(c) => Goto(d, c, PhaseOf(d, c).(ended := true))
    case WriteSome(c, n) =>
      var p := PhaseOf(d, c);
      var file := Inode(d.inodes[p.temp].data + p.pending[..n], false);
      Goto(d, c, p.(pending := p.pending[n..])).(inodes := d.inodes[p.temp := file])
    case FinishHash(c) =>
      var p := PhaseOf(d, c);
      Goto(d, c, if HashOf(p.hashed) in d.links then Idle else Committing(p.temp, HashOf(p.hashed)))
    case Sync(c) =>
      var p := PhaseOf(d, c);
      Goto(d, c, Persisting(p.temp, p.hash)).(inodes := d.inodes[p.temp := d.inodes[p.temp].(synced := true)])
    case Persist(c) =>
      var p := PhaseOf(d, c);
      Goto(d, c, Idle).(links := d.links[p.hash := p.temp], linked := d.linked + {(p.hash, p.temp)})
    case GiveUp(c) => Goto(d, c, Idle)
    case Delete(hash) => d.(links := d.links - {hash})
    case Crash(after, links) =>
      Disk(map i | i in after :: Inode(after[i], true), links, d.linked, map[])
  }

  // ---- The invariant ----

  ghost predicate NeverLinked(d: Disk, i: nat) {
    forall h :: (h, i) !in d.linked
  }

  /** A blob name's file is safely on disk with the bytes that hash to the name. */
  ghost predicate EntryOk(d: Disk, h: Hash, i: nat) {
    i in d.inodes && d.inodes[i].synced && HashOf(d.inodes[i].data) == h
  }

  ghost predicate PhaseOk(d: Disk, p: Phase) {
    match p
    case Idle => true
    case Filling(temp, hashed, pending, _) =>
      temp in d.inodes && NeverLinked(d, temp) && d.inodes[temp].data + pending == hashed
    case Committing(temp, hash) =>
      temp in d.inodes && NeverLinked(d, temp) && HashOf(d.inodes[temp].data) == hash
    case Persisting(temp, hash) =>
      temp in d.inodes && NeverLinked(d, temp) && EntryOk(d, hash, temp)
  }

  ghost predicate Inv(d: Disk) {
    && (forall h, i :: (h, i) in d.linked ==> EntryOk(d, h, i))
    && (forall h :: h in d.links ==> (h, d.links[h]) in d.linked)
    && (forall c :: c in d.phases ==> PhaseOk(d, d.phases[c]))
    && (forall c, e :: c in d.phases && e in d.phases && c != e && !d.phases[c].Idle? && !d.phases[e].Idle? ==>
          d.phases[c].temp != d.phases[e].temp)
  }

  /** What a client does to its own temporary file disturbs nobody else. */
  lemma OwnFileKeepsInv(d: Disk, c: Client, p: Phase, inodes: map<nat, Inode>)
    requires Inv(d) && !p.Idle?
    requires NeverLinked(d, p.temp)
    requires PhaseOf(d, c).Idle? ==> p.temp !in d.inodes
    requires !PhaseOf(d, c).Idle? ==> p.temp == PhaseOf(d, c).temp
    requires inodes.Keys == d.inodes.Keys + {p.temp}
    requires forall i :: i in d.inodes && i != p.temp ==> inodes[i] == d.inodes[i]
    requires PhaseOk(d.(inodes := inodes), p)
    ensures Inv(Goto(d, c, p).(inodes := inodes))
  {
    var after := Goto(d, c, p).(inodes := inodes);
    forall h, i | (h, i) in d.linked ensures EntryOk(after, h, i) {
      assert EntryOk(d, h, i);
    }
    forall e | e in after.phases ensures PhaseOk(after, after.phases[e]) {
      if e != c {
        assert PhaseOk(d, d.phases[e]);
      }
    }
  }

  lemma GoIdleKeepsInv(d: Disk, c: Client)
    requires Inv(d)
    ensures Inv(Goto(d, c, Idle))
  {
    var after := Goto(d, c, Idle);
    forall h, i | (h, i) in d.linked ensures EntryOk(after, h, i) {
      assert EntryOk(d, h, i);
    }
    forall e | e in after.phases ensures PhaseOk(after, after.phases[e]) {
      assert e != c ==> PhaseOk(d, d.phases[e]);
    }
  }

  lemma FillingStepKeepsInv(d: Disk, step: Step)
    requires Inv(d) && Enabled(d, step)
    requires step.BeginPut? || step.BeginReader? || step.Feed? || step.EndOfInput? || step.WriteSome? || step.Sync?
    ensures Inv(Next(d, step))
  {
    var after := Next(d, step);
    var c := step.c;
    if step.BeginPut? || step.BeginReader? {
      forall h ensures (h, step.temp) !in d.linked {
        assert (h, step.temp) in d.linked ==> EntryOk(d, h, step.temp);
      }
    } else {
      assert PhaseOk(d, d.phases[c]);
    }
    OwnFileKeepsInv(d, c, after.phases[c], after.inodes);
    assert after == Goto(d, c, after.phases[c]).(inodes := after.inodes);
  }

  lemma FinishKeepsInv(d: Disk, c: Client)
    requires Inv(d) && Enabled(d, FinishHash(c))
    ensures Inv(Next(d, FinishHash(c)))
  {
    var p := PhaseOf(d, c);
    assert PhaseOk(d, p);
    if HashOf(p.hashed) in d.links {
      GoIdleKeepsInv(d, c);
    } else {
      assert d.inodes[p.temp].data + [] == d.inodes[p.temp].data;
      OwnFileKeepsInv(d, c, Committing(p.temp, HashOf(p.hashed)), d.inodes);
      assert Next(d, FinishHash(c)) == Goto(d, c, Committing(p.temp, HashOf(p.hashed))).(inodes := d.inodes);
    }
  }

  lemma PersistKeepsInv(d: Disk, c: Client)
    requires Inv(d) && Enabled(d, Persist(c))
    ensures Inv(Next(d, Persist(c)))
  {
    var p := PhaseOf(d, c);
    var after := Next(d, Persist(c));
    assert PhaseOk(d, p);
    forall h, i | (h, i) in after.linked ensures EntryOk(after, h, i) {
      assert EntryOk(d, h, i);
    }
    forall e | e in after.phases ensures PhaseOk(after, after.phases[e]) {
      if e != c {
        assert PhaseOk(d, d.phases[e]);
        assert !d.phases[e].Idle? ==> d.phases[e].temp != p.temp;
      }
    }
  }

  lemma CrashKeepsInv(d: Disk, after: map<nat, seq<byte>>, links: map<Hash, nat>)
    requires Inv(d) && Enabled(d, Crash(after, links))
    ensures Inv(Next(d, Crash(after, links)))
  {
    var r := Next(d, Crash(after, links));
    forall h, i | (h, i) in r.linked ensures EntryOk(r, h, i) {
      assert EntryOk(d, h, i);
    }
  }

  lemma StepKeepsInv(d: Disk, step: Step)
    requires Inv(d) && Enabled(d, step)
    ensures Inv(Next(d, step))
  {
    match step
    case FinishHash(c) => FinishKeepsInv(d, c);
    case Persist(c) => PersistKeepsInv(d, c);
    case GiveUp(c) => GoIdleKeepsInv(d, c);
    case Delete(hash) =>
      forall e | e in d.phases ensures PhaseOk(Next(d, step), d.phases[e]) {
        assert PhaseOk(d, d.phases[e]);
      }
      forall h, i | (h, i) in d.linked ensures EntryOk(Next(d, step), h, i) {
        assert EntryOk(d, h, i);
      }
    case Crash(after, links) => CrashKeepsInv(d, after, links);
    case _ => FillingStepKeepsInv(d, step);
  }

  // ---- Whole runs, crashes included ----

  ghost function Run(d: Disk, steps: seq<Step>): Option<Disk> {
    if steps == [] then Some(d)
    else match Run(d, Init(steps))
      case None => None
      case Some(e) => if Enabled(e, Last(steps)) then Some(Next(e, Last(steps))) else None
  }

  lemma {:induction false} RunKeepsInv(d: Disk, steps: seq<Step>)
    requires Inv(d) && Run(d, steps).Some?
    ensures Inv(Run(d, steps).value)
  {
    if steps != [] {
      RunKeepsInv(d, Init(steps));
      StepKeepsInv(Run(d, Init(steps)).value, Last(steps));
    }
  }

  /** The store's contents as seen through the directory. */
  ghost function BlobsOf(d: Disk): map<Hash, seq<byte>>
    requires Inv(d)
  {
    map h | h in d.links :: (assert EntryOk(d, h, d.links[h]); d.inodes[d.links[h]].data)
  }

  /** Blob integrity. At every moment of every run, crashes at any step and any number of
      them included, every file under a blob name holds complete bytes that hash to it. */
  lemma BlobIntegrity(steps: seq<Step>)
    requires Run(FRESH_DISK, steps).Some?
    ensures Inv(Run(FRESH_DISK, steps).value)
    ensures BlobsSound(BlobsOf(Run(FRESH_DISK, steps).value))
  {
    RunKeepsInv(FRESH_DISK, steps);
    var d := Run(FRESH_DISK, steps).value;
    forall h | h in d.links ensures HashOf(BlobsOf(d)[h]) == h {
      assert EntryOk(d, h, d.links[h]);
    }
  }

  /** Up to crashes, the many small steps of a put come down to one atomic `PutBlob` at the
      moment of the rename, and a deletion to the removal of one blob. */
  lemma StepOnBlobs(d: Disk, step: Step)
    requires Inv(d) && Enabled(d, step) && !step.Crash?
    ensures Inv(Next(d, step))
    ensures BlobsOf(Next(d, step)) ==
            match step
            case Persist(c) => PutBlob(BlobsOf(d), d.inodes[PhaseOf(d, c).temp].data)
            case Delete(hash) => BlobsOf(d) - {hash}
            case _ => BlobsOf(d)
  {
    StepKeepsInv(d, step);
    BlobsArePreimages(d);
    BlobsArePreimages(Next(d, step));
    if step.Persist? {
      PersistedData(d, step.c);
    }
  }

  lemma BlobsArePreimages(d: Disk)
    requires Inv(d)
    ensures BlobsOf(d) == map h | h in d.links :: h.preimage
  {
    forall h | h in d.links ensures BlobsOf(d)[h] == h.preimage {
      assert EntryOk(d, h, d.links[h]);
    }
  }

  lemma PersistedData(d: Disk, c: Client)
    requires Inv(d) && Enabled(d, Persist(c))
    ensures PhaseOf(d, c).temp in d.inodes
    ensures HashOf(d.inodes[PhaseOf(d, c).temp].data) == PhaseOf(d, c).hash
  {
    assert PhaseOk(d, PhaseOf(d, c));
  }

  // ---- What a put that ends has done ----

  /** The bytes fed to the client's `put_reader` in a run. */
  function Fed(c: Client, steps: seq<Step>): seq<byte> {
    if steps == [] then []
    else Fed(c, Init(steps)) + if Last(steps).Feed? && Last(steps).c == c then Last(steps).bytes else []
  }

  /** What one step of a run may not do to a put of `c`: give it up, begin another, or crash. */
  predicate Undisturbed(c: Client, step: Step) {
    && !step.Crash?
    && ((step.GiveUp? || step.BeginPut? || step.BeginReader?) ==> step.c != c)
  }

  predicate AllUndisturbed(c: Client, steps: seq<Step>) {
    forall i :: 0 <= i < |steps| ==> Undisturbed(c, steps[i])
  }

  /** Whether a put of the bytes `input` is on its way, or has been completed. */
  ghost predicate Pursues(d: Disk, c: Client, input: seq<byte>, deleted: bool) {
    match PhaseOf(d, c)
    case Filling(_, hashed, _, _) => hashed == input
    case Committing(_, hash) => hash == HashOf(input)
    case Persisting(_, hash) => hash == HashOf(input)
    case Idle => deleted || HashOf(input) in d.links
  }

  lemma FeedPursues(d: Disk, c: Client, bytes: seq<byte>, input: seq<byte>, deleted: bool, later: bool)
    requires Enabled(d, Feed(c, bytes)) && Pursues(d, c, input, deleted)
    ensures Pursues(Next(d, Feed(c, bytes)), c, input + bytes, later)
  {
  }

  lemma StepPursues(d: Disk, step: Step, c: Client, input: seq<byte>, deleted: bool)
    requires Enabled(d, step) && Undisturbed(c, step) && Pursues(d, c, input, deleted)
    requires !(step.Feed? && step.c == c)
    ensures Pursues(Next(d, step), c, input, deleted || step == Delete(HashOf(input)))
  {
  }

  /** A put that began in `d`, of `data` at once or of what is fed to it. */
  predicate BeginsPut(begin: Step, c: Client, data: seq<byte>) {
    match begin
    case BeginPut(e, _, all) => e == c && all == data
    case BeginReader(e, _) => e == c && data == []
    case _ => false
  }

  /** The put of `input` is on its way or completed, unless its blob was deleted in the run. */
  ghost predicate StillPursues(d: Disk, c: Client, input: seq<byte>, steps: seq<Step>) {
    Pursues(d, c, input, Delete(HashOf(input)) in steps)
  }

  lemma {:induction false} RunPursues(d: Disk, begin: Step, c: Client, data: seq<byte>, steps: seq<Step>)
    requires Enabled(d, begin) && BeginsPut(begin, c, data) && AllUndisturbed(c, steps)
    requires Run(Next(d, begin), steps).Some?
    ensures StillPursues(Run(Next(d, begin), steps).value, c, data + Fed(c, steps), steps)
  {
    var from := Next(d, begin);
    if steps == [] {
      assert data + [] == data;
    } else {
      RunPursues(d, begin, c, data, Init(steps));
      assert Undisturbed(c, steps[|steps| - 1]);
      OneMoreStep(Run(from, Init(steps)).value, c, data, steps);
    }
  }

  lemma OneMoreStep(e: Disk, c: Client, data: seq<byte>, steps: seq<Step>)
    requires steps != [] && Enabled(e, Last(steps)) && Undisturbed(c, Last(steps))
    requires StillPursues(e, c, data + Fed(c, Init(steps)), Init(steps))
    ensures StillPursues(Next(e, Last(steps)), c, data + Fed(c, steps), steps)
  {
    var input, step := data + Fed(c, Init(steps)), Last(steps);
    FedSnoc(c, data, steps);
    if step.Feed? && step.c == c {
      FeedPursues(e, c, step.bytes, input, Delete(HashOf(input)) in Init(steps),
                  Delete(HashOf(data + Fed(c, steps))) in steps);
    } else {
      StepPursues(e, step, c, input, Delete(HashOf(input)) in Init(steps));
      InSnoc(steps, Delete(HashOf(input)));
    }
  }

  lemma FedSnoc(c: Client, data: seq<byte>, steps: seq<Step>)
    requires steps != []
    ensures data + Fed(c, steps) ==
            data + Fed(c, Init(steps)) + if Last(steps).Feed? && Last(steps).c == c then Last(steps).bytes else []
    ensures !(Last(steps).Feed? && Last(steps).c == c) ==> data + Fed(c, steps) == data + Fed(c, Init(steps))
  {
  }

  lemma InSnoc(steps: seq<Step>, step: Step)
    requires steps != []
    ensures step in steps <==> step in Init(steps) || step == Last(steps)
  {
    assert steps == Init(steps) + [Last(steps)];
  }

  /** Durability of a completed put. Once the client is idle again, having neither given up
      nor been cut off by a crash, the bytes it was given, at once or piece by piece, are in
      the store under their hash, unless that blob was deleted meanwhile. */
  lemma CompletedPutIsStored(d: Disk, begin: Step, c: Client, data: seq<byte>, steps: seq<Step>)
    requires Inv(d) && Enabled(d, begin) && BeginsPut(begin, c, data) && AllUndisturbed(c, steps)
    requires Run(Next(d, begin), steps).Some?
    requires Delete(HashOf(data + Fed(c, steps))) !in steps
    ensures var e, input := Run(Next(d, begin), steps).value, data + Fed(c, steps);
      && Inv(e)
      && (PhaseOf(e, c).Idle? ==> HashOf(input) in BlobsOf(e) && BlobsOf(e)[HashOf(input)] == input)
  {
    StepKeepsInv(d, begin);
    RunKeepsInv(Next(d, begin), steps);
    RunPursues(d, begin, c, data, steps);
    BlobsArePreimages(Run(Next(d, begin), steps).value);
  }

  // ---- Puts can complete ----

  lemma RunOn(d: Disk, steps: seq<Step>, step: Step)
    requires Run(d, steps).Some? && Enabled(Run(d, steps).value, step)
    ensures Run(d, steps + [step]) == Some(Next(Run(d, steps).value, step))
  {
    assert Init(steps + [step]) == steps && Last(steps + [step]) == step;
  }

  /** Some run leads from one state to the other. */
  ghost predicate CanGo(d: Disk, e: Disk) {
    exists steps :: Run(d, steps) == Some(e)
  }

  lemma GoOn(d: Disk, e: Disk, step: Step) returns (next: Disk)
    requires CanGo(d, e) && Inv(e) && Enabled(e, step)
    ensures next == Next(e, step) && Inv(next) && CanGo(d, next)
  {
    var steps :| Run(d, steps) == Some(e);
    RunOn(d, steps, step);
    StepKeepsInv(e, step);
    next := Next(e, step);
  }

  /** Writing out what is pending. */
  lemma WriteOut(d: Disk, e: Disk, c: Client) returns (r: Disk)
    requires CanGo(d, e) && Inv(e) && PhaseOf(e, c).Filling?
    ensures CanGo(d, r) && Inv(r) && PhaseOf(r, c) == PhaseOf(e, c).(pending := []) && r.links == e.links
  {
    var p := PhaseOf(e, c);
    assert PhaseOk(e, p);
    r := e;
    if p.pending != [] {
      r := GoOn(d, e, WriteSome(c, |p.pending|));
    }
  }

  lemma FinishPut(d: Disk, e: Disk, c: Client) returns (r: Disk)
    requires CanGo(d, e) && Inv(e) && PhaseOf(e, c).Filling? && PhaseOf(e, c).ended
    ensures CanGo(d, r) && Inv(r) && PhaseOf(r, c).Idle?
    ensures r.links.Keys == e.links.Keys + {HashOf(PhaseOf(e, c).hashed)}
  {
    var written := WriteOut(d, e, c);
    r := GoOn(d, written, FinishHash(c));
    if PhaseOf(r, c).Committing? {
      assert PhaseOk(r, PhaseOf(r, c));
      r := GoOn(d, r, Sync(c));
      r := GoOn(d, r, Persist(c));
    }
  }

  /** An idle client with a fresh temporary file can put any bytes that are not there yet, and
      the store then holds them besides what it held. */
  lemma PutCanComplete(d: Disk, c: Client, temp: nat, data: seq<byte>) returns (r: Disk)
    requires Inv(d) && PhaseOf(d, c).Idle? && temp !in d.inodes && HashOf(data) !in d.links
    ensures CanGo(d, r) && Inv(r) && PhaseOf(r, c).Idle?
    ensures BlobsOf(r) == PutBlob(BlobsOf(d), data)
  {
    assert Run(d, []) == Some(d);
    var begun := GoOn(d, d, BeginPut(c, temp, data));
    r := FinishPut(d, begun, c);
    SameAsPutBlob(d, r, data);
  }

  lemma SameAsPutBlob(d: Disk, r: Disk, data: seq<byte>)
    requires Inv(d) && Inv(r) && r.links.Keys == d.links.Keys + {HashOf(data)}
    ensures BlobsOf(r) == PutBlob(BlobsOf(d), data)
  {
    BlobsArePreimages(d);
    BlobsArePreimages(r);
    SamePreimages(d.links.Keys, r.links.Keys, BlobsOf(d), BlobsOf(r), data);
  }

  lemma SamePreimages(few: set<Hash>, more: set<Hash>, before: map<Hash, seq<byte>>, after: map<Hash, seq<byte>>,
                      data: seq<byte>)
    requires more == few + {HashOf(data)}
    requires before == (map h | h in few :: h.preimage) && after == map h | h in more :: h.preimage
    ensures after == PutBlob(before, data)
  {
  }

  lemma {:induction false} FeedAll(d: Disk, e: Disk, c: Client, pieces: seq<seq<byte>>) returns (r: Disk)
    requires CanGo(d, e) && Inv(e) && PhaseOf(e, c).Filling?
    requires PhaseOf(e, c).hashed == PhaseOf(e, c).pending == [] && !PhaseOf(e, c).ended
    ensures CanGo(d, r) && Inv(r) && r.links == e.links
    ensures PhaseOf(r, c) == PhaseOf(e, c).(hashed := Flatten(pieces))
  {
    if pieces == [] {
      r := e;
    } else {
      r := FeedAll(d, e, c, Init(pieces));
      r := GoOn(d, r, Feed(c, Last(pieces)));
      r := WriteOut(d, r, c);
    }
  }

  /** The same for a stream, however it arrives in pieces. */
  lemma ReaderCanComplete(d: Disk, c: Client, temp: nat, pieces: seq<seq<byte>>) returns (r: Disk)
    requires Inv(d) && PhaseOf(d, c).Idle? && temp !in d.inodes
    ensures CanGo(d, r) && Inv(r) && PhaseOf(r, c).Idle?
    ensures BlobsOf(r) == PutBlob(BlobsOf(d), Flatten(pieces))
  {
    assert Run(d, []) == Some(d);
    r := GoOn(d, d, BeginReader(c, temp));
    r := FeedAll(d, r, c, pieces);
    r := GoOn(d, r, EndOfInput(c));
    r := FinishPut(d, r, c);
    SameAsPutBlob(d, r, Flatten(pieces));
  }

  // ---- What a crash may do ----

  /** A crash may leave anything in a file that was not synced, and may bring back any mix of
      the directory entries there ever were, so it may lose any name. */
  lemma CrashMayLose(d: Disk, i: nat, junk: seq<byte>, h: Hash) returns (e: Disk)
    requires Inv(d) && i in d.inodes && !d.inodes[i].synced
    ensures CanGo(d, e) && i in e.inodes && e.inodes[i].data == junk && h !in e.links && e.phases == map[]
    ensures forall g :: g in d.links && g != h ==> g in e.links
  {
    var after := (map j | j in d.inodes :: d.inodes[j].data)[i := junk];
    assert after.Keys == d.inodes.Keys;
    assert Run(d, []) == Some(d);
    e := GoOn(d, d, Crash(after, d.links - {h}));
  }
}
