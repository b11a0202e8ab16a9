// Streaming a historical version to a client (webdav-server crate, main.rs): a blocking task
// pulls chunks from the version's reader into a bounded channel that the response body
// drains, while the store may lose blobs at any moment.
module Streaming {
  import opened Base
  import opened Manifests
  import opened BlobStores

  /** Chunks in flight at most. */
  const VERSION_STREAM_CHUNKS: nat := 4

  /** A chunk's bytes, or the error of reading it. */
  type Item = Result<seq<byte>, IoError>

  datatype Producer =
    | Pulling
    | Sending(item: Item)
    | Stopped

  /** `size` is the advertised Content-Length; `next` is the reader's position in chunks. */
  datatype Transfer = Transfer(
    manifest: Manifest, size: nat, blobs: map<Hash, seq<byte>>,
    next: nat, producer: Producer, channel: seq<Item>, received: seq<Item>, hungUp: bool)

  predicate Begun(t: Transfer) {
    t.next == 0 && t.producer == Pulling && t.channel == [] && t.received == [] && !t.hungUp
  }

  datatype Step =
    | Pull
    | Send
    | NoticeHangUp
    | Receive
    | HangUp
    | StoreChanges(blobs: map<Hash, seq<byte>>)

  ghost predicate Enabled(t: Transfer, step: Step) {
    match step
    case Pull => t.producer.Pulling?
    case Send => t.producer.Sending? && !t.hungUp && |t.channel| < VERSION_STREAM_CHUNKS
    case NoticeHangUp => t.producer.Sending? && t.hungUp
    case Receive => !t.hungUp && t.channel != []
    case HangUp => true
    case StoreChanges(blobs) => BlobsSound(blobs)
  }

  ghost function Next(t: Transfer, step: Step): Transfer
    requires Enabled(t, step)
  {
    match step
    case Pull =>
      if t.next >= |t.manifest.chunks| then t.(producer := Stopped)
      else
        var h := t.manifest.chunks[t.next].hash;
        t.(next := t.next + 1, producer := Sending(if h in t.blobs then Ok(t.blobs[h]) else Err(BlobMissing)))
    case Send =>
      var item := t.producer.item;
      t.(channel := t.channel + [item], producer := if item.Err? then Stopped else Pulling)
    case NoticeHangUp => t.(producer := Stopped)
    case Receive => t.(received := t.received + [t.channel[0]], channel := t.channel[1..])
    case HangUp => t.(hungUp := true, channel := [])
    case StoreChanges(blobs) => t.(blobs := blobs)
  }

  // ---- The invariant ----

  function InHand(p: Producer): seq<Item> {
    if p.Sending? then [p.item] else []
  }

  /** Everything pulled so far that is not lost: received, queued, or about to be sent. */
  function Pulled(t: Transfer): seq<Item> {
    t.received + t.channel + InHand(t.producer)
  }

  /** The items are the version's chunks in order from the first; an error can only be last. */
  predicate InOrder(items: seq<Item>, m: Manifest) {
    && |items| <= |m.chunks|
    && (forall i :: 0 <= i < |items| && items[i].Ok? ==> items[i].value == m.chunks[i].hash.preimage)
    && (forall i :: 0 <= i < |items| - 1 ==> items[i].Ok?)
  }

  predicate AllRead(items: seq<Item>) {
    forall i :: 0 <= i < |items| ==> items[i].Ok?
  }

  /** While the client listens, nothing pulled is ever lost, and the producer stops only at
      the end of the version or after an error. */
  ghost predicate Flowing(t: Transfer) {
    && InOrder(Pulled(t), t.manifest)
    && t.next == |Pulled(t)|
    && (t.producer.Pulling? ==> AllRead(Pulled(t)))
    && (t.producer.Stopped? ==> if AllRead(Pulled(t)) then t.next == |t.manifest.chunks| else Last(Pulled(t)).Err?)
  }

  ghost predicate Inv(t: Transfer) {
    && Stored(t.manifest) && t.size == |Content(t.manifest)| && BlobsSound(t.blobs)
    && t.next <= |t.manifest.chunks|
    && |t.channel| <= VERSION_STREAM_CHUNKS
    && InOrder(t.received, t.manifest)
    && if t.hungUp then t.channel == [] else Flowing(t)
  }

  lemma SendKeepsFlowing(t: Transfer)
    requires Flowing(t) && Enabled(t, Send)
    ensures Flowing(Next(t, Send))
  {
    var u := Next(t, Send);
    assert Pulled(u) == Pulled(t);
    assert Last(Pulled(t)) == t.producer.item;
  }

  lemma PullKeepsFlowing(t: Transfer)
    requires Flowing(t) && Enabled(t, Pull) && BlobsSound(t.blobs)
    ensures Flowing(Next(t, Pull))
  {
    assert Pulled(Next(t, Pull)) == Pulled(t) + InHand(Next(t, Pull).producer);
  }

  lemma ReceiveKeepsFlowing(t: Transfer)
    requires Flowing(t) && Enabled(t, Receive)
    ensures Flowing(Next(t, Receive)) && InOrder(Next(t, Receive).received, t.manifest)
  {
    var u := Next(t, Receive);
    assert Pulled(u) == Pulled(t);
    assert forall i :: 0 <= i < |u.received| ==> u.received[i] == Pulled(t)[i];
  }

  lemma StepKeepsInv(t: Transfer, step: Step)
    requires Inv(t) && Enabled(t, step)
    ensures Inv(Next(t, step)) && Next(t, step).manifest == t.manifest
    ensures t.received <= Next(t, step).received
  {
    if !t.hungUp {
      match step
      case Pull => PullKeepsFlowing(t);
      case Send => SendKeepsFlowing(t);
      case Receive => ReceiveKeepsFlowing(t);
      case StoreChanges(_) => assert Pulled(Next(t, step)) == Pulled(t);
      case _ =>
    }
  }

  // ---- What the client gets ----

  function BytesOf(items: seq<Item>): seq<byte> {
    if items == [] then []
    else BytesOf(Init(items)) + (if Last(items).Ok? then Last(items).value else [])
  }

  lemma {:induction false} ItemsSpellPrefix(items: seq<Item>, m: Manifest)
    requires InOrder(items, m)
    ensures BytesOf(items) == ContentUpTo(m, if AllRead(items) then |items| else |items| - 1)
  {
    if items == [] {
      assert PiecesOf(m)[..0] == [];
    } else {
      ItemsSpellPrefix(Init(items), m);
      assert AllRead(Init(items));
      if Last(items).Ok? {
        assert AllRead(items);
        ContentStep(m, |items| - 1);
      } else {
        assert BytesOf(Init(items)) + [] == BytesOf(Init(items));
      }
    }
  }

  lemma OneMoreChunk(m: Manifest, j: nat, have: seq<byte>, more: seq<byte>)
    requires Stored(m) && j < |m.chunks|
    requires have == ContentUpTo(m, j) && more == ContentUpTo(m, j + 1)
    ensures have <= more && |have| < |more|
  {
    ContentStep(m, j);
    ChunkTiling(m, j);
  }

  lemma {:induction false} ContentGrows(m: Manifest, n: nat, k: nat)
    requires Stored(m) && n <= k <= |m.chunks|
    ensures ContentUpTo(m, n) <= ContentUpTo(m, k)
    ensures n < k ==> |ContentUpTo(m, n)| < |ContentUpTo(m, k)|
    decreases k - n
  {
    if n < k {
      OneMoreChunk(m, n, ContentUpTo(m, n), ContentUpTo(m, n + 1));
      ContentGrows(m, n + 1, k);
    }
  }

  /** At every moment what the client has received is a prefix of the version, and no more
      than four chunks are in flight. */
  lemma ReceivedIsPrefix(t: Transfer)
    requires Inv(t)
    ensures BytesOf(t.received) <= Content(t.manifest) && |t.channel| <= VERSION_STREAM_CHUNKS
  {
    var m := t.manifest;
    var n := if AllRead(t.received) then |t.received| else |t.received| - 1;
    ItemsSpellPrefix(t.received, m);
    ContentGrows(m, n, |m.chunks|);
    ContentUpToEnd(m);
  }

  predicate Drained(t: Transfer) {
    t.producer.Stopped? && t.channel == [] && !t.hungUp
  }

  /** When the stream has ended without a hang-up, the client has received exactly the
      version and the advertised number of bytes, or else an error as the last item and
      fewer bytes than advertised: a cut-off stream never passes for a whole one. */
  lemma DrainedIsWholeOrShort(t: Transfer)
    requires Inv(t) && Drained(t)
    ensures AllRead(t.received) <==> BytesOf(t.received) == Content(t.manifest)
    ensures AllRead(t.received) <==> |BytesOf(t.received)| == t.size
    ensures !AllRead(t.received) ==> Last(t.received).Err? && |BytesOf(t.received)| < t.size
  {
    var m := t.manifest;
    assert Pulled(t) == t.received;
    ItemsSpellPrefix(t.received, m);
    ContentUpToEnd(m);
    if !AllRead(t.received) {
      ContentGrows(m, |t.received| - 1, |m.chunks|);
    }
  }

  // ---- Whole runs ----

  ghost function Run(t: Transfer, steps: seq<Step>): Option<Transfer> {
    if steps == [] then Some(t)
    else match Run(t, Init(steps))
      case None => None
      case Some(u) => if Enabled(u, Last(steps)) then Some(Next(u, Last(steps))) else None
  }

  lemma {:induction false} RunKeepsInv(t: Transfer, steps: seq<Step>)
    requires Inv(t) && Run(t, steps).Some?
    ensures Inv(Run(t, steps).value) && Run(t, steps).value.manifest == t.manifest
  {
    if steps != [] {
      RunKeepsInv(t, Init(steps));
      StepKeepsInv(Run(t, Init(steps)).value, Last(steps));
    }
  }

  /** From opening a version on, whatever the scheduling and whatever happens to the store. */
  lemma StreamIsFaithful(t: Transfer, steps: seq<Step>)
    requires Begun(t) && Stored(t.manifest) && t.size == |Content(t.manifest)| && BlobsSound(t.blobs)
    requires Run(t, steps).Some?
    ensures var u := Run(t, steps).value;
      && BytesOf(u.received) <= Content(t.manifest)
      && |u.channel| <= 4
      && (Drained(u) ==> (AllRead(u.received) <==> |BytesOf(u.received)| == t.size))
      && (Drained(u) && AllRead(u.received) ==> BytesOf(u.received) == Content(t.manifest))
  {
    RunKeepsInv(t, steps);
    var u := Run(t, steps).value;
    ReceivedIsPrefix(u);
    if Drained(u) {
      DrainedIsWholeOrShort(u);
    }
  }

  /** Work left for the two tasks: chunks to pull, an item to send, items to receive. */
  function Work(t: Transfer): int {
    4 * (|t.manifest.chunks| - t.next) + |t.channel| +
    match t.producer
    case Stopped => 0
    case Pulling => 1
    case Sending(_) => 3
  }

  predicate Ended(t: Transfer) {
    t.producer.Stopped? && t.channel == []
  }

  /** A move of one of the two tasks, as opposed to the client or the store interfering. */
  predicate IsMove(step: Step) {
    !step.HangUp? && !step.StoreChanges?
  }

  /** Neither task waits for ever on the other: until the stream has ended one of them can
      move, and each move uses up work that nothing else adds to. */
  lemma StreamProgresses(t: Transfer, step: Step)
    requires Inv(t)
    ensures Work(t) >= 0
    ensures Ended(t) || Enabled(t, Pull) || Enabled(t, Send) || Enabled(t, NoticeHangUp) || Enabled(t, Receive)
    ensures Enabled(t, step) ==> Work(Next(t, step)) <= Work(t) - if IsMove(step) then 1 else 0
  {
  }

  function Moves(steps: seq<Step>): nat {
    if steps == [] then 0 else Moves(Init(steps)) + if IsMove(Last(steps)) then 1 else 0
  }

  lemma {:induction false} MovesUseUpWork(t: Transfer, steps: seq<Step>)
    requires Inv(t) && Run(t, steps).Some?
    ensures Moves(steps) + Work(Run(t, steps).value) <= Work(t)
  {
    if steps != [] {
      MovesUseUpWork(t, Init(steps));
      RunKeepsInv(t, Init(steps));
      StreamProgresses(Run(t, Init(steps)).value, Last(steps));
    }
  }

  /** Every stream ends: no run has more moves than four per chunk and one, and where no move
      is possible any more the stream has ended, whole or cut short if the client is still
      there. */
  lemma StreamEnds(t: Transfer, steps: seq<Step>)
    requires Begun(t) && Stored(t.manifest) && t.size == |Content(t.manifest)| && BlobsSound(t.blobs)
    requires Run(t, steps).Some?
    ensures Moves(steps) <= 4 * |t.manifest.chunks| + 1
    ensures var u := Run(t, steps).value;
      (forall step :: Enabled(u, step) ==> !IsMove(step)) ==>
        && Ended(u)
        && (!u.hungUp ==> if AllRead(u.received) then BytesOf(u.received) == Content(t.manifest)
                          else Last(u.received).Err? && |BytesOf(u.received)| < t.size)
  {
    MovesUseUpWork(t, steps);
    RunKeepsInv(t, steps);
    var u := Run(t, steps).value;
    StreamProgresses(u, HangUp);
    if forall step :: Enabled(u, step) ==> !IsMove(step) {
      assert !Enabled(u, Pull) && !Enabled(u, Send) && !Enabled(u, NoticeHangUp) && !Enabled(u, Receive);
      if !u.hungUp {
        SameSize(t, steps);
        DrainedIsWholeOrShort(u);
      }
    }
  }

  lemma {:induction false} SameSize(t: Transfer, steps: seq<Step>)
    requires Run(t, steps).Some?
    ensures Run(t, steps).value.size == t.size
  {
    if steps != [] {
      SameSize(t, Init(steps));
    }
  }

  // ---- Why a stream fails, and that it succeeds ----

  ghost predicate ThereAt(t: Transfer, steps: seq<Step>, k: nat, h: Hash)
    requires k <= |steps|
  {
    Run(t, steps[..k]).Some? && h in Run(t, steps[..k]).value.blobs
  }

  /** At some moment of the run the store answered for the chunk as the item says. */
  ghost predicate Answered(t: Transfer, steps: seq<Step>, h: Hash, item: Item) {
    exists k: nat :: k <= |steps| && (item.Ok? <==> ThereAt(t, steps, k, h))
  }

  ghost predicate AllAnswered(t: Transfer, steps: seq<Step>, items: seq<Item>) {
    |items| <= |t.manifest.chunks|
    && forall i :: 0 <= i < |items| ==> Answered(t, steps, t.manifest.chunks[i].hash, items[i])
  }

  /** What the client has, and, while it listens, all that was pulled. */
  function Seen(t: Transfer): seq<Item> {
    if t.hungUp then t.received else Pulled(t)
  }

  lemma AnsweredLater(t: Transfer, steps: seq<Step>, h: Hash, item: Item)
    requires steps != [] && Answered(t, Init(steps), h, item)
    ensures Answered(t, steps, h, item)
  {
    var k: nat :| k <= |Init(steps)| && (item.Ok? <==> ThereAt(t, Init(steps), k, h));
    assert Init(steps)[..k] == steps[..k];
    assert ThereAt(t, steps, k, h) == ThereAt(t, Init(steps), k, h);
  }

  lemma AnsweredNow(t: Transfer, steps: seq<Step>, h: Hash, item: Item)
    requires Run(t, steps).Some? && (item.Ok? <==> h in Run(t, steps).value.blobs)
    ensures Answered(t, steps, h, item)
  {
    assert steps[..|steps|] == steps;
    assert ThereAt(t, steps, |steps|, h) == (h in Run(t, steps).value.blobs);
  }

  lemma OnlyPullAdds(u: Transfer, step: Step)
    requires Enabled(u, step) && !step.Pull?
    ensures Seen(Next(u, step)) <= Seen(u)
  {
    match step
    case Send => assert Pulled(Next(u, step)) == Pulled(u);
    case Receive => assert Pulled(Next(u, step)) == Pulled(u);
    case NoticeHangUp =>
    case HangUp => assert Pulled(u) == u.received + (u.channel + InHand(u.producer));
    case StoreChanges(_) => assert Seen(Next(u, step)) == Seen(u);
  }

  /** A pull adds at most one item, and that is what the store answers for the next chunk. */
  lemma PullAddsAnswer(u: Transfer)
    requires Enabled(u, Pull) && (!u.hungUp ==> |Pulled(u)| == u.next)
    ensures var v := Next(u, Pull);
      || Seen(v) == Seen(u)
      || (u.next < |u.manifest.chunks| && v.blobs == u.blobs
          && Seen(v) == Seen(u) + [Last(Seen(v))] && |Seen(u)| == u.next
          && (Last(Seen(v)).Ok? <==> u.manifest.chunks[u.next].hash in u.blobs))
  {
    var v := Next(u, Pull);
    assert Pulled(v) == Pulled(u) + InHand(v.producer);
  }

  lemma AnsweredSoFar(t: Transfer, steps: seq<Step>, before: seq<Item>, after: seq<Item>)
    requires steps != [] && AllAnswered(t, Init(steps), before)
    requires after <= before
             || (|before| < |t.manifest.chunks| && after == before + [Last(after)] && Run(t, steps).Some?
                 && (Last(after).Ok? <==> t.manifest.chunks[|before|].hash in Run(t, steps).value.blobs))
    ensures AllAnswered(t, steps, after)
  {
    forall i | 0 <= i < |after| ensures Answered(t, steps, t.manifest.chunks[i].hash, after[i]) {
      if i < |before| {
        AnsweredLater(t, steps, t.manifest.chunks[i].hash, after[i]);
      } else {
        AnsweredNow(t, steps, t.manifest.chunks[i].hash, after[i]);
      }
    }
  }

  lemma {:induction false} SeenIsAnswered(t: Transfer, steps: seq<Step>)
    requires Inv(t) && Begun(t) && Run(t, steps).Some?
    ensures AllAnswered(t, steps, Seen(Run(t, steps).value))
  {
    if steps != [] {
      var u, v := Run(t, Init(steps)).value, Run(t, steps).value;
      SeenIsAnswered(t, Init(steps));
      RunKeepsInv(t, Init(steps));
      if Last(steps).Pull? {
        PullAddsAnswer(u);
      } else {
        OnlyPullAdds(u, Last(steps));
      }
      AnsweredSoFar(t, steps, Seen(u), Seen(v));
    }
  }

  /** No error is made up, and no chunk either: an error in place of chunk `i` means that the
      blob of just that chunk was missing at some moment of the run, and bytes in its place
      that it was there at some moment. */
  lemma ErrorMeansMissing(t: Transfer, steps: seq<Step>, i: nat)
    requires Begun(t) && Stored(t.manifest) && t.size == |Content(t.manifest)| && BlobsSound(t.blobs)
    requires Run(t, steps).Some? && i < |Run(t, steps).value.received|
    ensures i < |t.manifest.chunks|
    ensures var h, item := t.manifest.chunks[i].hash, Run(t, steps).value.received[i];
      exists k: nat :: k <= |steps| && (item.Ok? <==> ThereAt(t, steps, k, h))
  {
    SeenIsAnswered(t, steps);
    var u := Run(t, steps).value;
    assert Seen(u)[i] == u.received[i];
    assert Answered(t, steps, t.manifest.chunks[i].hash, u.received[i]);
  }

  /** The version's blobs stay in the store. */
  ghost predicate StaysStored(m: Manifest, steps: seq<Step>) {
    forall i :: 0 <= i < |steps| && steps[i].StoreChanges? ==> Hashes(m) <= steps[i].blobs.Keys
  }

  predicate Listens(steps: seq<Step>) {
    HangUp !in steps
  }

  lemma {:induction false} PrefixRuns(t: Transfer, steps: seq<Step>, k: nat)
    requires k <= |steps| && Run(t, steps).Some?
    ensures Run(t, steps[..k]).Some?
  {
    if k < |steps| {
      PrefixRuns(t, Init(steps), k);
      assert Init(steps)[..k] == steps[..k];
    } else {
      assert steps[..k] == steps;
    }
  }

  lemma {:induction false} StaysThere(t: Transfer, steps: seq<Step>)
    requires Run(t, steps).Some?
    requires Hashes(t.manifest) <= t.blobs.Keys && StaysStored(t.manifest, steps)
    ensures Hashes(t.manifest) <= Run(t, steps).value.blobs.Keys
  {
    if steps != [] {
      assert Last(steps) == steps[|steps| - 1];
      StaysThere(t, Init(steps));
    }
  }

  lemma {:induction false} NobodyHangsUp(t: Transfer, steps: seq<Step>)
    requires Begun(t) && Run(t, steps).Some? && Listens(steps)
    ensures !Run(t, steps).value.hungUp
  {
    if steps != [] {
      assert steps == Init(steps) + [Last(steps)];
      NobodyHangsUp(t, Init(steps));
    }
  }

  lemma NothingMissing(t: Transfer, steps: seq<Step>)
    requires Inv(t) && Begun(t) && Run(t, steps).Some?
    requires Hashes(t.manifest) <= t.blobs.Keys && StaysStored(t.manifest, steps)
    ensures AllRead(Run(t, steps).value.received)
  {
    var u := Run(t, steps).value;
    SeenIsAnswered(t, steps);
    forall i | 0 <= i < |u.received| ensures u.received[i].Ok? {
      assert Seen(u)[i] == u.received[i];
      var h := t.manifest.chunks[i].hash;
      var k: nat :| k <= |steps| && (u.received[i].Ok? <==> ThereAt(t, steps, k, h));
      PrefixRuns(t, steps, k);
      StaysThere(t, steps[..k]);
      assert h in Hashes(t.manifest);
    }
  }

  /** A download succeeds: to a client that listens, of a version whose blobs stay in the
      store, every scheduling ends with the whole version delivered, and until then one of
      the two tasks can move. */
  lemma StreamSucceeds(t: Transfer, steps: seq<Step>)
    requires Begun(t) && Stored(t.manifest) && t.size == |Content(t.manifest)| && BlobsSound(t.blobs)
    requires Run(t, steps).Some? && Listens(steps)
    requires Hashes(t.manifest) <= t.blobs.Keys && StaysStored(t.manifest, steps)
    ensures var u := Run(t, steps).value;
      if Drained(u) then BytesOf(u.received) == Content(t.manifest)
      else Enabled(u, Pull) || Enabled(u, Send) || Enabled(u, Receive)
  {
    RunKeepsInv(t, steps);
    NobodyHangsUp(t, steps);
    NothingMissing(t, steps);
    var u := Run(t, steps).value;
    if Drained(u) {
      DrainedIsWholeOrShort(u);
    } else {
      StreamProgresses(u, HangUp);
    }
  }

  /** A stream can be cut short: wherever the first chunk's blob is lost before it is read, the
      client gets the error of reading it, and nothing else. */
  lemma LossCutsStream(t: Transfer) returns (steps: seq<Step>)
    requires Begun(t) && t.manifest.chunks != []
    ensures Run(t, steps).Some? && Drained(Run(t, steps).value)
    ensures Run(t, steps).value.received == [Err(BlobMissing)]
  {
    var lost := RunOn(t, [], StoreChanges(map[]));
    var pulled := RunOn(t, lost, Pull);
    var sent := RunOn(t, pulled, Send);
    steps := RunOn(t, sent, Receive);
  }

  lemma RunOn(t: Transfer, steps: seq<Step>, step: Step) returns (more: seq<Step>)
    requires Run(t, steps).Some? && Enabled(Run(t, steps).value, step)
    ensures Run(t, more) == Some(Next(Run(t, steps).value, step))
  {
    more := steps + [step];
    assert Init(more) == steps && Last(more) == step;
  }
}
