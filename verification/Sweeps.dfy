// The sweep loop of garbage collection and its accounting (vfs crate, davfs.rs).
module Sweeps {
  import opened Base
  import opened Manifests

  datatype GcStats = GcStats(scanned: nat, kept: nat, removed: nat, reclaimed: nat, failed: nat)

  const NO_STATS := GcStats(0, 0, 0, 0, 0)

  /** One turn of the sweep loop. `kept` is not reported by the code; it counts the blobs
      passed over because they are live. */
  function SweepOne(blobs: map<Hash, seq<byte>>, live: set<Hash>, h: Hash, fails: bool, stats: GcStats):
      (map<Hash, seq<byte>>, GcStats)
  {
    var seen := stats.(scanned := stats.scanned + 1);
    if h in live then (blobs, seen.(kept := stats.kept + 1))
    else if h !in blobs then (blobs, seen.(removed := stats.removed + 1))
    else if fails then (blobs, seen.(failed := stats.failed + 1))
    else (blobs - {h}, seen.(removed := stats.removed + 1, reclaimed := stats.reclaimed + |blobs[h]|))
  }

  /** The whole loop over a listing; blobs in `failing` cannot be deleted. */
  function SweepAll(blobs: map<Hash, seq<byte>>, live: set<Hash>, listed: seq<Hash>, failing: set<Hash>):
      (map<Hash, seq<byte>>, GcStats)
  {
    if listed == [] then (blobs, NO_STATS)
    else
      var (rest, stats) := SweepAll(blobs, live, Init(listed), failing);
      SweepOne(rest, live, Last(listed), Last(listed) in failing, stats)
  }

  /** What a sweep deletes. */
  function Dropped(live: set<Hash>, listed: seq<Hash>, failing: set<Hash>): set<Hash> {
    set h | h in listed && h !in live && h !in failing
  }

  function TotalBytes(blobs: map<Hash, seq<byte>>, hashes: seq<Hash>): nat {
    if hashes == [] then 0
    else TotalBytes(blobs, Init(hashes)) + if Last(hashes) in blobs then |blobs[Last(hashes)]| else 0
  }

  lemma {:induction false} TotalBytesWithout(blobs: map<Hash, seq<byte>>, hashes: seq<Hash>, h: Hash)
    requires forall i, j :: 0 <= i < j < |hashes| ==> hashes[i] != hashes[j]
    ensures TotalBytes(blobs, hashes) ==
            TotalBytes(blobs - {h}, hashes) + if h in hashes && h in blobs then |blobs[h]| else 0
  {
    if hashes != [] {
      TotalBytesWithout(blobs, Init(hashes), h);
      assert hashes == Init(hashes) + [Last(hashes)];
    }
  }

  /** The bytes that blobs of these names hold. */
  ghost function SetBytes(hashes: set<Hash>): nat {
    if hashes == {} then 0
    else
      var h :| h in hashes;
      |h.preimage| + SetBytes(hashes - {h})
  }

  lemma {:induction false} SetBytesAdd(hashes: set<Hash>, h: Hash)
    requires h !in hashes
    ensures SetBytes(hashes + {h}) == SetBytes(hashes) + |h.preimage|
    decreases |hashes|
  {
    var all := hashes + {h};
    var first :| first in all && SetBytes(all) == |first.preimage| + SetBytes(all - {first});
    if first == h {
      assert all - {first} == hashes;
    } else {
      assert all - {first} == (hashes - {first}) + {h};
      SetBytesAdd(hashes - {first}, h);
      SetBytesAdd(hashes - {first}, first);
      assert (hashes - {first}) + {first} == hashes;
    }
  }

  /** A listing without repeats of blobs on disk. */
  ghost predicate Listing(blobs: map<Hash, seq<byte>>, listed: seq<Hash>) {
    && (forall h :: h in listed ==> h in blobs)
    && (forall i, j :: 0 <= i < j < |listed| ==> listed[i] != listed[j])
  }

  lemma ListingInit(blobs: map<Hash, seq<byte>>, listed: seq<Hash>)
    requires Listing(blobs, listed) && listed != []
    ensures Listing(blobs, Init(listed)) && Last(listed) in blobs && Last(listed) !in Init(listed)
    ensures forall h :: h in listed <==> h in Init(listed) || h == Last(listed)
  {
    assert listed == Init(listed) + [Last(listed)];
  }

  lemma DroppedSnoc(blobs: map<Hash, seq<byte>>, live: set<Hash>, listed: seq<Hash>, failing: set<Hash>)
    requires Listing(blobs, listed) && listed != []
    ensures var h, front := Last(listed), Dropped(live, Init(listed), failing);
      && h !in front
      && Dropped(live, listed, failing) == front + if h !in live && h !in failing then {h} else {}
  {
    ListingInit(blobs, listed);
  }

  /** A sweep deletes exactly the listed dead blobs whose deletion works. */
  lemma {:induction false} SweepDeletes(blobs: map<Hash, seq<byte>>, live: set<Hash>, listed: seq<Hash>,
                                        failing: set<Hash>)
    requires Listing(blobs, listed)
    ensures SweepAll(blobs, live, listed, failing).0 == blobs - Dropped(live, listed, failing)
  {
    if listed == [] {
      assert Dropped(live, listed, failing) == {};
    } else {
      ListingInit(blobs, listed);
      SweepDeletes(blobs, live, Init(listed), failing);
      DroppedSnoc(blobs, live, listed, failing);
    }
  }

  /** What a collection that missed `unreadable` blobs leaves on disk: the live set, and of
      the rest only what could not be read or deleted. */
  lemma SweepLeaves(blobs: map<Hash, seq<byte>>, live: set<Hash>, listed: seq<Hash>, unreadable: set<Hash>,
                    failing: set<Hash>)
    requires Listing(blobs, listed) && live <= blobs.Keys
    requires forall h :: h in listed <==> h in blobs.Keys - unreadable
    ensures SweepAll(blobs, live, listed, failing).0.Keys == live + blobs.Keys * (unreadable + failing)
  {
    SweepDeletes(blobs, live, listed, failing);
  }

  /** Every listed blob is counted once, as kept, removed or failed; the removed ones are
      those deleted; and the bytes on disk before, summed over any list of the blobs without
      repeats, are those left plus those reported reclaimed. */
  lemma {:induction false} SweepAccounts(blobs: map<Hash, seq<byte>>, live: set<Hash>, listed: seq<Hash>,
                                         failing: set<Hash>, all: seq<Hash>)
    requires Listing(blobs, listed) && Listing(blobs, all) && forall h :: h in listed ==> h in all
    ensures var (left, stats) := SweepAll(blobs, live, listed, failing);
      && stats.scanned == |listed| == stats.kept + stats.removed + stats.failed
      && stats.removed == |Dropped(live, listed, failing)|
      && TotalBytes(blobs, all) == TotalBytes(left, all) + stats.reclaimed
  {
    if listed == [] {
      assert Dropped(live, listed, failing) == {};
    } else {
      ListingInit(blobs, listed);
      SweepAccounts(blobs, live, Init(listed), failing, all);
      SweepDeletes(blobs, live, Init(listed), failing);
      DroppedSnoc(blobs, live, listed, failing);
      TotalBytesWithout(SweepAll(blobs, live, Init(listed), failing).0, all, Last(listed));
    }
  }

  /** The same for the listing itself, with the removed ones counted as the blobs gone. */
  lemma SweepCounts(blobs: map<Hash, seq<byte>>, live: set<Hash>, listed: seq<Hash>, failing: set<Hash>)
    requires Listing(blobs, listed)
    ensures var (left, stats) := SweepAll(blobs, live, listed, failing);
      && stats.scanned == |listed| == stats.kept + stats.removed + stats.failed
      && stats.removed == |blobs.Keys - left.Keys|
      && TotalBytes(blobs, listed) == TotalBytes(left, listed) + stats.reclaimed
  {
    SweepAccounts(blobs, live, listed, failing, listed);
    SweepDeletes(blobs, live, listed, failing);
    assert blobs.Keys - SweepAll(blobs, live, listed, failing).0.Keys == Dropped(live, listed, failing);
  }

  /** Collecting again removes nothing as long as every blob on disk is live: that is so
      after a complete collection if no reference was dropped since its mark and every blob
      stored since is referenced. */
  lemma {:induction false} SweepOfLiveBlobsIsIdle(blobs: map<Hash, seq<byte>>, live: set<Hash>, listed: seq<Hash>,
                                                  failing: set<Hash>)
    requires blobs.Keys <= live
    requires forall h :: h in listed ==> h in blobs
    ensures var (left, stats) := SweepAll(blobs, live, listed, failing);
      left == blobs && stats == GcStats(|listed|, |listed|, 0, 0, 0)
  {
    if listed != [] {
      SweepOfLiveBlobsIsIdle(blobs, live, Init(listed), failing);
    }
  }

  lemma SecondSweepIsIdle(blobs: map<Hash, seq<byte>>, live: set<Hash>, listed: seq<Hash>,
                          blobs': map<Hash, seq<byte>>, live': set<Hash>, listed': seq<Hash>, failing: set<Hash>)
    requires Listing(blobs, listed) && forall h :: h in blobs ==> h in listed
    requires live <= live'
    requires blobs'.Keys <= SweepAll(blobs, live, listed, {}).0.Keys + live'
    requires Listing(blobs', listed')
    ensures SweepAll(blobs', live', listed', failing).0 == blobs'
    ensures SweepAll(blobs', live', listed', failing).1.removed == 0
  {
    SweepDeletes(blobs, live, listed, {});
    SweepOfLiveBlobsIsIdle(blobs', live', listed', failing);
  }
}
