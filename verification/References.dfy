// Which blobs the metadata tables refer to, and how statements change that.
module References {
  import opened Base
  import opened Manifests
  import opened MetaTables
  import opened VersionHistory

  /** Every hash that some version refers to has a blob. */
  ghost predicate NothingDangles(blobs: map<Hash, seq<byte>>, tables: Tables) {
    Referenced(tables) <= blobs.Keys
  }

  /** Only writing content adds references. */
  lemma UnguardedAddsNoReference(t: Tables, op: MetaOp)
    requires !op.WriteOp?
    ensures Referenced(Apply(t, op)) <= Referenced(t)
  {
    forall h | h in Referenced(Apply(t, op)) ensures h in Referenced(t) {
      var u := Apply(t, op);
      var v, i :| v in u.chunks && 0 <= i < |u.chunks[v]| && u.chunks[v][i].hash == h;
      assert v in t.chunks && t.chunks[v][i].hash == h;
    }
  }

  lemma WriteAddsItsHashes(t: Tables, id: nat, m: Manifest)
    ensures Referenced(SetContent(t, id, m).0) <= Referenced(t) + Hashes(m)
  {
    var u := SetContent(t, id, m).0;
    forall h | h in Referenced(u) ensures h in Referenced(t) + Hashes(m) {
      var v, i :| v in u.chunks && 0 <= i < |u.chunks[v]| && u.chunks[v][i].hash == h;
      if v in t.chunks && u.chunks[v] == t.chunks[v] {
        assert Refers(t, h);
      } else {
        assert m.chunks[i].hash == h;
      }
    }
  }

  lemma {:induction false} DecodedHashes(rows: seq<ChunkRow>)
    ensures |DecodeRows(rows).chunks| == |rows|
    ensures forall i :: 0 <= i < |rows| ==> DecodeRows(rows).chunks[i].hash == rows[i].hash
  {
    if rows != [] {
      DecodedHashes(Init(rows));
    }
  }

  lemma ManifestHashesAreReferenced(t: Tables, v: nat)
    ensures Hashes(ManifestAt(t, v)) <= Referenced(t)
  {
    if v in t.chunks {
      DecodedHashes(t.chunks[v]);
      forall h | h in Hashes(ManifestAt(t, v)) ensures h in Referenced(t) {
        var i :| 0 <= i < |ManifestAt(t, v).chunks| && ManifestAt(t, v).chunks[i].hash == h;
        assert t.chunks[v][i].hash == h;
      }
    }
  }

  lemma LoadedManifestIsStored(t: Tables, v: nat)
    requires TablesOk(t)
    ensures Stored(ManifestAt(t, v))
  {
    if v !in t.chunks {
      EmptyIsStored();
    }
  }

  lemma EmptyIsStored()
    ensures Stored(EMPTY_MANIFEST) && Content(EMPTY_MANIFEST) == [] && Hashes(EMPTY_MANIFEST) == {}
  {
    ManifestOfIsStored([]);
    assert ManifestOf([]) == EMPTY_MANIFEST;
  }
}
