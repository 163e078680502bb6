/** Where the store's crash tolerance ends: the two windows in which it does not keep what it keeps elsewhere,
    each with the exact condition. */
module CrashWindows {
  import opened Wrappers
  import opened Payload
  import opened Disk
  import opened Artifact

  // ---------------------------------------------------------------- sizes that lie

  /** A publish killed between its rename and its commit can be finished exactly when the manifest's sizes
      are those of the content it hashes: publishing checks hashes only, recovery checks sizes. */
  lemma InterruptedPublishFinishesIffHonest(chunkBytes: nat, it: Item)
    requires Ok(chunkBytes, it) && it.row.Some? && it.row.value.state == Publishing
    requires it.f.staging.None? && it.f.live.Some? && Verified(it.row.value.manifest, it.f.live.value.vol)
    ensures Recoverable(it) <==> Honest(it.row.value.manifest)
  {
    VerifiedIsCompleteIffHonest(it.row.value.manifest, it.f.live.value.vol);
  }

  // ---------------------------------------------------------------- renames that are lost

  /** The receipts a start-up pass leaves: those that staged bytes bear out. */
  ghost function Surviving(it: Item): Receipts {
    map c | c in it.rc && Staged(it, c) :: it.rc[c]
  }

  /** A start-up pass goes over the receipts before it makes a rename durable. If power is lost after that,
      acknowledged chunks can be lost exactly when the rename was not durable and some acknowledged chunk is not in
      the staging tree. */
  lemma ReceiptsOutliveTheNextCrashIff(chunkBytes: nat, it: Item)
    requires Ok(chunkBytes, it) && AckedOk(it) && it.row.Some? && Dependable(it.row.value.manifest)
    ensures (forall g | CrashFiles(it.f, g) :: AckedOk(it.(rc := Surviving(it), f := g)))
         <==> (!it.f.moved || forall c | c in it.acked :: c in it.rc && it.rc[c] == it.acked[c] && Staged(it, c))
  {
    if it.f.moved {
      var v := it.f.live.value.vol;
      var g := Files(Some(Image(v, v)), None, false, None, None);
      assert CrashTree(it.f.live.value, v);
      assert CrashFiles(it.f, g);
    } else {
      forall g | CrashFiles(it.f, g) ensures AckedOk(it.(rc := Surviving(it), f := g)) {
        if !LiveStable(it.f) {
          assert forall c | c in it.rc :: Staged(it, c);
        }
      }
    }
  }

  /** What the pass after that does to the payload: an upload without receipts is cut down to empty files. */
  lemma NoReceiptsNoBytes(it: Item, e: Entry)
    requires Resumable(it) && it.rc == map[] && e in it.row.value.manifest && e.File?
    ensures it.f.staging.value.vol[e.path].Regular? ==> it.f.staging.value.vol[e.path].bytes == []
  {
    assert PathTrimmed(it.rc, it.f, e.path);
  }
}
