/** One artifact: its row and receipts in the database, its trees on disk, and the invariant that ties them
    together. Everything here is about values; the store that changes them is in ArtifactStore. */
module Artifact {
  import opened Wrappers
  import opened Payload
  import opened Disk
  import Chunks

  datatype State = Uploading | Publishing | Ready

  datatype Row = Row(
    owner: string, manifest: Manifest, state: State, reserved: nat, lastActivity: int, expires: Option<int>)

  /** `acked` is history: the chunks whose upload was acknowledged. */
  datatype Item = Item(row: Option<Row>, rc: Receipts, f: Files, acked: Receipts)

  /** What a row was created with; only its state and its activity time ever change. */
  function Origin(row: Row): Row { row.(state := Uploading, lastActivity := 0) }

  // ---------------------------------------------------------------- the invariant

  /** Every receipt is for a manifest file, on that file's grid. */
  ghost predicate ReceiptsOnGrid(chunkBytes: nat, m: Manifest, rc: Receipts) {
    forall c | c in rc :: exists e | e in m ::
      e.File? && e.path == c.path && Chunks.ValidateChunkRange(chunkBytes, e.size, c.offset, rc[c].length).Accepted?
  }

  /** A live tree is never written: what is cached is a part of what is durable. */
  ghost predicate Frozen(img: Image) {
    forall p | p in img.vol :: p in img.dur && img.vol[p] == img.dur[p]
  }

  /** No live tree, and no remains of one, ever contradicts the manifest. */
  ghost predicate LiveIsSound(m: Manifest, f: Files) {
    && (f.live.Some? ==> Frozen(f.live.value) && Sound(m, f.live.value.dur))
    && (f.lostLive.Some? ==> Sound(m, f.lostLive.value))
    && (f.moved ==> f.live.Some?)
  }

  /** The live tree is there for good: its name is durable. */
  predicate LiveStable(f: Files) { f.live.Some? && !f.moved }

  /** The tree that holds the uploaded bytes until the rename to live is durable. */
  function UploadTree(f: Files): Option<Image> { if f.moved then f.live else f.staging }

  ghost predicate BothGood(rc: Receipts, img: Image) { AllGood(rc, img.vol) && AllGood(rc, img.dur) }

  ghost predicate ReadyOk(m: Manifest, rc: Receipts, f: Files) {
    LiveStable(f) && Verified(m, f.live.value.vol) && rc == map[]
  }

  /** For a dependable manifest: a live tree is whole and none is that of an upload, and until its name is durable
      every receipt is backed by cached and durable bytes. */
  ghost predicate DependableOk(row: Row, rc: Receipts, f: Files) {
    && f.lostLive.None?
    && (f.live.Some? ==> Verified(row.manifest, f.live.value.vol))
    && (f.moved ==> row.state == Publishing)
    && (row.state == Uploading ==> f.live.None?)
    && (!LiveStable(f) && rc != map[] ==> UploadTree(f).Some? && BothGood(rc, UploadTree(f).value))
  }

  /** What may be at an entry's path: a directory for a directory, else a file no longer than declared. */
  predicate FitsEntry(e: Entry, t: Tree) {
    e.path in t ==> if e.Dir? then t[e.path].Folder? else t[e.path].Regular? && |t[e.path].bytes| <= e.size
  }

  ghost predicate Fits(m: Manifest, t: Tree) { forall e {:trigger FitsEntry(e, t)} | e in m :: FitsEntry(e, t) }

  /** Every tree, cached, durable or left over, has the manifest's shape. */
  ghost predicate Shaped(m: Manifest, f: Files) {
    && (f.staging.Some? ==> Fits(m, f.staging.value.vol) && Fits(m, f.staging.value.dur))
    && (f.live.Some? ==> Fits(m, f.live.value.vol) && Fits(m, f.live.value.dur))
    && (f.lostStaging.Some? ==> Fits(m, f.lostStaging.value)) && (f.lostLive.Some? ==> Fits(m, f.lostLive.value))
  }

  lemma PartFits(m: Manifest, t: Tree, whole: Tree)
    requires Fits(m, whole) && forall p | p in t :: p in whole && t[p] == whole[p]
    ensures Fits(m, t)
  {
    forall e | e in m ensures FitsEntry(e, t) { assert FitsEntry(e, whole); }
  }

  /** One node changes, to one that fits every entry of its path. */
  lemma NodeFits(m: Manifest, t: Tree, p: Path, node: Node)
    requires Fits(m, t) && forall e | e in m && e.path == p :: FitsEntry(e, t[p := node])
    ensures Fits(m, t[p := node])
  {
    forall e | e in m ensures FitsEntry(e, t[p := node]) {
      if e.path != p { assert FitsEntry(e, t); }
    }
  }

  lemma CrashKeepsFits(m: Manifest, img: Image, t: Tree)
    requires Fits(m, img.vol) && Fits(m, img.dur) && CrashTree(img, t)
    ensures Fits(m, t)
  {
    forall e | e in m ensures FitsEntry(e, t) {
      assert FitsEntry(e, img.vol) && FitsEntry(e, img.dur);
    }
  }

  lemma CrashKeepsShaped(m: Manifest, f: Files, g: Files)
    requires Shaped(m, f) && CrashFiles(f, g) && (f.moved ==> f.live.Some?)
    ensures Shaped(m, g)
  {
    hide Fits;
    forall img: Image, t: Tree | Fits(m, img.vol) && Fits(m, img.dur) && CrashTree(img, t) ensures Fits(m, t) {
      CrashKeepsFits(m, img, t);
    }
    forall whole: Tree, t: Tree | Fits(m, whole) && Remains(Some(whole), t) ensures Fits(m, t) {
      PartFits(m, t, whole);
    }
  }

  ghost predicate Ok(chunkBytes: nat, it: Item) {
    it.row.Some? ==>
      var row := it.row.value;
      && DistinctPaths(row.manifest)
      && ReceiptsOnGrid(chunkBytes, row.manifest, it.rc)
      && LiveIsSound(row.manifest, it.f)
      && Shaped(row.manifest, it.f)
      && (row.state == Ready ==> ReadyOk(row.manifest, it.rc, it.f))
      && (Dependable(row.manifest) ==> DependableOk(row, it.rc, it.f))
  }

  /** Every acknowledged chunk of a dependable upload has its receipt, or the whole payload is live for good. */
  ghost predicate AckedOk(it: Item) {
    it.row.Some? && Dependable(it.row.value.manifest) ==>
      LiveStable(it.f) || forall c | c in it.acked :: c in it.rc && it.rc[c] == it.acked[c]
  }

  /** The acknowledged chunks whose promise still stands: all, unless the upload is dependable and not live for good;
      then those that have their receipt. */
  ghost function StillHeld(it: Item, was: Receipts): Receipts {
    if it.row.Some? && Dependable(it.row.value.manifest) && !LiveStable(it.f)
    then map c | c in was && c in it.rc && it.rc[c] == was[c] :: was[c]
    else was
  }

  lemma AckedOkIffHeld(it: Item, was: Receipts)
    ensures AckedOk(it.(acked := was)) <==> StillHeld(it, was) == was
    ensures AckedOk(it.(acked := StillHeld(it, was)))
  {
  }

  // ------------------------------------------------------- what the invariant means

  /** What a reader of a published artifact relies on. */
  ghost predicate SafelyPublished(m: Manifest, f: Files) {
    && LiveStable(f)
    && Verified(m, f.live.value.vol) && Verified(m, f.live.value.dur)
  }

  lemma ReadyIsSafe(chunkBytes: nat, it: Item)
    requires Ok(chunkBytes, it) && it.row.Some? && it.row.value.state == Ready
    ensures SafelyPublished(it.row.value.manifest, it.f)
    ensures Complete(it.row.value.manifest, it.f.live.value.vol) <==> Honest(it.row.value.manifest)
    ensures Complete(it.row.value.manifest, it.f.live.value.dur) <==> Honest(it.row.value.manifest)
  {
    VerifiedIsCompleteIffHonest(it.row.value.manifest, it.f.live.value.vol);
    VerifiedIsCompleteIffHonest(it.row.value.manifest, it.f.live.value.dur);
  }

  /** What is declared shorter than it is cannot pass the hash check. */
  lemma HopelessIsNeverVerified(m: Manifest, t: Tree)
    requires Hopeless(m) && Fits(m, t)
    ensures !Verified(m, t)
  {
    var e :| e in m && e.File? && e.size < |e.sha256.preimage|;
    assert FitsEntry(e, t);
  }

  /** A dependable upload has no live tree, or a whole one of an honest manifest. */
  lemma DependableLiveIsComplete(chunkBytes: nat, it: Item)
    requires Ok(chunkBytes, it) && it.row.Some? && Dependable(it.row.value.manifest) && it.f.live.Some?
    ensures Honest(it.row.value.manifest) && Complete(it.row.value.manifest, it.f.live.value.vol)
  {
    if Hopeless(it.row.value.manifest) { HopelessIsNeverVerified(it.row.value.manifest, it.f.live.value.vol); }
    VerifiedIsCompleteIffHonest(it.row.value.manifest, it.f.live.value.vol);
  }

  /** No upload owns a whole payload: no reachable state has the live tree that a start-up pass would adopt. */
  lemma UploadOwnsNoPayload(chunkBytes: nat, it: Item)
    requires Ok(chunkBytes, it) && it.row.Some? && it.row.value.state == Uploading && it.f.live.Some?
    ensures !Dependable(it.row.value.manifest) && !Complete(it.row.value.manifest, it.f.live.value.vol)
  {
    if Complete(it.row.value.manifest, it.f.live.value.vol) {
      CompleteAndSoundIsVerified(it.row.value.manifest, it.f.live.value.vol);
      VerifiedIsCompleteIffHonest(it.row.value.manifest, it.f.live.value.vol);
    }
  }

  /** Where an acknowledged chunk is safe: matching bytes behind its receipt, cached and durable, or the
      whole payload live. */
  ghost predicate ChunkSafe(it: Item, c: Cell, r: Receipt) {
    || (LiveStable(it.f) && it.row.Some? && Verified(it.row.value.manifest, it.f.live.value.dur))
    || (c in it.rc && it.rc[c] == r && UploadTree(it.f).Some?
        && Good(UploadTree(it.f).value.vol, c, r) && Good(UploadTree(it.f).value.dur, c, r))
  }

  lemma AckedIsSafe(chunkBytes: nat, it: Item, c: Cell)
    requires Ok(chunkBytes, it) && AckedOk(it) && it.row.Some? && Dependable(it.row.value.manifest)
    requires c in it.acked
    ensures ChunkSafe(it, c, it.acked[c])
  {
  }

  // ---------------------------------------------------------------- start-up

  ghost predicate Staged(it: Item, c: Cell) {
    c in it.rc && it.f.staging.Some? && Good(it.f.staging.value.vol, c, it.rc[c])
  }

  /** No staged byte of the path lies beyond its last receipt. */
  ghost predicate PathTrimmed(rc: Receipts, f: Files, p: Path) {
    f.staging.Some? && p in f.staging.value.vol && f.staging.value.vol[p].Regular? && f.staging.value.vol[p].bytes != [] ==>
      exists c :: c in rc && c.path == p && |f.staging.value.vol[p].bytes| <= c.offset + rc[c].length
  }

  /** An upload its client can go on with: a node for every entry, only receipts that the staged bytes
      bear out, no bytes beyond them. */
  ghost predicate Resumable(it: Item) {
    && it.row.Some? && it.row.value.state == Uploading && it.f.staging.Some?
    && (forall e | e in it.row.value.manifest :: e.path in it.f.staging.value.vol)
    && (forall c | c in it.rc :: Staged(it, c))
    && (forall e | e in it.row.value.manifest && e.File? :: PathTrimmed(it.rc, it.f, e.path))
  }

  /** A start-up pass has nothing left to do for the row. */
  ghost predicate Settled(it: Item) {
    it.row.Some? &&
    match it.row.value.state
    case Ready => it.f.staging.None?
    case Uploading => it.f.live.None? && Resumable(it)
    case Publishing => false
  }

  /** The payload of a publishing row is already live. */
  ghost predicate FinishedOnDisk(it: Item) {
    && it.row.Some? && it.row.value.state == Publishing
    && it.f.live.Some? && Complete(it.row.value.manifest, it.f.live.value.vol)
  }

  /** A publishing row can still be finished: its payload is live, or is staged whole. */
  ghost predicate Recoverable(it: Item) {
    it.row.Some? &&
    var m := it.row.value.manifest;
    || (it.f.live.Some? && Complete(m, it.f.live.value.vol))
    || (it.f.staging.Some? && Complete(m, it.f.staging.value.vol) && Verified(m, it.f.staging.value.vol))
  }

  /** A publish that was cut short left a live tree which the size check rejects. */
  ghost predicate HalfLive(it: Item) {
    && it.row.Some? && it.row.value.state == Publishing
    && it.f.live.Some? && !Complete(it.row.value.manifest, it.f.live.value.vol)
  }

  /** An upload owns such a tree. */
  ghost predicate Discards(it: Item) {
    && it.row.Some? && it.row.value.state == Uploading
    && it.f.live.Some? && !Complete(it.row.value.manifest, it.f.live.value.vol)
  }

  /** A publishing row that has content to publish, but neither a receipt nor a live tree. */
  ghost predicate Stripped(it: Item) {
    && it.row.Some? && it.row.value.state == Publishing && it.f.live.None? && it.rc == map[]
    && exists e | e in it.row.value.manifest :: e.File? && e.size > 0
  }

  /** Row, receipts and trees are the same. */
  ghost predicate SameStored(a: Item, b: Item) { a.row == b.row && a.rc == b.rc && a.f == b.f }

  /** What a start-up pass without faults makes of a row: published or resumable; an upload stays one, a publishing row
      whose payload is live is published and one without a receipt for its content goes back to uploading; with nothing
      left to do exactly if it was not half-way live, whose live tree stays for the next pass to discard together with the
      receipts; and unchanged exactly if nothing was to be done. */
  ghost predicate StartedUp(before: Item, after: Item) {
    && before.row.Some? && after.row.Some? && (after.row.value.state == Ready || Resumable(after))
    && (before.row.value.state == Uploading ==> after.row == before.row)
    && (FinishedOnDisk(before) ==> after.row.value.state == Ready)
    && (Stripped(before) ==> after.row.value.state == Uploading)
    && (Settled(after) <==> !HalfLive(before))
    && (HalfLive(before) ==> after.row.value.state == Uploading && after.f.live == before.f.live)
    && (Discards(before) ==> after.rc == map[])
    && (SameStored(before, after) <==> Settled(before))
  }

  // ---------------------------------------------------------------- crashes

  lemma FrozenTreeAfterCrash(img: Image, t: Tree)
    requires Frozen(img) && CrashTree(img, t)
    ensures forall p | p in t :: p in img.dur && t[p] == img.dur[p]
    ensures forall p | p in img.vol :: p in t && t[p] == img.vol[p]
  {
    forall p | p in img.vol ensures p in t && t[p] == img.vol[p] {
      if img.vol[p].Regular? {
        assert CrashBytes(img.vol[p].bytes, img.vol[p].bytes, t[p].bytes);
        assert t[p].bytes == img.vol[p].bytes;
      }
    }
  }

  /** Whatever a crash does to the files, the invariant survives it. */
  lemma CrashKeepsOk(chunkBytes: nat, it: Item, g: Files)
    requires Ok(chunkBytes, it) && CrashFiles(it.f, g)
    ensures Ok(chunkBytes, it.(f := g))
    ensures AckedOk(it) ==> AckedOk(it.(f := g))
  {
    if it.row.Some? {
      var m, f := it.row.value.manifest, it.f;
      if f.live.Some? && g.live.Some? && CrashTree(f.live.value, g.live.value.vol) {
        FrozenTreeAfterCrash(f.live.value, g.live.value.vol);
      }
      assert LiveIsSound(m, g);
      CrashKeepsShaped(m, f, g);
      if Dependable(m) && !LiveStable(g) && it.rc != map[] {
        CrashKeepsReceipts(it, g);
      }
    }
  }

  lemma CrashKeepsReceipts(it: Item, g: Files)
    requires it.row.Some? && DependableOk(it.row.value, it.rc, it.f) && CrashFiles(it.f, g)
    requires it.rc != map[] && !LiveStable(g)
    ensures g.staging.Some? && BothGood(it.rc, g.staging.value)
  {
    var img := UploadTree(it.f).value;
    forall c | c in it.rc ensures Good(g.staging.value.vol, c, it.rc[c]) {
      GoodSurvives(img, g.staging.value.vol, c, it.rc[c]);
    }
  }

  /** A published artifact survives every crash, byte for byte. */
  lemma ReadySurvivesCrash(chunkBytes: nat, it: Item, g: Files)
    requires Ok(chunkBytes, it) && it.row.Some? && it.row.value.state == Ready && CrashFiles(it.f, g)
    ensures SafelyPublished(it.row.value.manifest, g)
    ensures forall e | e in it.row.value.manifest :: g.live.value.vol[e.path] == it.f.live.value.vol[e.path]
  {
    FrozenTreeAfterCrash(it.f.live.value, g.live.value.vol);
    CrashKeepsOk(chunkBytes, it, g);
  }
}
