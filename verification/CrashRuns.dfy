/** Runs of the store that end where its crash tolerance does: with a manifest whose sizes lie, and with a rename that
    is not durable. */
module CrashRuns {
  import opened Wrappers
  import opened Payload
  import opened Disk
  import opened Artifact
  import opened Effects
  import opened ArtifactStore
  import opened CrashWindows
  import Chunks
  import Limits

  // ---------------------------------------------------------------- steps of a run

  /** An upload in a new store that does not fail. */
  method Begin(chunkBytes: nat, m: Manifest) returns (s: Store, aid: Id)
    requires chunkBytes > 0 && DistinctPaths(m)
    ensures fresh(s) && s.Inv() && !s.down && s.calm && s.chunkBytes == chunkBytes && Fresh(s, aid, m)
    ensures s.HasSkeleton(aid, m)
  {
    s := new Store(chunkBytes, 0, 0, 1, 1);
    s.calm := true;
    aid := "upload";
    assert s.HasRoom("user", 0) by {
      assert Limits.Sessions(s.rows) == {} && Limits.SessionsOf(s.rows, "user") == {};
    }
    var r := s.Init(aid, "user", m, 0, 0, None);
  }

  /** An upload that has nothing but its staging tree. */
  ghost predicate Fresh(s: Store, aid: Id, m: Manifest) reads s {
    && aid in s.rows && s.rows[aid].state == Uploading && s.rows[aid].owner == "user" && s.rows[aid].manifest == m
    && s.Rc(aid) == map[] && s.Fl(aid).live.None? && s.Fl(aid).staging.Some?
  }

  /** A chunk that fails after part of it has been written: what `WriteStaged` may leave. */
  method CutWrite(s: Store, aid: Id, e: Entry, offset: nat, data: Bytes, part: Bytes)
    requires s.Inv() && aid in s.rows && e in s.rows[aid].manifest && e.File? && s.Fl(aid).staging.Some?
    requires Chunks.ValidateChunkRange(s.chunkBytes, e.size, offset, |data|).Accepted? && part <= data
    requires !Dependable(s.rows[aid].manifest)
    modifies s`files
    ensures s.Inv()
    ensures s.Fl(aid) == Put(old(s.Fl(aid)), Written(old(s.Fl(aid)).staging.value, e.path, offset, part))
  {
    assert s.ItemInv(aid);
    WriteKeepsOk(s.chunkBytes, s.At(aid), e, offset, data, part);
    s.Place(aid, Put(s.Fl(aid), Written(s.Fl(aid).staging.value, e.path, offset, part)));
  }

  /** A publish up to its rename, where the process dies. */
  method CutPublish(s: Store, aid: Id)
    requires s.Inv() && !s.down && s.calm && aid in s.rows && s.rows[aid].state == Uploading
    requires s.Fl(aid).live.None? && s.Fl(aid).staging.Some? && Verified(s.rows[aid].manifest, s.Fl(aid).staging.value.vol)
    modifies s
    ensures s.Inv() && s.down && s.calm && aid in s.rows && s.rows[aid] == old(s.rows[aid]).(state := Publishing)
    ensures s.Rc(aid) == old(s.Rc(aid)) && s.At(aid).acked == old(s.At(aid).acked)
    ensures s.Fl(aid).staging.None? && s.Fl(aid).moved
    ensures s.Fl(aid).live.Some? && s.Fl(aid).live.value.vol == old(s.Fl(aid)).staging.value.vol
  {
    assert s.ItemInv(aid);
    var step := s.Transact(aid, Some(s.rows[aid].(state := Publishing)), s.Rc(aid));
    step := s.SyncStaging(aid);
    step := s.RenameToLive(aid);
    s.Kill();
  }

  // ---------------------------------------------------------------- staging any content

  /** A file's content from one chunk on, up to the end of the chunk or of the content. */
  method StagePart(s: Store, aid: Id, e: Entry, o: nat) returns (end: nat)
    requires s.Inv() && aid in s.rows && e in s.rows[aid].manifest && e.File? && !Dependable(s.rows[aid].manifest)
    requires o < |e.sha256.preimage| <= e.size && o % s.chunkBytes == 0 && s.Fl(aid).staging.Some?
    requires StagedBytes(s.Fl(aid).staging.value, e.path) == e.sha256.preimage[..o]
    modifies s`files
    ensures s.Inv() && o < end <= |e.sha256.preimage| && (end < |e.sha256.preimage| ==> end % s.chunkBytes == 0)
    ensures s.Fl(aid).live == old(s.Fl(aid)).live && s.Fl(aid).staging.Some?
    ensures s.Fl(aid).staging.value.vol == old(s.Fl(aid)).staging.value.vol[e.path := Regular(e.sha256.preimage[..end])]
  {
    hide Ok, AckedOk, Limits.Within;
    var content := e.sha256.preimage;
    var length := Chunks.Min(s.chunkBytes, e.size - o);
    end := Chunks.Min(o + length, |content|);
    var part := content[o..end];
    Chunks.AcceptsExactlyTheCells(s.chunkBytes, e.size, o, length);
    CutWrite(s, aid, e, o, part + seq(length - |part|, _ => 0), part);
    assert Patched(content[..o], o, part) == content[..end];
    if end < |content| { Chunks.NextAligned(o, s.chunkBytes); }
  }

  /** The content of a file, staged: whole chunks, and at the end part of one. */
  method StageFile(s: Store, aid: Id, e: Entry)
    requires s.Inv() && !s.down && s.calm && aid in s.rows && e in s.rows[aid].manifest && e.File?
    requires !Dependable(s.rows[aid].manifest) && |e.sha256.preimage| <= e.size
    requires s.Fl(aid).staging.Some? && StagedBytes(s.Fl(aid).staging.value, e.path) == []
    modifies s`files, s`down
    ensures s.Inv() && !s.down && s.Fl(aid).live == old(s.Fl(aid)).live && s.Fl(aid).staging.Some?
    ensures s.Fl(aid).staging.value.vol == old(s.Fl(aid)).staging.value.vol[e.path := Regular(e.sha256.preimage)]
  {
    assert s.ItemInv(aid);
    assert FitsEntry(e, s.Fl(aid).staging.value.vol);
    if e.path !in s.Fl(aid).staging.value.vol {
      var step := s.CreateEntry(aid, e);
    }
    hide Ok, AckedOk, Limits.Within, FitsEntry;
    var content, o := e.sha256.preimage, 0;
    assert content[..0] == [];
    while o < |content|
      invariant o <= |content| && s.Inv() && !s.down && s.Fl(aid).live == old(s.Fl(aid)).live && s.Fl(aid).staging.Some?
      invariant o < |content| ==> o % s.chunkBytes == 0
      invariant s.Fl(aid).staging.value.vol == old(s.Fl(aid)).staging.value.vol[e.path := Regular(content[..o])]
    {
      var end := StagePart(s, aid, e, o);
      o := end;
    }
    assert content[..|content|] == content;
  }

  /** What the manifest says of an entry, staged. */
  predicate IsContent(e: Entry, t: Tree) {
    e.path in t && t[e.path] == if e.Dir? then Folder else Regular(e.sha256.preimage)
  }

  /** Every file staged with the content its digest stands for. */
  method StageAll(s: Store, aid: Id, m: Manifest)
    requires s.Inv() && !s.down && s.calm && Fresh(s, aid, m) && s.HasSkeleton(aid, m) && !Dependable(m)
    requires forall e | e in m && e.File? :: StagedBytes(s.Fl(aid).staging.value, e.path) == []
    modifies s`files, s`down
    ensures s.Inv() && !s.down && Fresh(s, aid, m) && Verified(m, s.Fl(aid).staging.value.vol)
  {
    assert s.ItemInv(aid);
    for i := 0 to |m|
      invariant s.Inv() && !s.down && Fresh(s, aid, m)
      invariant forall j | 0 <= j < |m| && m[j].Dir? :: IsContent(m[j], s.Fl(aid).staging.value.vol)
      invariant forall j | 0 <= j < i :: IsContent(m[j], s.Fl(aid).staging.value.vol)
      invariant forall j | i <= j < |m| && m[j].File? :: StagedBytes(s.Fl(aid).staging.value, m[j].path) == []
    {
      if m[i].File? {
        assert m[i] in m;
        StageFile(s, aid, m[i]);
      }
    }
  }

  /** No content is longer than declared, and some is shorter: such an upload can be published, and lies. */
  lemma NothingTooLong(m: Manifest, e: Entry)
    requires !Dependable(m) && e in m && e.File?
    ensures |e.sha256.preimage| <= e.size
  {
  }

  // ---------------------------------------------------------------- sizes that lie

  /** For every manifest that is not dependable there is a run that publishes it, and then it is not size-complete. */
  method PublishIncomplete(chunkBytes: nat, m: Manifest) returns (s: Store, aid: Id)
    requires chunkBytes > 0 && DistinctPaths(m) && !Dependable(m)
    ensures s.Inv() && aid in s.rows && s.rows[aid].manifest == m && s.rows[aid].state == Ready
    ensures s.Fl(aid).live.Some? && !Complete(m, s.Fl(aid).live.value.vol)
  {
    s, aid := Begin(chunkBytes, m);
    StageAll(s, aid, m);
    var r := s.Publish("user", aid, 0);
    s.ReadyIsServed(aid);
  }

  /** It takes no fault for that: an empty file declared to have two bytes. The first publish finds the file missing,
      refuses, and makes it. */
  method PublishEmptyAsTwoBytes(chunkBytes: nat) returns (s: Store, aid: Id, first: Reply, second: Reply)
    requires chunkBytes > 0
    ensures s.Inv() && s.calm && first == Err(HashMismatch) && second == Ack
    ensures aid in s.rows && s.rows[aid].state == Ready && s.Fl(aid).live.Some?
    ensures !Complete(s.rows[aid].manifest, s.Fl(aid).live.value.vol)
  {
    var e := File("a", 2, Sha256([]));
    var m := [e];
    assert e in m;
    s, aid := Begin(chunkBytes, m);
    assert s.ItemInv(aid);
    first := s.Publish("user", aid, 0);
    assert s.ItemInv(aid) && FitsEntry(e, s.Fl(aid).staging.value.vol) && s.Trimmed(aid, "a");
    second := s.Publish("user", aid, 0);
    s.ReadyIsServed(aid);
  }

  /** The same run, its publish cut short: after the next start the row is an upload again and still has its live tree. */
  method LeaveHalfLive(chunkBytes: nat, m: Manifest) returns (s: Store, aid: Id)
    requires chunkBytes > 0 && DistinctPaths(m) && !Dependable(m)
    ensures fresh(s) && s.Inv() && !s.down && s.calm && s.chunkBytes == chunkBytes
    ensures aid in s.rows && s.rows[aid].manifest == m && s.rows[aid].owner == "user" && s.Rc(aid) == map[]
    ensures Discards(s.At(aid))
  {
    hide Verified, Complete, Limits.Within;
    s, aid := Begin(chunkBytes, m);
    StageAll(s, aid, m);
    CutPublish(s, aid);
    VerifiedIsCompleteIffHonest(m, s.Fl(aid).live.value.vol);
    assert s.ItemInv(aid);
    var _ := s.Restart(false);
    assert s.ItemInv(aid);
  }

  /** For every manifest that is not dependable there is a run after whose first start a second one still changes
      something. */
  method SecondStartChanges(chunkBytes: nat, m: Manifest) returns (s: Store, aid: Id, ghost before: Item)
    requires chunkBytes > 0 && DistinctPaths(m) && !Dependable(m)
    ensures s.Inv() && s.calm && aid in s.rows && s.rows[aid].manifest == m
    ensures Discards(before) && !SameStored(before, s.At(aid))
  {
    s, aid := LeaveHalfLive(chunkBytes, m);
    before := s.At(aid);
    s.Kill();
    StartDiscards(s, aid);
  }

  /** For every manifest that is not dependable there is a run that loses an acknowledged chunk: it is stored and
      acknowledged next to the live tree that a publish left half-way, and goes with that tree. */
  method LoseAChunk(chunkBytes: nat, m: Manifest) returns (s: Store, aid: Id, c: Cell)
    requires chunkBytes > 0 && DistinctPaths(m) && !Dependable(m)
    ensures s.Inv() && s.calm && aid in s.rows && s.rows[aid].manifest == m
    ensures c in s.At(aid).acked && !ChunkSafe(s.At(aid), c, s.At(aid).acked[c])
  {
    hide Discards;
    s, aid := LeaveHalfLive(chunkBytes, m);
    var e := SomeShortened(m);
    c := PutFirst(s, aid, e);
    s.Kill();
    StartDiscards(s, aid);
  }

  /** The first chunk of a file is acknowledged. */
  method PutFirst(s: Store, aid: Id, e: Entry) returns (c: Cell)
    requires s.Inv() && !s.down && s.calm && aid in s.rows && e in s.rows[aid].manifest && e.File? && e.size > 0
    requires s.rows[aid].owner == "user" && s.Rc(aid) == map[] && Discards(s.At(aid))
    modifies s
    ensures s.Inv() && !s.down && s.calm && aid in s.rows && s.rows[aid].manifest == old(s.rows[aid].manifest)
    ensures c in s.At(aid).acked && Discards(s.At(aid))
  {
    hide Ok, AckedOk, Limits.Within, Complete;
    DistinctInRows(s, aid);
    var length := Chunks.Min(s.chunkBytes, e.size);
    var data: Bytes := seq(length, _ => 0);
    Chunks.AcceptsExactlyTheCells(s.chunkBytes, e.size, 0, length);
    assert s.IsChunkOf(s.rows[aid].manifest, e.path, 0, length);
    c := Cell(e.path, 0);
    var r := s.PutChunk("user", aid, e.path, 0, data, Sha256(data), 0);
  }

  lemma DistinctInRows(s: Store, aid: Id)
    requires s.Inv() && aid in s.rows
    ensures DistinctPaths(s.rows[aid].manifest)
  {
    assert s.ItemInv(aid);
  }

  /** A start discards the live tree of an upload, and its receipts. */
  method StartDiscards(s: Store, aid: Id)
    requires s.Inv() && s.down && s.calm && aid in s.rows && Discards(s.At(aid))
    modifies s
    ensures s.Inv() && s.calm && aid in s.rows && s.rows[aid].manifest == old(s.rows[aid].manifest)
    ensures s.At(aid).acked == old(s.At(aid).acked)
    ensures forall c, r :: !ChunkSafe(s.At(aid), c, r)
    ensures !SameStored(old(s.At(aid)), s.At(aid))
  {
    hide Ok, AckedOk, Limits.Within, Complete, Resumable;
    assert s.ItemInv(aid);
    var _ := s.Restart(false);
    assert s.At(aid).row == Some(s.rows[aid]) && s.At(aid).rc == s.Rc(aid);
  }

  /** A file that is shorter than declared. */
  method SomeShortened(m: Manifest) returns (e: Entry)
    requires !Dependable(m)
    ensures e in m && e.File? && |e.sha256.preimage| < e.size
  {
    e :| e in m && e.File? && e.size != |e.sha256.preimage|;
    NothingTooLong(m, e);
  }

  // ---------------------------------------------------------------- a rename that is not durable

  /** A start that goes over the receipts of a stranded artifact and dies before it makes the rename durable. Nothing is
      staged, so no receipt is left. */
  method DieInStart(s: Store, aid: Id)
    requires s.Inv() && s.down && s.calm && aid in s.Stranded() && s.Fl(aid).staging.None?
    modifies s
    ensures s.Inv() && s.down && s.calm && aid in s.rows && s.rows[aid] == old(s.rows[aid]) && s.Rc(aid) == map[]
    ensures s.Fl(aid).staging.None? && s.Fl(aid).live == old(s.Fl(aid)).live && s.Fl(aid).moved
  {
    hide Ok, AckedOk, Limits.Within, StillHeld, Good;
    ghost var was := s.acked;
    forall other: Id ensures other in s.Stranded() ==> other in s.used { assert s.ItemInv(other); }
    forall other: Id | other !in s.used ensures Store.AcksOf(was, other) == map[] { assert s.ItemInv(other); }
    s.down := false;
    s.ForgetAll(s.Stranded());
    assert s.At(aid).acked == map[] && s.At(aid).f == old(s.Fl(aid)) && s.At(aid).row == Some(old(s.rows[aid]));
    var step := s.ReconcileFiles(aid);
    s.Kill();
    s.RecallAll(was);
  }

  /** Power is lost, and with it the rename. */
  method LoseRename(s: Store, aid: Id)
    requires s.Inv() && s.down && aid in s.Stranded() && s.Fl(aid).live.Some?
    modifies s`files
    ensures s.Inv() && s.Fl(aid).live.None?
  {
    hide Ok, AckedOk, Limits.Within;
    var v := s.Fl(aid).live.value.vol;
    var g := Files(Some(Image(v, v)), None, false, None, None);
    assert CrashTree(s.Fl(aid).live.value, v);
    assert CrashFiles(s.files[aid], g);
    forall other | other in s.files ensures CrashFiles(s.files[other], NothingLost(s.files[other])) {
      NothingLostIsACrash(s.files[other]);
    }
    s.Outage(map other | other in s.files :: if other == aid then g else NothingLost(s.files[other]));
  }

  lemma StrandedIsLive(chunkBytes: nat, it: Item)
    requires Ok(chunkBytes, it) && it.row.Some? && it.f.moved && Dependable(it.row.value.manifest)
    ensures it.f.live.Some? && it.row.value.state == Publishing
  {
  }

  lemma NothingIsLeft(it: Item)
    requires AckedOk(it) && it.row.Some? && Dependable(it.row.value.manifest) && it.f.live.None? && it.rc == map[]
    requires Resumable(it)
    ensures it.acked == map[] && it.f.staging.Some?
    ensures forall e | e in it.row.value.manifest && e.File? :: StagedBytes(it.f.staging.value, e.path) == []
    ensures forall c, r :: !ChunkSafe(it, c, r)
  {
    forall e | e in it.row.value.manifest && e.File? ensures StagedBytes(it.f.staging.value, e.path) == [] {
      NoReceiptsNoBytes(it, e);
    }
  }

  /** Every stranded artifact with content can lose all of it: a start dies after it went over the receipts, the power
      fails and takes the rename back, and the next start, without faults, cuts the staged files down to nothing. */
  method LoseStranded(s: Store, aid: Id)
    requires s.Inv() && s.down && s.calm && aid in s.Stranded() && s.Fl(aid).staging.None?
    requires Dependable(s.rows[aid].manifest) && exists e | e in s.rows[aid].manifest :: e.File? && e.size > 0
    modifies s
    ensures s.Inv() && s.calm && aid in s.rows && s.rows[aid].state == Uploading
    ensures s.rows[aid].manifest == old(s.rows[aid].manifest) && s.Rc(aid) == map[] && s.At(aid).acked == map[]
    ensures s.Fl(aid).live.None? && s.Fl(aid).staging.Some?
    ensures forall c, r :: !ChunkSafe(s.At(aid), c, r)
    ensures forall e | e in s.rows[aid].manifest && e.File? :: StagedBytes(s.Fl(aid).staging.value, e.path) == []
  {
    hide Ok, AckedOk, Limits.Within, Resumable, ChunkSafe;
    assert s.ItemInv(aid);
    StrandedIsLive(s.chunkBytes, s.At(aid));
    DieInStart(s, aid);
    LoseRename(s, aid);
    assert s.ItemInv(aid);
    label Down:
    assert s.At(aid).f == s.Fl(aid) && s.At(aid).rc == s.Rc(aid);
    var _ := s.Restart(false);
    assert StartedUp(old@Down(s.At(aid)), s.At(aid));
    assert s.ItemInv(aid) && s.At(aid).f == s.Fl(aid) && s.At(aid).rc == s.Rc(aid);
    assert Store.NoneNew(old@Down(s.Rc(aid)), s.Rc(aid));
    NothingIsLeft(s.At(aid));
  }

  /** That happens to an honest upload with an acknowledged chunk: `stranded` is what it was before the two starts. */
  method Strand(chunkBytes: nat) returns (s: Store, aid: Id, c: Cell, ghost stranded: Item)
    requires chunkBytes > 0
    ensures s.Inv() && s.calm && aid in s.rows && s.rows[aid].state == Uploading && Honest(s.rows[aid].manifest)
    ensures stranded.row.Some? && stranded.row.value.manifest == s.rows[aid].manifest && stranded.f.moved
    ensures c in stranded.acked && ChunkSafe(stranded, c, stranded.acked[c])
    ensures !ChunkSafe(s.At(aid), c, stranded.acked[c])
  {
    hide Ok, Limits.Within;
    s, aid, c := UploadOneByte(chunkBytes);
    CutPublish(s, aid);
    stranded := s.At(aid);
    assert s.ItemInv(aid);
    AckedIsSafe(chunkBytes, stranded, c);
    LoseStranded(s, aid);
  }

  /** A one-byte file, uploaded. */
  method UploadOneByte(chunkBytes: nat) returns (s: Store, aid: Id, c: Cell)
    requires chunkBytes > 0
    ensures fresh(s) && s.Inv() && !s.down && s.calm && s.chunkBytes == chunkBytes
    ensures aid in s.rows && s.rows[aid].state == Uploading && Honest(s.rows[aid].manifest)
    ensures s.Fl(aid).live.None? && s.Fl(aid).staging.Some? && Verified(s.rows[aid].manifest, s.Fl(aid).staging.value.vol)
    ensures c in s.At(aid).acked && exists e | e in s.rows[aid].manifest :: e.File? && e.size > 0
  {
    hide Ok, AckedOk, Limits.Within, Good, Verified;
    var e := File("a", 1, Sha256([7]));
    s, aid := Begin(chunkBytes, [e]);
    c := Cell("a", 0);
    PutByte(s, aid, e, c);
    assert e in [e];
    OneByteIsAll(s, aid, e, c);
  }

  lemma OneByteIsAll(s: Store, aid: Id, e: Entry, c: Cell)
    requires s.Inv() && aid in s.rows && s.rows[aid].manifest == [e] && e == File("a", 1, Sha256([7]))
    requires c == Cell("a", 0) && s.StagedGood(aid, c, Receipt(1, Sha256([7])))
    ensures Verified([e], s.Fl(aid).staging.value.vol)
  {
    assert e in [e] && s.ItemInv(aid) && FitsEntry(e, s.Fl(aid).staging.value.vol);
    assert s.Fl(aid).staging.value.vol["a"].bytes[0..1] == s.Fl(aid).staging.value.vol["a"].bytes;
  }

  method PutByte(s: Store, aid: Id, e: Entry, c: Cell)
    requires s.Inv() && !s.down && s.calm && Fresh(s, aid, [e]) && e.File? && e.size == 1 && c == Cell(e.path, 0)
    modifies s
    ensures s.Inv() && !s.down && s.calm && c in s.At(aid).acked
    ensures aid in s.rows && s.rows[aid].state == Uploading && s.rows[aid].manifest == [e]
    ensures s.Fl(aid).live.None? && s.StagedGood(aid, c, Receipt(1, Sha256([7])))
  {
    hide Ok, AckedOk, Limits.Within;
    Chunks.AcceptsExactlyTheCells(s.chunkBytes, 1, 0, 1);
    assert e in [e];
    assert s.IsChunkOf([e], e.path, 0, 1);
    var r := s.PutChunk("user", aid, e.path, 0, [7], Sha256([7]), 0);
  }
}
