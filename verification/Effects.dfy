/** The effects the store has on one artifact, as functions, each with the lemma that says when it keeps
    the invariant. */
module Effects {
  import opened Wrappers
  import opened Payload
  import opened Disk
  import opened Artifact
  import Chunks

  // ---------------------------------------------------------------- staging

  /** The staging tree's directory exists, durably. */
  function StagingMade(f: Files): Files {
    if f.staging.Some? then f else f.(staging := Some(Image(map[], map[])), lostStaging := None)
  }

  function Put(f: Files, img: Image): Files { f.(staging := Some(img)) }

  lemma StagingMadeKeepsOk(chunkBytes: nat, it: Item)
    requires Ok(chunkBytes, it)
    ensures Ok(chunkBytes, it.(f := StagingMade(it.f)))
  {
  }

  /** A manifest entry is created, empty. */
  function Blank(e: Entry): Node { if e.Dir? then Folder else Regular([]) }

  lemma BlankFits(m: Manifest, t: Tree, e: Entry)
    requires DistinctPaths(m) && Fits(m, t) && e in m
    ensures Fits(m, t[e.path := Blank(e)])
  {
    NodeFits(m, t, e.path, Blank(e));
  }

  lemma CreateKeepsOk(chunkBytes: nat, it: Item, e: Entry, dur: Tree)
    requires Ok(chunkBytes, it) && it.f.staging.Some? && e.path !in it.f.staging.value.vol
    requires dur == it.f.staging.value.dur || dur == it.f.staging.value.dur[e.path := Blank(e)]
    requires it.row.Some? ==> e in it.row.value.manifest
    ensures Ok(chunkBytes, it.(f := Put(it.f, Image(it.f.staging.value.vol[e.path := Blank(e)], dur))))
  {
    hide Fits, ReceiptsOnGrid;
    if it.row.Some? {
      BlankFits(it.row.value.manifest, it.f.staging.value.vol, e);
      BlankFits(it.row.value.manifest, it.f.staging.value.dur, e);
    }
  }

  /** Bytes of a staged file, or none when it does not exist yet. */
  function StagedBytes(img: Image, p: Path): Bytes {
    if p in img.vol && img.vol[p].Regular? then img.vol[p].bytes else []
  }

  function Written(img: Image, p: Path, offset: nat, data: Bytes): Image {
    Image(img.vol[p := Regular(Patched(StagedBytes(img, p), offset, data))], img.dur)
  }

  function FileSynced(img: Image, p: Path): Image
    requires p in img.vol
  {
    Image(img.vol, img.dur[p := img.vol[p]])
  }

  /** A chunk may be written where no receipt yet vouches for the bytes, or where none is needed. */
  ghost predicate MayWrite(it: Item, c: Cell) {
    it.row.Some? && (Dependable(it.row.value.manifest) && !LiveStable(it.f) && !it.f.moved ==> c !in it.rc)
  }

  lemma ReceiptElsewhere(chunkBytes: nat, m: Manifest, rc: Receipts, e: Entry, offset: nat, length: nat, c: Cell)
    requires DistinctPaths(m) && ReceiptsOnGrid(chunkBytes, m, rc) && e in m && e.File?
    requires Chunks.ValidateChunkRange(chunkBytes, e.size, offset, length).Accepted?
    requires c in rc && c.path == e.path && c.offset != offset
    ensures c.offset + rc[c].length <= offset || offset + length <= c.offset
  {
    var e2 :| e2 in m && e2.File? && e2.path == c.path
      && Chunks.ValidateChunkRange(chunkBytes, e2.size, c.offset, rc[c].length).Accepted?;
    assert e2 == e;
    Chunks.CellsEqualOrDisjoint(chunkBytes, e.size, c.offset, rc[c].length, offset, length);
  }

  /** Writing a chunk, or any part of it, spoils no receipt. */
  lemma WriteKeepsOk(chunkBytes: nat, it: Item, e: Entry, offset: nat, data: Bytes, part: Bytes)
    requires Ok(chunkBytes, it) && it.f.staging.Some? && it.row.Some? && e in it.row.value.manifest && e.File?
    requires Chunks.ValidateChunkRange(chunkBytes, e.size, offset, |data|).Accepted? && part <= data
    requires MayWrite(it, Cell(e.path, offset))
    ensures Ok(chunkBytes, it.(f := Put(it.f, Written(it.f.staging.value, e.path, offset, part))))
  {
    var img := it.f.staging.value;
    var next := Written(img, e.path, offset, part);
    assert FitsEntry(e, img.vol);
    NodeFits(it.row.value.manifest, img.vol, e.path, next.vol[e.path]);
    if Dependable(it.row.value.manifest) && !LiveStable(it.f) && !it.f.moved && it.rc != map[] {
      forall c | c in it.rc ensures Good(next.vol, c, it.rc[c]) {
        if c.path == e.path {
          ReceiptElsewhere(chunkBytes, it.row.value.manifest, it.rc, e, offset, |data|, c);
          PatchKeepsGood(img.vol, e.path, offset, part, c, it.rc[c]);
        }
      }
    }
  }

  lemma SyncKeepsOk(chunkBytes: nat, it: Item, p: Path)
    requires Ok(chunkBytes, it) && it.f.staging.Some? && p in it.f.staging.value.vol
    ensures Ok(chunkBytes, it.(f := Put(it.f, FileSynced(it.f.staging.value, p))))
  {
    if it.row.Some? { SyncedFits(it.row.value.manifest, it.f.staging.value, p); }
  }

  lemma SyncedFits(m: Manifest, img: Image, p: Path)
    requires Fits(m, img.vol) && Fits(m, img.dur) && p in img.vol
    ensures Fits(m, FileSynced(img, p).dur)
  {
    forall e | e in m && e.path == p ensures FitsEntry(e, img.dur[p := img.vol[p]]) { assert FitsEntry(e, img.vol); }
    NodeFits(m, img.dur, p, img.vol[p]);
  }

  function Truncated(t: Tree, p: Path, end: nat): Tree
    requires p in t && t[p].Regular? && end <= |t[p].bytes|
  {
    t[p := Regular(t[p].bytes[..end])]
  }

  lemma TruncateKeepsGood(t: Tree, p: Path, end: nat, c: Cell, r: Receipt)
    requires p in t && t[p].Regular? && end <= |t[p].bytes| && Good(t, c, r)
    requires c.path == p ==> c.offset + r.length <= end
    ensures Good(Truncated(t, p, end), c, r)
  {
    if c.path == p {
      assert t[p].bytes[..end][c.offset..c.offset + r.length] == t[p].bytes[c.offset..c.offset + r.length];
    }
  }

  lemma TruncateKeepsOk(chunkBytes: nat, it: Item, p: Path, end: nat)
    requires Ok(chunkBytes, it) && it.f.staging.Some?
    requires p in it.f.staging.value.vol && it.f.staging.value.vol[p].Regular?
    requires end <= |it.f.staging.value.vol[p].bytes|
    requires forall c | c in it.rc && c.path == p :: c.offset + it.rc[c].length <= end
    ensures var img := it.f.staging.value;
            && Ok(chunkBytes, it.(f := Put(it.f, Image(Truncated(img.vol, p, end), img.dur))))
            && Ok(chunkBytes, it.(f := Put(it.f, FileSynced(Image(Truncated(img.vol, p, end), img.dur), p))))
  {
    var img := it.f.staging.value;
    var t := Truncated(img.vol, p, end);
    if it.row.Some? {
      var m := it.row.value.manifest;
      forall e | e in m && e.path == p ensures FitsEntry(e, t) { assert FitsEntry(e, img.vol); }
      NodeFits(m, img.vol, p, t[p]);
      SyncedFits(m, Image(t, img.dur), p);
    }
    forall c | c in it.rc && Good(img.vol, c, it.rc[c]) ensures Good(t, c, it.rc[c]) {
      TruncateKeepsGood(img.vol, p, end, c, it.rc[c]);
    }
  }

  function TreeSynced(img: Image): Image { Image(img.vol, img.vol) }

  lemma TreeSyncKeepsOk(chunkBytes: nat, it: Item)
    requires Ok(chunkBytes, it) && it.f.staging.Some?
    ensures Ok(chunkBytes, it.(f := Put(it.f, TreeSynced(it.f.staging.value))))
  {
  }

  /** Part of a tree, as an interrupted recursive removal leaves it. */
  ghost predicate Part(t: Tree, whole: Tree) {
    forall p | p in t :: p in whole && t[p] == whole[p]
  }

  function StagingRemoved(f: Files): Files {
    if f.staging.None? then f else f.(staging := None, lostStaging := Some(f.staging.value.dur))
  }

  // ---------------------------------------------------------------- live

  function Renamed(f: Files): Files {
    Files(None, f.staging, true, None, f.lostLive)
  }

  /** Renaming a verified, synced staging tree to a free live name. */
  lemma RenameKeepsOk(chunkBytes: nat, it: Item)
    requires Ok(chunkBytes, it) && it.row.Some? && it.row.value.state == Publishing
    requires it.f.live.None? && it.f.staging.Some?
    requires it.f.staging.value.vol == it.f.staging.value.dur
    requires Verified(it.row.value.manifest, it.f.staging.value.vol)
    ensures Ok(chunkBytes, it.(f := Renamed(it.f)))
    ensures AckedOk(it) ==> AckedOk(it.(f := Renamed(it.f)))
  {
  }

  function LiveNameSynced(f: Files): Files { f.(moved := false, lostLive := None) }

  lemma LiveNameSyncKeepsOk(chunkBytes: nat, it: Item)
    requires Ok(chunkBytes, it)
    ensures Ok(chunkBytes, it.(f := LiveNameSynced(it.f)))
    ensures AckedOk(it) ==> AckedOk(it.(f := LiveNameSynced(it.f)))
  {
  }

  function LiveTreeSynced(f: Files): Files {
    if f.live.None? then f else f.(live := Some(Image(f.live.value.vol, f.live.value.vol)))
  }

  lemma LiveTreeSyncKeepsOk(chunkBytes: nat, it: Item)
    requires Ok(chunkBytes, it)
    ensures Ok(chunkBytes, it.(f := LiveTreeSynced(it.f)))
    ensures AckedOk(it) ==> AckedOk(it.(f := LiveTreeSynced(it.f)))
  {
  }

  function LiveRemoved(f: Files): Files {
    if f.live.None? then f else f.(live := None, moved := false, lostLive := Some(f.live.value.dur))
  }

  /** A live tree that is not complete may be taken away: no dependable upload has one. */
  lemma LiveRemovalKeepsOk(chunkBytes: nat, it: Item, part: Tree)
    requires Ok(chunkBytes, it) && it.row.Some? && it.row.value.state != Ready && it.f.live.Some?
    requires !Complete(it.row.value.manifest, it.f.live.value.vol)
    requires Part(part, it.f.live.value.vol)
    ensures !Dependable(it.row.value.manifest)
    ensures Ok(chunkBytes, it.(f := LiveRemoved(it.f)))
    ensures Ok(chunkBytes, it.(f := it.f.(live := Some(Image(part, it.f.live.value.dur)))))
  {
    if Dependable(it.row.value.manifest) { DependableLiveIsComplete(chunkBytes, it); }
    PartFits(it.row.value.manifest, part, it.f.live.value.vol);
  }

  // ---------------------------------------------------------------- database

  /** The row is committed as ready and the receipts go in the same transaction. */
  function Committed(it: Item): Item
    requires it.row.Some?
  {
    it.(row := Some(it.row.value.(state := Ready)), rc := map[])
  }

  lemma CommitKeepsOk(chunkBytes: nat, it: Item)
    requires Ok(chunkBytes, it) && it.row.Some? && LiveStable(it.f)
    requires Complete(it.row.value.manifest, it.f.live.value.vol) || Verified(it.row.value.manifest, it.f.live.value.vol)
    ensures Ok(chunkBytes, Committed(it)) && AckedOk(Committed(it))
  {
    assert Sound(it.row.value.manifest, it.f.live.value.vol);
  }
}
