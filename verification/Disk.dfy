/** What a crash can do to the files of one artifact. Every file carries its cached and its durable content;
    unsynced bytes may come back as anything, an unsynced rename may be lost, an unsynced removal undone. */
module Disk {
  import opened Wrappers
  import opened Payload

  /** One directory tree: what the kernel shows now, and what is on the medium. */
  datatype Image = Image(vol: Tree, dur: Tree)

  /** The files of one artifact. `moved`: the rename from staging to live is not yet durable. The `lost`
      trees are durable remains of a removal that has not been synced. */
  datatype Files = Files(
    staging: Option<Image>, live: Option<Image>, moved: bool, lostStaging: Option<Tree>, lostLive: Option<Tree>)

  const NoFiles := Files(None, None, false, None, None)

  /** Bytes on which cache and medium agree survive; all others are arbitrary. */
  predicate CrashBytes(v: Bytes, d: Bytes, c: Bytes) {
    && (|c| <= |v| || |c| <= |d|)
    && (|v| <= |c| || |d| <= |c|)
    && forall i | 0 <= i < |v| && i < |d| && v[i] == d[i] :: i < |c| && c[i] == v[i]
  }

  predicate CrashNode(v: Node, d: Node, c: Node) {
    if v.Regular? && d.Regular? then c.Regular? && CrashBytes(v.bytes, d.bytes, c.bytes)
    else c == v || c == d
  }

  /** A node the medium does not know yet: a file may come back with anything in it, but no longer than it was. */
  predicate CrashUnsynced(v: Node, c: Node) {
    if v.Folder? then c.Folder? else c.Regular? && |c.bytes| <= |v.bytes|
  }

  /** `t` is a state in which a crash may leave the tree. */
  predicate CrashTree(img: Image, t: Tree) {
    && (forall p | p in img.vol && p in img.dur :: p in t && CrashNode(img.vol[p], img.dur[p], t[p]))
    && (forall p | p in t ::
          && (p in img.vol || p in img.dur)
          && (p !in img.vol ==> t[p] == img.dur[p])
          && (p !in img.dur ==> CrashUnsynced(img.vol[p], t[p])))
  }

  predicate Remains(lost: Option<Tree>, t: Tree) {
    lost.Some? && forall p | p in t :: p in lost.value && t[p] == lost.value[p]
  }

  /** What a crash may leave under one name. */
  predicate CrashSlot(cur: Option<Image>, lost: Option<Tree>, after: Option<Image>) {
    && (after.Some? ==> after.value.vol == after.value.dur)
    && match cur
       case Some(img) => after.Some? && CrashTree(img, after.value.vol)
       case None => after.None? || Remains(lost, after.value.vol)
  }

  predicate CrashFiles(f: Files, g: Files) {
    && !g.moved && g.lostStaging.None? && g.lostLive.None?
    && (|| (CrashSlot(f.staging, f.lostStaging, g.staging) && CrashSlot(f.live, f.lostLive, g.live))
        || (f.moved && CrashSlot(f.live, None, g.staging) && CrashSlot(None, f.lostLive, g.live)))
  }

  /** One possible outcome: everything in the cache had reached the medium. */
  function NothingLost(f: Files): Files {
    Files(if f.staging.Some? then Some(Image(f.staging.value.vol, f.staging.value.vol)) else None,
          if f.live.Some? then Some(Image(f.live.value.vol, f.live.value.vol)) else None,
          false, None, None)
  }

  lemma NothingLostIsACrash(f: Files)
    ensures CrashFiles(f, NothingLost(f))
  {
  }

  // ------------------------------------------------------------- what survives

  lemma GoodSurvives(img: Image, t: Tree, c: Cell, r: Receipt)
    requires CrashTree(img, t) && Good(img.vol, c, r) && Good(img.dur, c, r)
    ensures Good(t, c, r)
  {
    var v, d, x := img.vol[c.path].bytes, img.dur[c.path].bytes, t[c.path].bytes;
    var lo, hi := c.offset, c.offset + r.length;
    assert v[lo..hi] == d[lo..hi];
    forall i | lo <= i < hi ensures i < |x| && x[i] == v[i] {
      assert v[i] == v[lo..hi][i - lo] == d[lo..hi][i - lo] == d[i];
    }
    assert r.length > 0 ==> hi - 1 < |x|;
    if r.length > 0 {
      assert x[lo..hi] == v[lo..hi];
    } else {
      assert lo <= |x|;
    }
  }
}
