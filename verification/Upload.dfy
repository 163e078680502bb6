/** Resuming an upload, end to end: the client asks which chunks are there, sends the others, and publishes. */
module Upload {
  import opened Wrappers
  import opened Payload
  import opened Disk
  import opened Artifact
  import opened ArtifactStore
  import Chunks

  /** What the client has: the bytes of every file of the manifest. */
  type Source = map<Path, Bytes>

  predicate IsSource(m: Manifest, src: Source) {
    forall e | e in m && e.File? :: e.path in src && e.sha256 == Sha256(src[e.path])
  }

  /** Every receipt is for bytes of the source. */
  ghost predicate TrueTo(rc: Receipts, src: Source) {
    forall c {:trigger IsSlice(c, rc[c], src)} | c in rc :: IsSlice(c, rc[c], src)
  }

  predicate IsSlice(c: Cell, r: Receipt, src: Source) {
    && c.path in src && c.offset + r.length <= |src[c.path]|
    && r.sha256 == Sha256(src[c.path][c.offset..c.offset + r.length])
  }

  /** The receipts of one file, as the status report and the client's plan see them. */
  ghost function IndexOf(rc: Receipts, p: Path): Chunks.ReceiptIndex {
    map c | c in rc && c.path == p :: c.offset as int := rc[c].length as int
  }

  /** Every cell of the file has its receipt. */
  ghost predicate AllSent(chunkBytes: nat, e: Entry, rc: Receipts)
    requires e.File?
  {
    forall o: nat, n: int {:trigger Chunks.IsCell(chunkBytes, e.size, o, n)} | Chunks.IsCell(chunkBytes, e.size, o, n) ::
      Cell(e.path, o) in rc
  }

  lemma IndexIsOnGrid(chunkBytes: nat, m: Manifest, rc: Receipts, e: Entry)
    requires DistinctPaths(m) && ReceiptsOnGrid(chunkBytes, m, rc) && e in m && e.File?
    ensures Chunks.OnGrid(chunkBytes, e.size, IndexOf(rc, e.path))
  {
    forall c | c in rc && c.path == e.path
      ensures Chunks.ValidateChunkRange(chunkBytes, e.size, c.offset, rc[c].length).Accepted?
    {
      var e2 :| e2 in m && e2.File? && e2.path == c.path
        && Chunks.ValidateChunkRange(chunkBytes, e2.size, c.offset, rc[c].length).Accepted?;
      assert e2 == e;
    }
  }

  /** The status report shows a file as wholly received exactly when every cell has its receipt. */
  lemma ReportedInFullIff(chunkBytes: nat, m: Manifest, rc: Receipts, e: Entry)
    requires chunkBytes > 0 && DistinctPaths(m) && ReceiptsOnGrid(chunkBytes, m, rc) && e in m && e.File?
    ensures Chunks.TotalFrom(chunkBytes, e.size, IndexOf(rc, e.path), 0) == e.size <==> AllSent(chunkBytes, e, rc)
  {
    var index := IndexOf(rc, e.path);
    Chunks.AllReceivedMeansComplete(chunkBytes, e.size, index, 0);
    Chunks.MissingFromIsExact(chunkBytes, e.size, index, 0);
    var missing := Chunks.MissingFrom(chunkBytes, e.size, index, 0);
    forall o: nat ensures o in index <==> Cell(e.path, o) in rc {
      if o in index {
        var c :| c in rc && c.path == e.path && c.offset == o;
        assert c == Cell(e.path, o);
      }
    }
    if missing == [] {
      forall o: nat, n: int | Chunks.IsCell(chunkBytes, e.size, o, n) ensures Cell(e.path, o) in rc {
        assert Chunks.Interval(o, o + n) !in missing;
      }
    } else {
      var i := missing[0];
      assert i in missing && Chunks.IsCell(chunkBytes, e.size, i.start, i.end - i.start) && i.start !in index;
    }
  }

  // ---------------------------------------------------------------- what has been received is the source

  /** A staged file all of whose cells are backed by receipts for the source has the bytes of the source. */
  lemma FileIsSource(chunkBytes: nat, e: Entry, rc: Receipts, t: Tree, src: Source)
    requires chunkBytes > 0 && e.File? && e.path in src && |src[e.path]| == e.size
    requires e.path in t && FitsEntry(e, t) && AllSent(chunkBytes, e, rc) && TrueTo(rc, src) && AllGood(rc, t)
    requires forall c | c in rc && c.path == e.path ::
               Chunks.ValidateChunkRange(chunkBytes, e.size, c.offset, rc[c].length).Accepted?
    ensures t[e.path].bytes == src[e.path]
  {
    var b, s := t[e.path].bytes, src[e.path];
    forall x: nat | x < |s| ensures x < |b| && b[x] == s[x] { ByteIsSource(chunkBytes, e, rc, t, src, x); }
    if |s| > 0 { ByteIsSource(chunkBytes, e, rc, t, src, |s| - 1); }
    assert |b| == |s|;
  }

  lemma ByteIsSource(chunkBytes: nat, e: Entry, rc: Receipts, t: Tree, src: Source, x: nat)
    requires chunkBytes > 0 && e.File? && e.path in src && |src[e.path]| == e.size && x < e.size
    requires e.path in t && FitsEntry(e, t) && AllSent(chunkBytes, e, rc) && TrueTo(rc, src) && AllGood(rc, t)
    requires forall c | c in rc && c.path == e.path ::
               Chunks.ValidateChunkRange(chunkBytes, e.size, c.offset, rc[c].length).Accepted?
    ensures x < |t[e.path].bytes| && t[e.path].bytes[x] == src[e.path][x]
  {
    var o := x - x % chunkBytes;
    var n := Chunks.Min(chunkBytes, e.size - o);
    Aligned(x, chunkBytes);
    assert Chunks.IsCell(chunkBytes, e.size, o, n);
    var c := Cell(e.path, o);
    assert c in rc && IsSlice(c, rc[c], src) && Good(t, c, rc[c]);
    Chunks.AcceptsExactlyTheCells(chunkBytes, e.size, o, rc[c].length);
    var b, s := t[e.path].bytes, src[e.path];
    assert b[o..o + n] == s[o..o + n];
    assert b[x] == b[o..o + n][x - o] && s[x] == s[o..o + n][x - o];
  }

  lemma Aligned(x: nat, c: nat)
    requires c > 0
    ensures 0 <= x - x % c <= x < x - x % c + c && (x - x % c) % c == 0
  {
    var q := x / c;
    assert x - x % c == c * q;
    Chunks.QuotientIsUnique(c * q, c, q, 0);
  }

  /** Directories and empty files are there from the start; other files come with their first chunk. */
  predicate HasEmptyOnes(m: Manifest, t: Tree) {
    forall e | e in m && (e.Dir? || e.size == 0) :: e.path in t
  }

  lemma SentFileIsThere(chunkBytes: nat, e: Entry, rc: Receipts, t: Tree)
    requires chunkBytes > 0 && e.File? && e.size > 0 && AllSent(chunkBytes, e, rc) && AllGood(rc, t)
    ensures e.path in t
  {
    assert Chunks.IsCell(chunkBytes, e.size, 0, Chunks.Min(chunkBytes, e.size));
    assert Good(t, Cell(e.path, 0), rc[Cell(e.path, 0)]);
  }

  /** An upload whose every chunk has been received is ready to be published, in whatever reachable state. */
  lemma ReceivedIsVerified(chunkBytes: nat, it: Item, src: Source)
    requires chunkBytes > 0 && Ok(chunkBytes, it) && it.row.Some? && it.row.value.state == Uploading
    requires Honest(it.row.value.manifest) && IsSource(it.row.value.manifest, src) && TrueTo(it.rc, src)
    requires it.f.live.None? && it.f.staging.Some? && HasEmptyOnes(it.row.value.manifest, it.f.staging.value.vol)
    requires forall e | e in it.row.value.manifest && e.File? :: AllSent(chunkBytes, e, it.rc)
    ensures Verified(it.row.value.manifest, it.f.staging.value.vol)
  {
    var m, t := it.row.value.manifest, it.f.staging.value.vol;
    forall e | e in m
      ensures e.path in t && (if e.Dir? then t[e.path].Folder? else t[e.path].Regular? && Sha256(t[e.path].bytes) == e.sha256)
    {
      assert FitsEntry(e, t);
      if e.File? && e.size > 0 { SentFileIsThere(chunkBytes, e, it.rc, t); }
      if e.File? {
        forall c | c in it.rc && c.path == e.path
          ensures Chunks.ValidateChunkRange(chunkBytes, e.size, c.offset, it.rc[c].length).Accepted?
        {
          var e2 :| e2 in m && e2.File? && e2.path == c.path
            && Chunks.ValidateChunkRange(chunkBytes, e2.size, c.offset, it.rc[c].length).Accepted?;
          assert e2 == e;
        }
        FileIsSource(chunkBytes, e, it.rc, t, src);
      }
    }
  }

  // ---------------------------------------------------------------- the client

  /** The store an upload of this user can go on in, without faults. */
  ghost predicate Going(store: Store, user: string, aid: Id, m: Manifest, src: Source) reads store {
    && store.Inv() && !store.down && store.calm && aid in store.rows
    && store.rows[aid].state == Uploading && store.rows[aid].owner == user && store.rows[aid].manifest == m
    && Honest(m) && IsSource(m, src) && TrueTo(store.Rc(aid), src)
    && store.Fl(aid).live.None? && store.Fl(aid).staging.Some? && HasEmptyOnes(m, store.Fl(aid).staging.value.vol)
  }

  /** The server's receipts of one file, as ranges. */
  method ListRanges(rc: Receipts, p: Path) returns (ranges: seq<Chunks.Interval>)
    ensures Chunks.Lists(ranges, IndexOf(rc, p))
  {
    ranges := [];
    var todo := set c | c in rc && c.path == p;
    while todo != {}
      invariant forall c | c in todo :: c in rc && c.path == p
      invariant forall i | i in ranges :: InRange(rc, p, i)
      invariant forall c | c in rc && c.path == p && c !in todo :: Chunks.Interval(c.offset, c.offset + rc[c].length) in ranges
      decreases |todo|
    {
      var c :| c in todo;
      assert c == Cell(p, c.offset);
      ranges := ranges + [Chunks.Interval(c.offset, c.offset + rc[c].length)];
      todo := todo - {c};
    }
  }

  predicate InRange(rc: Receipts, p: Path, i: Chunks.Interval) {
    i.start >= 0 && Cell(p, i.start) in rc && i.end == i.start + rc[Cell(p, i.start)].length
  }

  /** Receipts are only added. */
  predicate Grew(before: Receipts, after: Receipts) { before.Items <= after.Items }

  lemma SlicesAgree(chunkBytes: nat, m: Manifest, rc: Receipts, src: Source, e: Entry, start: nat, end: nat)
    requires chunkBytes > 0 && DistinctPaths(m) && ReceiptsOnGrid(chunkBytes, m, rc) && TrueTo(rc, src) && e in m && e.File?
    requires Chunks.IsCell(chunkBytes, e.size, start, end - start) && e.path in src && |src[e.path]| == e.size
    requires Cell(e.path, start) in rc
    ensures rc[Cell(e.path, start)] == Receipt(end - start, Sha256(src[e.path][start..end]))
  {
    var c := Cell(e.path, start);
    IndexIsOnGrid(chunkBytes, m, rc, e);
    assert start as int in IndexOf(rc, e.path) && IndexOf(rc, e.path)[start] == rc[c].length;
    Chunks.AcceptsExactlyTheCells(chunkBytes, e.size, start, rc[c].length);
    assert IsSlice(c, rc[c], src);
  }

  lemma OneSliceMore(rc: Receipts, src: Source, c: Cell, r: Receipt)
    requires TrueTo(rc, src) && IsSlice(c, r, src) && (c in rc ==> rc[c] == r)
    ensures TrueTo(rc[c := r], src) && Grew(rc, rc[c := r])
  {
    var next := rc[c := r];
    forall d | d in next ensures IsSlice(d, next[d], src) {
      if d != c { assert IsSlice(d, rc[d], src); }
    }
  }

  /** One chunk of the source. */
  method SendOne(store: Store, user: string, aid: Id, e: Entry, src: Source, start: nat, end: nat, now: int, ghost m: Manifest)
    requires Going(store, user, aid, m, src) && e in m && e.File?
    requires Chunks.IsCell(store.chunkBytes, e.size, start, end - start)
    modifies store
    ensures Going(store, user, aid, m, src) && Cell(e.path, start) in store.Rc(aid)
    ensures Grew(old(store.Rc(aid)), store.Rc(aid))
  {
    hide TrueTo, Grew, IsSource, Honest;
    SliceIsChunk(store, user, aid, e, src, start, end, m);
    var data := src[e.path][start..end];
    var c, receipt := Cell(e.path, start), Receipt(|data|, Sha256(data));
    ghost var rc := store.Rc(aid);
    var r := store.PutChunk(user, aid, e.path, start, data, Sha256(data), now);
    OneSliceMore(rc, src, c, receipt);
  }

  /** A cell of the source is a chunk the store takes, and contradicts no receipt. */
  lemma SliceIsChunk(store: Store, user: string, aid: Id, e: Entry, src: Source, start: nat, end: nat, m: Manifest)
    requires Going(store, user, aid, m, src) && e in m && e.File?
    requires Chunks.IsCell(store.chunkBytes, e.size, start, end - start)
    ensures e.path in src && end <= |src[e.path]| && store.IsChunkOf(m, e.path, start, end - start)
    ensures var c, r := Cell(e.path, start), Receipt(end - start, Sha256(src[e.path][start..end]));
            (c in store.Rc(aid) ==> store.Rc(aid)[c] == r) && IsSlice(c, r, src)
  {
    assert store.ItemInv(aid);
    if Cell(e.path, start) in store.Rc(aid) { SlicesAgree(store.chunkBytes, m, store.Rc(aid), src, e, start, end); }
    Chunks.AcceptsExactlyTheCells(store.chunkBytes, e.size, start, end - start);
    assert |src[e.path]| == e.size;
  }

  /** The first n chunks of the plan have their receipts. */
  ghost predicate Sent(plan: seq<Chunks.Interval>, n: nat, p: Path, rc: Receipts) {
    n <= |plan| && forall j | 0 <= j < n :: plan[j].start >= 0 && Cell(p, plan[j].start) in rc
  }

  lemma SentGrows(plan: seq<Chunks.Interval>, n: nat, p: Path, before: Receipts, after: Receipts)
    requires Sent(plan, n, p, before) && Grew(before, after)
    ensures Sent(plan, n, p, after)
  {
    forall j | 0 <= j < n ensures Cell(p, plan[j].start) in after {
      var c := Cell(p, plan[j].start);
      assert c in before && (c, before[c]) in before.Items;
    }
  }

  method SendPlan(store: Store, user: string, aid: Id, e: Entry, src: Source, plan: seq<Chunks.Interval>, now: int, ghost m: Manifest)
    requires Going(store, user, aid, m, src) && e in m && e.File?
    requires forall i | i in plan :: Chunks.IsCell(store.chunkBytes, e.size, i.start, i.end - i.start)
    modifies store
    ensures Going(store, user, aid, m, src) && Sent(plan, |plan|, e.path, store.Rc(aid))
    ensures Grew(old(store.Rc(aid)), store.Rc(aid))
  {
    hide Going;
    for i := 0 to |plan|
      invariant Going(store, user, aid, m, src) && Grew(old(store.Rc(aid)), store.Rc(aid))
      invariant Sent(plan, i, e.path, store.Rc(aid))
    {
      assert plan[i] in plan;
      ghost var before := store.Rc(aid);
      SendOne(store, user, aid, e, src, plan[i].start, plan[i].end, now, m);
      SentGrows(plan, i, e.path, before, store.Rc(aid));
    }
  }

  /** What was there and what was planned are all the cells. */
  lemma PlanCompletes(chunkBytes: nat, e: Entry, plan: seq<Chunks.Interval>, before: Receipts, after: Receipts)
    requires e.File? && Grew(before, after) && Sent(plan, |plan|, e.path, after)
    requires forall i: Chunks.Interval :: i in plan <==>
               Chunks.IsCell(chunkBytes, e.size, i.start, i.end - i.start) && i.start !in IndexOf(before, e.path)
    ensures AllSent(chunkBytes, e, after)
  {
    forall o: nat, n: int | Chunks.IsCell(chunkBytes, e.size, o, n) ensures Cell(e.path, o) in after {
      var cell := Chunks.Interval(o, o + n);
      if cell in plan {
        var j :| 0 <= j < |plan| && plan[j] == cell;
      } else {
        assert o as int in IndexOf(before, e.path);
        var c :| c in before && c.path == e.path && c.offset as int == o as int;
        assert c == Cell(e.path, o) && (c, before[c]) in before.Items;
      }
    }
  }

  /** The chunks of one file that the server does not have yet. */
  method SendMissing(store: Store, user: string, aid: Id, e: Entry, src: Source, now: int, ghost m: Manifest)
    requires Going(store, user, aid, m, src) && e in m && e.File?
    modifies store
    ensures Going(store, user, aid, m, src) && AllSent(store.chunkBytes, e, store.Rc(aid))
    ensures Grew(old(store.Rc(aid)), store.Rc(aid))
  {
    assert store.ItemInv(aid);
    ghost var rc := store.Rc(aid);
    IndexIsOnGrid(store.chunkBytes, m, rc, e);
    var ranges := ListRanges(store.Rc(aid), e.path);
    var plan := Chunks.ResumePlan(ranges, e.size, store.chunkBytes, IndexOf(rc, e.path));
    SendPlan(store, user, aid, e, src, plan, now, m);
    PlanCompletes(store.chunkBytes, e, plan, rc, store.Rc(aid));
  }

  /** An interrupted upload, resumed in a store without faults: after sending what was missing and nothing else, the
      publish succeeds. */
  method Resume(store: Store, user: string, aid: Id, src: Source, now: int) returns (r: Reply)
    requires store.Inv() && aid in store.rows && Going(store, user, aid, store.rows[aid].manifest, src)
    modifies store
    ensures store.Inv() && r == Ack && aid in store.rows && store.rows[aid].state == Ready
    ensures store.rows[aid].manifest == old(store.rows[aid].manifest)
  {
    var m := store.rows[aid].manifest;
    for i := 0 to |m|
      invariant Going(store, user, aid, m, src)
      invariant forall j | 0 <= j < i && m[j].File? :: AllSent(store.chunkBytes, m[j], store.Rc(aid))
    {
      if m[i].File? {
        assert m[i] in m;
        ghost var before := store.Rc(aid);
        SendMissing(store, user, aid, m[i], src, now, m);
        forall j | 0 <= j < i && m[j].File? ensures AllSent(store.chunkBytes, m[j], store.Rc(aid)) {
          SentStays(store.chunkBytes, m[j], before, store.Rc(aid));
        }
      }
    }
    assert store.ItemInv(aid);
    ReceivedIsVerified(store.chunkBytes, store.At(aid), src);
    r := store.Publish(user, aid, now);
  }

  /** A whole upload in a store without faults, within its limits: begun, sent, published, and served as it was. */
  method UploadAndPublish(store: Store, user: string, aid: Id, m: Manifest, src: Source, total: nat, now: int) returns (r: Reply)
    requires store.Inv() && !store.down && store.calm && aid !in store.used
    requires DistinctPaths(m) && Honest(m) && IsSource(m, src) && store.HasRoom(user, total)
    modifies store
    ensures store.Inv() && r == Ack && aid in store.rows && store.rows[aid].state == Ready
    ensures store.rows[aid].manifest == m && SafelyPublished(m, store.Fl(aid))
    ensures forall e | e in m && e.File? :: store.Fl(aid).live.value.dur[e.path] == Regular(src[e.path])
  {
    r := store.Init(aid, user, m, total, now, None);
    r := Resume(store, user, aid, src, now);
    PublishedIsSource(store, aid, m, src);
  }

  // ---------------------------------------------------------------- after any run

  /** The command puts nothing of this artifact but slices of the source. */
  predicate PutsSource(cmd: Command, aid: Id, src: Source) {
    cmd.AskPut? && cmd.aid == aid && cmd.offset >= 0 ==>
      IsSlice(Cell(cmd.path, cmd.offset), Receipt(|cmd.data|, Sha256(cmd.data)), src)
  }

  lemma StaysTrue(cmd: Command, aid: Id, was: Receipts, rc: Receipts, src: Source)
    requires TrueTo(was, src) && PutsSource(cmd, aid, src) && Store.ReceiptsFollow(cmd, aid, was, rc)
    ensures TrueTo(rc, src)
  {
    forall c | c in rc ensures IsSlice(c, rc[c], src) {
      if c in was && rc[c] == was[c] { assert IsSlice(c, was[c], src); }
    }
  }

  /** The row of the artifact, if it is there, is the one it was created with. */
  ghost predicate BornAs(store: Store, aid: Id, user: string, m: Manifest) reads store {
    aid in store.born && store.born[aid].owner == user && store.born[aid].manifest == m
  }

  /** Any run, whatever fails or crashes in it, in which only slices of the source are put: the receipts stay true. */
  method RunTruly(store: Store, script: seq<Command>, user: string, aid: Id, m: Manifest, src: Source)
    requires store.Inv() && aid in store.used && BornAs(store, aid, user, m) && TrueTo(store.Rc(aid), src)
    requires forall cmd | cmd in script :: PutsSource(cmd, aid, src)
    modifies store
    ensures store.Inv() && aid in store.used && BornAs(store, aid, user, m) && TrueTo(store.Rc(aid), src)
    decreases |script|
  {
    hide TrueTo, PutsSource;
    if script == [] { return; }
    assert script[0] in script;
    ghost var was := store.Rc(aid);
    var _ := store.Do(script[0]);
    assert store.FollowedAt(script[0], aid);
    StaysTrue(script[0], aid, was, store.Rc(aid), src);
    assert forall cmd | cmd in script[1..] :: cmd in script;
    RunTruly(store, script[1..], user, aid, m, src);
  }

  /** The main result: an upload begun, then anything at all (puts of its source, publishes, faults, kills, losses of
      power, restarts, sweeps), then a start and a resume without faults. If the artifact is still there it is then
      published, and its durable live files are the source's bytes. */
  method ResumeAfterRun(store: Store, script: seq<Command>, power: bool, user: string, aid: Id, m: Manifest, src: Source, now: int)
    requires store.Inv() && aid in store.used && BornAs(store, aid, user, m) && TrueTo(store.Rc(aid), src)
    requires Honest(m) && IsSource(m, src) && forall cmd | cmd in script :: PutsSource(cmd, aid, src)
    modifies store
    ensures store.Inv()
    ensures aid in store.rows ==>
              && store.rows[aid].manifest == m && store.rows[aid].state == Ready && SafelyPublished(m, store.Fl(aid))
              && forall e | e in m && e.File? :: store.Fl(aid).live.value.dur[e.path] == Regular(src[e.path])
  {
    hide TrueTo, IsSource, PutsSource, Honest, SafelyPublished, Going;
    RunTruly(store, script, user, aid, m, src);
    store.calm := true;
    if !store.down { store.Kill(); }
    RestartTruly(store, power, user, aid, m, src);
    if aid !in store.rows { return; }
    if store.rows[aid].state != Ready {
      var r := Resume(store, user, aid, src, now);
    }
    PublishedIsSource(store, aid, m, src);
  }

  /** A start without faults leaves the upload published or ready to go on. */
  method RestartTruly(store: Store, power: bool, user: string, aid: Id, m: Manifest, src: Source)
    requires store.Inv() && store.down && store.calm && BornAs(store, aid, user, m) && TrueTo(store.Rc(aid), src)
    requires Honest(m) && IsSource(m, src) && aid in store.used
    modifies store
    ensures store.Inv() && (aid in store.rows ==> store.rows[aid].manifest == m)
    ensures aid in store.rows && store.rows[aid].state != Ready ==> Going(store, user, aid, m, src)
  {
    hide TrueTo, IsSource, Honest;
    ghost var was := store.Rc(aid);
    var _ := store.Restart(power);
    assert store.ItemInv(aid);
    if aid in store.rows && store.rows[aid].state != Ready {
      StillTrue(was, store.Rc(aid), src);
      SettledIsGoing(store, user, aid, m, src);
    }
  }

  lemma SettledIsGoing(store: Store, user: string, aid: Id, m: Manifest, src: Source)
    requires store.Inv() && !store.down && store.calm && aid in store.rows && Settled(store.At(aid))
    requires store.rows[aid].state != Ready && store.rows[aid].owner == user && store.rows[aid].manifest == m
    requires Honest(m) && IsSource(m, src) && TrueTo(store.Rc(aid), src)
    ensures Going(store, user, aid, m, src)
  {
    hide TrueTo, IsSource;
    assert store.At(aid).f == store.Fl(aid);
  }

  lemma StillTrue(was: Receipts, rc: Receipts, src: Source)
    requires TrueTo(was, src) && Store.NoneNew(was, rc)
    ensures TrueTo(rc, src)
  {
    forall c | c in rc ensures IsSlice(c, rc[c], src) { assert IsSlice(c, was[c], src); }
  }

  lemma PublishedIsSource(store: Store, aid: Id, m: Manifest, src: Source)
    requires store.Inv() && aid in store.rows && store.rows[aid].state == Ready && store.rows[aid].manifest == m
    requires IsSource(m, src)
    ensures SafelyPublished(m, store.Fl(aid))
    ensures forall e | e in m && e.File? :: store.Fl(aid).live.value.dur[e.path] == Regular(src[e.path])
  {
    store.ReadyIsServed(aid);
    forall e | e in m && e.File? ensures store.Fl(aid).live.value.dur[e.path] == Regular(src[e.path]) {
      assert Sha256(store.Fl(aid).live.value.dur[e.path].bytes) == Sha256(src[e.path]);
    }
  }

  lemma SentStays(chunkBytes: nat, e: Entry, before: Receipts, after: Receipts)
    requires e.File? && AllSent(chunkBytes, e, before) && Grew(before, after)
    ensures AllSent(chunkBytes, e, after)
  {
    forall o: nat, n: int | Chunks.IsCell(chunkBytes, e.size, o, n) ensures Cell(e.path, o) in after {
      var c := Cell(e.path, o);
      assert c in before && (c, before[c]) in before.Items;
    }
  }
}
