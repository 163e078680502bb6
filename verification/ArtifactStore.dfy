/** The artifact store: rows and receipts in a transactional database, trees on a file system that can fail
    or crash at any primitive step. Every method keeps the invariant on every path out of it: success,
    error, injected fault, or the death of the process between any two steps. */
module ArtifactStore {
  import opened Wrappers
  import opened Payload
  import opened Disk
  import opened Artifact
  import opened Effects
  import Chunks
  import Limits

  type Id = string

  datatype Code =
    | NotFound | NotOwned | StateConflict | InvalidRange | TooLarge | ChunkConflict | HashMismatch
    | InvalidPath | Unavailable | InvalidManifest | QuotaExceeded | SessionLimit

  /** How a primitive fails: with the store's own error, an operating system error, or a database error. */
  datatype FaultKind = Storage(code: Code) | Os | Sqlite

  datatype Step = Done | Fault(kind: FaultKind) | Crashed

  /** What the caller of an operation sees; `Died` when the process went down in the middle. */
  datatype Reply = Ack | Err(code: Code) | Died

  /** What a store holds between two operations, with the history of its ids. */
  datatype Moment = Moment(
    rows: map<Id, Row>, receipts: map<Id, Receipts>, files: map<Id, Files>, acked: map<Id, Receipts>, born: map<Id, Row>)

  /** One operation of a run. Between operations the process may be killed or the machine lose power. */
  datatype Command =
    | AskInit(aid: Id, user: string, manifest: Manifest, total: nat, now: int, expires: Option<int>)
    | AskPut(user: string, aid: Id, path: Path, offset: int, data: Bytes, sha: Digest, now: int)
    | AskPublish(user: string, aid: Id, now: int)
    | AskDelete(aid: Id)
    | AskSweep(now: int, aged: set<Id>)
    | Reboot(power: bool)

  /** The outcome of a step that happens entirely or not at all. */
  predicate AllOrNothing<T(==)>(s: Step, before: T, after: T, target: T) {
    match s
    case Done => after == target
    case Fault(_) => after == before
    case Crashed => after == before || after == target
  }

  /** The outcome of a step that can also stop half-way. */
  predicate MaybePartial<T(==)>(s: Step, before: T, after: T, part: T, target: T) {
    match s
    case Done => after == target
    case Fault(_) => after == before || after == part
    case Crashed => after == before || after == part || after == target
  }

  class Store {
    const chunkBytes: nat
    const idleTtl: int
    const quota: nat
    const maxSessions: nat
    const maxPerUser: nat
    /** When set, the disk and the database do not fail. */
    var calm: bool

    var rows: map<Id, Row>
    var receipts: map<Id, Receipts>
    var files: map<Id, Files>
    /** The process has gone down and has not been restarted. */
    var down: bool

    /** The source of fresh ids: those handed out so far. */
    var used: set<Id>
    /** History: what each row was created with, and the chunks acknowledged for it. */
    ghost var born: map<Id, Row>
    ghost var acked: map<Id, Receipts>
    constructor (chunkBytes: nat, idleTtl: int, quota: nat, maxSessions: nat, maxPerUser: nat)
      requires chunkBytes > 0
      ensures this.chunkBytes == chunkBytes && this.idleTtl == idleTtl && Inv() && !down
      ensures this.quota == quota && this.maxSessions == maxSessions && this.maxPerUser == maxPerUser
      ensures rows == map[] && receipts == map[] && files == map[] && used == {}
    {
      this.chunkBytes := chunkBytes;
      this.idleTtl, this.quota := idleTtl, quota;
      this.maxSessions, this.maxPerUser := maxSessions, maxPerUser;
      calm := false;
      rows, receipts, files, down := map[], map[], map[], false;
      used, born, acked := {}, map[], map[];
    }

    function Rc(aid: Id): Receipts reads `receipts { if aid in receipts then receipts[aid] else map[] }

    function Fl(aid: Id): Files reads `files { if aid in files then files[aid] else NoFiles }

    /** Everything the store holds for one id. */
    ghost function At(aid: Id): Item reads `rows, `receipts, `files, `acked {
      Item(if aid in rows then Some(rows[aid]) else None, Rc(aid), Fl(aid),
                if aid in acked then acked[aid] else map[])
    }

    ghost predicate ItemInv(aid: Id) reads `rows, `receipts, `files, `acked, `used, `born {
      && Ok(chunkBytes, At(aid))
      && AckedOk(At(aid))
      && (aid !in used ==> At(aid) == Item(None, map[], NoFiles, map[]) && aid !in born)
      && (aid in used ==> aid in born)
      && (aid in rows ==> born[aid] == Origin(rows[aid]))
    }

    ghost predicate Inv() reads `rows, `receipts, `files, `acked, `used, `born {
      && chunkBytes > 0 && (forall aid: Id :: ItemInv(aid))
      && Limits.Within(rows, quota, maxSessions, maxPerUser)
    }

    /** All but state and activity of a row is fixed, and a published one stays published. */
    predicate KeepsRow(aid: Id, row: Option<Row>) reads `rows {
      row.Some? ==>
        && aid in rows && Origin(row.value) == Origin(rows[aid])
        && (row.value.state != Ready ==> rows[aid].state != Ready)
    }

    /** Nothing but the one artifact has changed. */
    twostate predicate Only(aid: Id) reads `rows, `receipts, `files, `acked, `used, `born {
      && (forall other: Id | other != aid :: At(other) == old(At(other)))
      && used == old(used) && born == old(born)
    }

    /** No receipt is new. */
    static predicate NoneNew(before: Receipts, after: Receipts) {
      forall c | c in after :: c in before && after[c] == before[c]
    }

    /** Every acknowledged chunk is still promised, but for those whose promise has been broken. */
    static ghost predicate AcksStand(was: Receipts, it: Item) { it.acked == StillHeld(it, was) }

    twostate lemma OthersKeepInv(aid: Id)
      requires old(Inv()) && Only(aid) && ItemInv(aid)
      requires Limits.Within(rows, quota, maxSessions, maxPerUser)
      ensures Inv()
    {
      hide Ok, AckedOk;
      forall other: Id ensures ItemInv(other) {
        if other != aid { assert old(ItemInv(other)); }
      }
    }

    // ---------------------------------------------------------- primitive steps

    /** The database now holds this row and these receipts. */
    method Write(aid: Id, row: Option<Row>, rc: Receipts)
      requires Inv() && aid in used && KeepsRow(aid, row)
      requires Ok(chunkBytes, At(aid).(row := row, rc := rc))
      requires AckedOk(At(aid).(row := row, rc := rc))
      modifies `rows, `receipts
      ensures Inv() && Only(aid) && At(aid) == old(At(aid)).(row := row, rc := rc)
    {
      hide Ok, AckedOk, Limits.Within;
      ghost var target := At(aid).(row := row, rc := rc);
      assert ItemInv(aid);
      if row.Some? {
        assert Origin(row.value).reserved == Origin(rows[aid]).reserved && Origin(row.value).owner == Origin(rows[aid]).owner;
        Limits.UpdateStaysWithin(rows, aid, row.value, quota, maxSessions, maxPerUser);
        rows := rows[aid := row.value];
      } else {
        Limits.RemovalStaysWithin(rows, aid, quota, maxSessions, maxPerUser);
        rows := rows - {aid};
      }
      receipts := receipts[aid := rc];
      assert At(aid) == target;
      assert aid in rows ==> rows[aid] == row.value;
      assert ItemInv(aid);
      OthersKeepInv(aid);
    }

    /** The trees of the artifact are now these. */
    method Place(aid: Id, f: Files)
      requires Inv() && aid in used
      requires Ok(chunkBytes, At(aid).(f := f)) && AckedOk(At(aid).(f := f))
      modifies `files
      ensures Inv() && Only(aid) && At(aid) == old(At(aid)).(f := f)
    {
      hide Ok, AckedOk;
      ghost var target := At(aid).(f := f);
      assert ItemInv(aid);
      files := files[aid := f];
      assert At(aid) == target;
      OthersKeepInv(aid);
    }

    /** One database transaction on the row and the receipts of one artifact. */
    method Transact(aid: Id, row: Option<Row>, rc: Receipts) returns (s: Step)
      requires Inv() && !down && aid in used && KeepsRow(aid, row)
      requires Ok(chunkBytes, At(aid).(row := row, rc := rc))
      requires AckedOk(At(aid).(row := row, rc := rc))
      modifies this`rows, this`receipts, this`down
      ensures Inv() && Only(aid) && down == s.Crashed?
      ensures AllOrNothing(s, old(At(aid)), At(aid), old(At(aid)).(row := row, rc := rc))
      ensures calm ==> s.Done?
      ensures s.Fault? ==> s.kind == Sqlite || s.kind == Storage(Unavailable)
    {
      hide Ok, AckedOk;
      s := *;
      if calm { s := Done; }
      if s.Fault? {
        var sqlite: bool := *;
        s := Fault(if sqlite then Sqlite else Storage(Unavailable));
      }
      var applied: bool := *;
      if s.Done? || (s.Crashed? && applied) {
        Write(aid, row, rc);
      }
      down := s.Crashed?;
    }

    /** One file system operation on the trees of one artifact; `part` is where it may stop half-way. */
    method OnDisk(aid: Id, part: Files, target: Files) returns (s: Step)
      requires Inv() && !down && aid in used
      requires Ok(chunkBytes, At(aid).(f := part)) && Ok(chunkBytes, At(aid).(f := target))
      requires AckedOk(At(aid).(f := part)) && AckedOk(At(aid).(f := target))
      modifies this`files, this`down
      ensures Inv() && Only(aid) && down == s.Crashed?
      ensures MaybePartial(s, old(At(aid)), At(aid), old(At(aid)).(f := part), old(At(aid)).(f := target))
      ensures calm ==> s.Done?
      ensures s.Fault? ==> s.kind == Os || s.kind == Storage(InvalidPath) || s.kind == Storage(Unavailable)
    {
      hide Ok, AckedOk;
      s := *;
      if calm { s := Done; }
      if s.Fault? {
        var os: bool, path: bool := *, *;
        s := Fault(if os then Os else if path then Storage(InvalidPath) else Storage(Unavailable));
      }
      var halfway: bool, applied: bool := *, *;
      if s.Done? || (s.Crashed? && applied) {
        Place(aid, target);
      } else if halfway {
        Place(aid, part);
      }
      down := s.Crashed?;
    }

    // ---------------------------------------------------------- staging

    /** What a restartable upload needs: the staging tree with a node for every manifest entry. */
    ghost predicate HasTopology(aid: Id) reads `rows, `files {
      aid in rows && Fl(aid).staging.Some? && forall e | e in rows[aid].manifest :: e.path in Fl(aid).staging.value.vol
    }

    /** The live side of the files is as it was. */
    twostate predicate LiveUntouched(aid: Id) reads `files {
      && Fl(aid).live == old(Fl(aid).live) && Fl(aid).moved == old(Fl(aid).moved)
      && Fl(aid).lostLive == old(Fl(aid).lostLive)
    }

    /** Nodes that were staged before still are, unchanged. */
    twostate predicate StagingGrew(aid: Id) reads `files {
      old(Fl(aid).staging.Some?) ==>
        Fl(aid).staging.Some?
        && forall p | p in old(Fl(aid).staging.value.vol) ::
             p in Fl(aid).staging.value.vol && Fl(aid).staging.value.vol[p] == old(Fl(aid).staging.value.vol[p])
    }

    method MakeStaging(aid: Id) returns (s: Step)
      requires Inv() && !down && aid in used
      modifies this`files, this`down
      ensures Inv() && Only(aid) && down == s.Crashed? && (calm ==> s.Done?)
      ensures LiveUntouched(aid) && StagingGrew(aid)
      ensures s.Done? ==> Fl(aid) == StagingMade(old(Fl(aid)))
    {
      assert ItemInv(aid);
      StagingMadeKeepsOk(chunkBytes, At(aid));
      s := OnDisk(aid, Fl(aid), StagingMade(Fl(aid)));
    }

    method CreateEntry(aid: Id, e: Entry) returns (s: Step)
      requires Inv() && !down && aid in used && Fl(aid).staging.Some? && e.path !in Fl(aid).staging.value.vol
      requires aid in rows ==> e in rows[aid].manifest
      modifies this`files, this`down
      ensures Inv() && Only(aid) && down == s.Crashed? && (calm ==> s.Done?)
      ensures LiveUntouched(aid) && StagingGrew(aid)
      ensures s.Done? ==> Fl(aid) == Put(old(Fl(aid)), Image(old(Fl(aid).staging.value.vol)[e.path := Blank(e)],
                                                             old(Fl(aid).staging.value.dur)[e.path := Blank(e)]))
    {
      var img := Fl(aid).staging.value;
      var vol := img.vol[e.path := Blank(e)];
      assert ItemInv(aid);
      CreateKeepsOk(chunkBytes, At(aid), e, img.dur);
      CreateKeepsOk(chunkBytes, At(aid), e, img.dur[e.path := Blank(e)]);
      s := OnDisk(aid, Put(Fl(aid), Image(vol, img.dur)), Put(Fl(aid), Image(vol, img.dur[e.path := Blank(e)])));
    }

    /** Rebuilds the staging tree from the manifest: directories and empty files for whatever is missing. */
    method EnsureTopology(aid: Id) returns (s: Step)
      requires Inv() && !down && aid in rows
      modifies this`files, this`down
      ensures Inv() && Only(aid) && down == s.Crashed? && (calm ==> s.Done?)
      ensures LiveUntouched(aid) && StagingGrew(aid)
      ensures s.Done? ==> HasTopology(aid)
      ensures old(HasTopology(aid)) && s.Done? ==> Fl(aid) == old(Fl(aid))
    {
      assert ItemInv(aid);
      var m := rows[aid].manifest;
      s := MakeStaging(aid);
      if !s.Done? { return; }
      for i := 0 to |m|
        invariant Inv() && !down && Only(aid) && aid in rows && rows[aid].manifest == m
        invariant s.Done? && LiveUntouched(aid) && StagingGrew(aid) && Fl(aid).staging.Some?
        invariant forall e | e in m[..i] :: e.path in Fl(aid).staging.value.vol
        invariant old(HasTopology(aid)) ==> Fl(aid) == old(Fl(aid))
      {
        if m[i].path !in Fl(aid).staging.value.vol {
          assert m[i] in m;
          s := CreateEntry(aid, m[i]);
          if !s.Done? { return; }
        }
      }
      assert m[..|m|] == m;
    }

    // ---------------------------------------------------------- receipts against bytes

    predicate StagedGood(aid: Id, c: Cell, r: Receipt) reads `files {
      Fl(aid).staging.Some? && Good(Fl(aid).staging.value.vol, c, r)
    }

    /** No staged byte of the path lies beyond its last receipt. */
    ghost predicate Trimmed(aid: Id, p: Path) reads `receipts, `files { PathTrimmed(Rc(aid), Fl(aid), p) }

    /** Receipts of other paths stay, and of this path those with matching bytes. */
    twostate predicate OnlyBadReceiptsGone(aid: Id, paths: set<Path>) reads `receipts {
      && (forall c | c in Rc(aid) :: c in old(Rc(aid)) && Rc(aid)[c] == old(Rc(aid))[c])
      && (forall c | c in old(Rc(aid)) && (c.path !in paths || old(StagedGood(aid, c, Rc(aid)[c]))) :: c in Rc(aid))
    }

    /** Dropping unbacked receipts loses nothing acknowledged, unless the bytes are behind an unsynced rename. */
    ghost predicate MayReconcile(aid: Id) reads `rows, `receipts, `files, `acked {
      At(aid).acked == map[] || (aid in rows && Dependable(rows[aid].manifest) ==> LiveStable(Fl(aid)) || !Fl(aid).moved)
    }

    method DropReceipt(aid: Id, c: Cell) returns (s: Step)
      requires Inv() && !down && aid in rows && c in Rc(aid) && MayReconcile(aid)
      requires !StagedGood(aid, c, Rc(aid)[c])
      modifies this`rows, this`receipts, this`down
      ensures Inv() && Only(aid) && down == s.Crashed? && (calm ==> s.Done?)
      ensures aid in rows && rows[aid] == old(rows[aid])
      ensures s.Fault? ==> Rc(aid) == old(Rc(aid))
      ensures s.Done? ==> Rc(aid) == old(Rc(aid)) - {c}
      ensures Rc(aid) == old(Rc(aid)) || Rc(aid) == old(Rc(aid)) - {c}
    {
      assert ItemInv(aid);
      s := Transact(aid, Some(rows[aid]), Rc(aid) - {c});
    }

    /** The end of the last receipt of a path. */
    method MaxEnd(aid: Id, p: Path, size: nat) returns (end: nat)
      requires forall c | c in Rc(aid) && c.path == p :: c.offset + Rc(aid)[c].length <= size
      ensures forall c | c in Rc(aid) && c.path == p :: c.offset + Rc(aid)[c].length <= end
      ensures end == 0 || exists c :: c in Rc(aid) && c.path == p && c.offset + Rc(aid)[c].length == end
    {
      end := 0;
      var rc := Rc(aid);
      var todo := set c | c in rc && c.path == p;
      while todo != {}
        invariant forall c | c in todo :: c in rc && c.path == p
        invariant forall c | c in rc && c.path == p && c !in todo :: c.offset + rc[c].length <= end
        invariant end == 0 || exists c :: c in rc && c.path == p && c.offset + rc[c].length == end
        decreases |todo|
      {
        var c :| c in todo;
        end := Chunks.Max(end, c.offset + rc[c].length);
        todo := todo - {c};
      }
      end := Chunks.Min(end, size);
    }

    method TruncateTo(aid: Id, p: Path, end: nat) returns (s: Step)
      requires Inv() && !down && aid in used && Fl(aid).staging.Some?
      requires p in Fl(aid).staging.value.vol && Fl(aid).staging.value.vol[p].Regular?
      requires end <= |Fl(aid).staging.value.vol[p].bytes|
      requires forall c | c in Rc(aid) && c.path == p :: c.offset + Rc(aid)[c].length <= end
      modifies this`files, this`down
      ensures Inv() && Only(aid) && down == s.Crashed? && (calm ==> s.Done?)
      ensures LiveUntouched(aid) && Fl(aid).staging.Some?
      ensures Fl(aid).staging.value.vol == old(Fl(aid).staging.value.vol)
           || Fl(aid).staging.value.vol == Truncated(old(Fl(aid).staging.value.vol), p, end)
      ensures s.Done? ==> Fl(aid).staging.value.vol == Truncated(old(Fl(aid).staging.value.vol), p, end)
    {
      var img := Fl(aid).staging.value;
      var cut := Image(Truncated(img.vol, p, end), img.dur);
      assert ItemInv(aid);
      TruncateKeepsOk(chunkBytes, At(aid), p, end);
      s := OnDisk(aid, Put(Fl(aid), cut), Put(Fl(aid), FileSynced(cut, p)));
    }

    ghost predicate PathGood(aid: Id, p: Path) reads `receipts, `files {
      forall c | c in Rc(aid) && c.path == p :: StagedGood(aid, c, Rc(aid)[c])
    }

    /** Staged nodes of other paths are as they were. */
    twostate predicate OtherPathsKept(aid: Id, paths: set<Path>) reads `files {
      && Fl(aid).staging.Some? == old(Fl(aid).staging.Some?)
      && (Fl(aid).staging.Some? ==>
            && Fl(aid).staging.value.vol.Keys == old(Fl(aid).staging.value.vol.Keys)
            && forall p | p in Fl(aid).staging.value.vol && p !in paths ::
                 Fl(aid).staging.value.vol[p] == old(Fl(aid).staging.value.vol[p]))
    }

    /** Drops the receipts of one file that its staged bytes do not bear out. */
    method DropBadReceipts(aid: Id, p: Path) returns (s: Step)
      requires Inv() && !down && aid in rows && MayReconcile(aid)
      modifies this`rows, this`receipts, this`down
      ensures Inv() && Only(aid) && down == s.Crashed? && (calm ==> s.Done?)
      ensures aid in rows && rows[aid] == old(rows[aid])
      ensures OnlyBadReceiptsGone(aid, {p})
      ensures s.Done? ==> PathGood(aid, p)
      ensures old(PathGood(aid, p)) ==> Rc(aid) == old(Rc(aid))
    {
      hide Ok, AckedOk, Limits.Within, Good;
      s := Done;
      var rc := Rc(aid);
      var todo := set c | c in rc && c.path == p && !StagedGood(aid, c, rc[c]);
      while todo != {}
        invariant Inv() && !down && Only(aid) && s.Done? && aid in rows && rows[aid] == old(rows[aid])
        invariant MayReconcile(aid)
        invariant forall c | c in todo :: c in Rc(aid) && c.path == p && c in rc && !StagedGood(aid, c, rc[c])
        invariant forall c | c in Rc(aid) :: c in rc && Rc(aid)[c] == rc[c]
        invariant forall c | c in rc && (c.path != p || StagedGood(aid, c, rc[c])) :: c in Rc(aid)
        invariant forall c | c in Rc(aid) && c.path == p && !StagedGood(aid, c, rc[c]) :: c in todo
        invariant old(PathGood(aid, p)) ==> todo == {} && Rc(aid) == rc
        decreases |todo|
      {
        var c :| c in todo;
        s := DropReceipt(aid, c);
        if !s.Done? { return; }
        todo := todo - {c};
      }
    }

    /** Cuts a staged file back to the end of its last receipt; a failure here is ignored. */
    method TrimFile(aid: Id, e: Entry) returns (s: Step)
      requires Inv() && !down && aid in rows && e in rows[aid].manifest && e.File?
      modifies this`files, this`down
      ensures Inv() && Only(aid) && down == s.Crashed? && (calm ==> s.Done?) && !s.Fault?
      ensures LiveUntouched(aid) && OtherPathsKept(aid, {e.path})
      ensures forall c | c in Rc(aid) && old(StagedGood(aid, c, Rc(aid)[c])) :: StagedGood(aid, c, Rc(aid)[c])
      ensures calm ==> Trimmed(aid, e.path)
      ensures old(Trimmed(aid, e.path)) ==> Fl(aid) == old(Fl(aid))
    {
      s := Done;
      assert ItemInv(aid);
      forall c | c in Rc(aid) && c.path == e.path ensures c.offset + Rc(aid)[c].length <= e.size {
        var e2 :| e2 in rows[aid].manifest && e2.File? && e2.path == c.path
          && Chunks.ValidateChunkRange(chunkBytes, e2.size, c.offset, Rc(aid)[c].length).Accepted?;
        assert e2 == e;
      }
      var end := MaxEnd(aid, e.path, e.size);
      if Fl(aid).staging.Some? && e.path in Fl(aid).staging.value.vol
        && Fl(aid).staging.value.vol[e.path].Regular? && |Fl(aid).staging.value.vol[e.path].bytes| > end {
        ghost var t := Fl(aid).staging.value.vol;
        forall c | c in Rc(aid) && StagedGood(aid, c, Rc(aid)[c]) ensures Good(Truncated(t, e.path, end), c, Rc(aid)[c]) {
          TruncateKeepsGood(t, e.path, end, c, Rc(aid)[c]);
        }
        s := TruncateTo(aid, e.path, end);
        if s.Fault? { s := Done; }
      }
    }

    /** One file: receipts without matching bytes go, bytes without a receipt at the end go. */
    method ReconcileFile(aid: Id, e: Entry) returns (s: Step)
      requires Inv() && !down && aid in rows && e in rows[aid].manifest && e.File? && MayReconcile(aid)
      modifies this`rows, this`receipts, this`files, this`down
      ensures Inv() && Only(aid) && down == s.Crashed? && (calm ==> s.Done?)
      ensures aid in rows && rows[aid] == old(rows[aid])
      ensures LiveUntouched(aid) && OtherPathsKept(aid, {e.path}) && OnlyBadReceiptsGone(aid, {e.path})
      ensures GoodReceiptsKept(aid)
      ensures s.Done? ==> PathGood(aid, e.path) && (calm ==> Trimmed(aid, e.path))
      ensures old(PathGood(aid, e.path) && Trimmed(aid, e.path)) ==> Rc(aid) == old(Rc(aid)) && Fl(aid) == old(Fl(aid))
    {
      s := DropBadReceipts(aid, e.path);
      if !s.Done? { return; }
      s := TrimFile(aid, e);
    }

    ghost predicate AllReceiptsGood(aid: Id) reads `receipts, `files {
      forall c | c in Rc(aid) :: StagedGood(aid, c, Rc(aid)[c])
    }

    ghost predicate AllTrimmed(aid: Id) reads `rows, `receipts, `files {
      aid in rows && forall e | e in rows[aid].manifest && e.File? :: Trimmed(aid, e.path)
    }

    /** No receipt is new, and none that the staged bytes bear out is gone or spoiled. */
    twostate predicate GoodReceiptsKept(aid: Id) reads `receipts, `files {
      && (forall c | c in Rc(aid) :: c in old(Rc(aid)) && Rc(aid)[c] == old(Rc(aid))[c])
      && (forall c | c in old(Rc(aid)) && old(StagedGood(aid, c, Rc(aid)[c])) :: c in Rc(aid) && StagedGood(aid, c, Rc(aid)[c]))
    }

    twostate predicate StagedNamesKept(aid: Id) reads `files {
      && Fl(aid).staging.Some? == old(Fl(aid).staging.Some?)
      && (Fl(aid).staging.Some? ==> Fl(aid).staging.value.vol.Keys == old(Fl(aid).staging.value.vol.Keys))
    }

    /** The first n manifest entries are reconciled. */
    ghost predicate FilesDone(aid: Id, n: nat) reads `rows, `receipts, `files, `calm {
      aid in rows && n <= |rows[aid].manifest| &&
      forall i | 0 <= i < n && rows[aid].manifest[i].File? ::
        PathGood(aid, rows[aid].manifest[i].path) && (calm ==> Trimmed(aid, rows[aid].manifest[i].path))
    }

    method ReconcileNext(aid: Id, n: nat) returns (s: Step)
      requires Inv() && !down && aid in rows && n < |rows[aid].manifest| && MayReconcile(aid)
      requires FilesDone(aid, n)
      modifies this`rows, this`receipts, this`files, this`down
      ensures Inv() && Only(aid) && down == s.Crashed? && (calm ==> s.Done?)
      ensures aid in rows && rows[aid] == old(rows[aid])
      ensures LiveUntouched(aid) && StagedNamesKept(aid) && GoodReceiptsKept(aid)
      ensures s.Done? ==> FilesDone(aid, n + 1)
      ensures old(AllReceiptsGood(aid) && AllTrimmed(aid)) ==> Rc(aid) == old(Rc(aid)) && Fl(aid) == old(Fl(aid))
    {
      hide Ok, AckedOk, Limits.Within, OnlyBadReceiptsGone;
      s := Done;
      assert ItemInv(aid);
      var e := rows[aid].manifest[n];
      if e.File? {
        s := ReconcileFile(aid, e);
      }
    }

    /** Receipts of every file against its staged bytes. */
    method ReconcileFiles(aid: Id) returns (s: Step)
      requires Inv() && !down && aid in rows && MayReconcile(aid)
      modifies this`rows, this`receipts, this`files, this`down
      ensures Inv() && Only(aid) && down == s.Crashed? && (calm ==> s.Done?)
      ensures aid in rows && rows[aid] == old(rows[aid])
      ensures LiveUntouched(aid) && StagedNamesKept(aid) && GoodReceiptsKept(aid)
      ensures s.Done? ==> AllReceiptsGood(aid) && (calm ==> AllTrimmed(aid))
      ensures old(AllReceiptsGood(aid) && AllTrimmed(aid)) ==> Rc(aid) == old(Rc(aid)) && Fl(aid) == old(Fl(aid))
    {
      s := Done;
      for i := 0 to |rows[aid].manifest|
        invariant Inv() && !down && Only(aid) && s.Done? && aid in rows && rows[aid] == old(rows[aid])
        invariant MayReconcile(aid) && LiveUntouched(aid) && StagedNamesKept(aid) && GoodReceiptsKept(aid)
        invariant FilesDone(aid, i)
        invariant old(AllReceiptsGood(aid) && AllTrimmed(aid)) ==> Rc(aid) == old(Rc(aid)) && Fl(aid) == old(Fl(aid))
      {
        s := ReconcileNext(aid, i);
        if !s.Done? { return; }
      }
      assert ItemInv(aid);
    }

    // ---------------------------------------------------------- removing trees

    /** What is left of a tree when its recursive removal stops early. */
    method SomeOf(t: Tree) returns (part: Tree)
      ensures Part(part, t)
    {
      var keep: set<Path> := *;
      part := map p | p in t && p in keep :: t[p];
    }

    /** Removes the staging tree of a published or deleted artifact. */
    method RemoveStaging(aid: Id) returns (s: Step)
      requires Inv() && !down && aid in used && (aid in rows ==> rows[aid].state == Ready || (Rc(aid) == map[] && At(aid).acked == map[]))
      modifies this`files, this`down
      ensures Inv() && Only(aid) && down == s.Crashed? && (calm ==> s.Done?)
      ensures LiveUntouched(aid)
      ensures calm ==> Fl(aid).staging.None?
      ensures old(Fl(aid).staging.None?) ==> Fl(aid) == old(Fl(aid))
    {
      s := Done;
      assert ItemInv(aid);
      if Fl(aid).staging.Some? {
        var part := SomeOf(Fl(aid).staging.value.vol);
        if aid in rows { PartFits(rows[aid].manifest, part, Fl(aid).staging.value.vol); }
        s := OnDisk(aid, Put(Fl(aid), Image(part, Fl(aid).staging.value.dur)), StagingRemoved(Fl(aid)));
        if s.Fault? && s.kind != Os { s := Done; }
      }
    }

    /** Removes a live tree that is incomplete, or whose row is gone. */
    method RemoveLive(aid: Id) returns (s: Step)
      requires Inv() && !down && aid in used
      requires aid in rows && Fl(aid).live.Some? ==>
                 rows[aid].state != Ready && !Complete(rows[aid].manifest, Fl(aid).live.value.vol)
      modifies this`files, this`down
      ensures Inv() && Only(aid) && down == s.Crashed? && (calm ==> s.Done?)
      ensures Fl(aid).staging == old(Fl(aid).staging) && Fl(aid).lostStaging == old(Fl(aid).lostStaging)
      ensures s.Done? ==> Fl(aid) == LiveRemoved(old(Fl(aid)))
      ensures !s.Done? ==> Fl(aid).live.Some? ==> old(Fl(aid).live.Some?) && Part(Fl(aid).live.value.vol, old(Fl(aid).live.value.vol))
    {
      s := Done;
      assert ItemInv(aid);
      if Fl(aid).live.Some? {
        var img := Fl(aid).live.value;
        var part := SomeOf(img.vol);
        var partly := Fl(aid).(live := Some(Image(part, img.dur)));
        if aid in rows {
          LiveRemovalKeepsOk(chunkBytes, At(aid), part);
        }
        s := OnDisk(aid, partly, LiveRemoved(Fl(aid)));
      }
    }

    // ---------------------------------------------------------- publishing

    method SyncStaging(aid: Id) returns (s: Step)
      requires Inv() && !down && aid in used && Fl(aid).staging.Some?
      modifies this`files, this`down
      ensures Inv() && Only(aid) && down == s.Crashed? && (calm ==> s.Done?)
      ensures s.Done? ==> Fl(aid) == Put(old(Fl(aid)), TreeSynced(old(Fl(aid)).staging.value))
      ensures s.Fault? ==> Fl(aid) == old(Fl(aid))
      ensures LiveUntouched(aid) && StagingGrew(aid)
    {
      assert ItemInv(aid);
      TreeSyncKeepsOk(chunkBytes, At(aid));
      s := OnDisk(aid, Fl(aid), Put(Fl(aid), TreeSynced(Fl(aid).staging.value)));
    }

    /** The rename. Its failure, like every later one, is never a topology fault. */
    method RenameToLive(aid: Id) returns (s: Step)
      requires Inv() && !down && aid in rows && rows[aid].state == Publishing
      requires Fl(aid).live.None? && Fl(aid).staging.Some?
      requires Fl(aid).staging.value.vol == Fl(aid).staging.value.dur
      requires Verified(rows[aid].manifest, Fl(aid).staging.value.vol)
      modifies this`files, this`down
      ensures Inv() && Only(aid) && down == s.Crashed? && (calm ==> s.Done?)
      ensures s.Done? ==> Fl(aid) == Renamed(old(Fl(aid)))
      ensures s.Fault? ==> Fl(aid) == old(Fl(aid)) && s.kind == Os
    {
      assert ItemInv(aid);
      RenameKeepsOk(chunkBytes, At(aid));
      s := OnDisk(aid, Fl(aid), Renamed(Fl(aid)));
      if s.Fault? { s := Fault(Os); }
    }

    method SyncLiveName(aid: Id) returns (s: Step)
      requires Inv() && !down && aid in used
      modifies this`files, this`down
      ensures Inv() && Only(aid) && down == s.Crashed? && (calm ==> s.Done?)
      ensures s.Done? ==> Fl(aid) == LiveNameSynced(old(Fl(aid)))
      ensures s.Fault? ==> Fl(aid) == old(Fl(aid)) && s.kind == Os
    {
      assert ItemInv(aid);
      LiveNameSyncKeepsOk(chunkBytes, At(aid));
      s := OnDisk(aid, Fl(aid), LiveNameSynced(Fl(aid)));
      if s.Fault? { s := Fault(Os); }
    }

    method SyncLiveTree(aid: Id) returns (s: Step)
      requires Inv() && !down && aid in used
      modifies this`files, this`down
      ensures Inv() && Only(aid) && down == s.Crashed? && (calm ==> s.Done?)
      ensures s.Done? ==> Fl(aid) == LiveTreeSynced(old(Fl(aid)))
      ensures s.Fault? ==> Fl(aid) == old(Fl(aid))
    {
      assert ItemInv(aid);
      LiveTreeSyncKeepsOk(chunkBytes, At(aid));
      s := OnDisk(aid, Fl(aid), LiveTreeSynced(Fl(aid)));
    }

    /** The row becomes ready and its receipts go, in one transaction. */
    method CommitReady(aid: Id) returns (s: Step)
      requires Inv() && !down && aid in rows && LiveStable(Fl(aid))
      requires Complete(rows[aid].manifest, Fl(aid).live.value.vol) || Verified(rows[aid].manifest, Fl(aid).live.value.vol)
      modifies this`rows, this`receipts, this`down
      ensures Inv() && Only(aid) && down == s.Crashed? && (calm ==> s.Done?)
      ensures aid in rows && (rows[aid] == old(rows[aid]) || rows[aid] == old(rows[aid]).(state := Ready))
      ensures s.Done? ==> rows[aid].state == Ready && Rc(aid) == map[]
      ensures s.Fault? ==> rows[aid] == old(rows[aid]) && Rc(aid) == old(Rc(aid))
      ensures s.Fault? ==> s.kind == Sqlite || s.kind == Storage(Unavailable)
      ensures NoneNew(old(Rc(aid)), Rc(aid))
    {
      assert ItemInv(aid);
      CommitKeepsOk(chunkBytes, At(aid));
      s := Transact(aid, Some(rows[aid].(state := Ready)), map[]);
    }

    /** From a verified staging tree to a ready row: sync, rename, sync the names, commit. A live tree that
        is complete by size is taken as it is. */
    method FinishPublish(aid: Id) returns (s: Step)
      requires Inv() && !down && aid in rows && rows[aid].state == Publishing
      requires Fl(aid).staging.Some? && Verified(rows[aid].manifest, Fl(aid).staging.value.vol)
      modifies this`rows, this`receipts, this`files, this`down
      ensures Inv() && Only(aid) && down == s.Crashed? && (calm ==> s.Done?)
      ensures aid in rows && (rows[aid] == old(rows[aid]) || rows[aid] == old(rows[aid]).(state := Ready))
      ensures s.Done? ==> rows[aid].state == Ready
      ensures s.Done? && calm ==> Fl(aid).staging.None?
      ensures s.Fault? && s.kind == Storage(InvalidPath) ==> LiveUntouched(aid)
      ensures NoneNew(old(Rc(aid)), Rc(aid))
    {
      assert ItemInv(aid);
      s := SyncStaging(aid);
      if !s.Done? { return; }
      if Fl(aid).live.None? || !Complete(rows[aid].manifest, Fl(aid).live.value.vol) {
        s := RemoveLive(aid);
        if !s.Done? { s := if s.Fault? then Fault(Os) else s; return; }
        s := RenameToLive(aid);
        if !s.Done? { return; }
      }
      s := SyncLiveName(aid);
      if !s.Done? { return; }
      s := CommitReady(aid);
      if !s.Done? { return; }
      s := RemoveStaging(aid);
      if s.Fault? { s := Fault(Os); }
    }

    /** The staging tree is rebuilt and its receipts are brought in line with its bytes. A failure of the
        store's own file checks is ignored; an operating system or database error is not. */
    method Rebuild(aid: Id) returns (s: Step)
      requires Inv() && !down && aid in rows && MayReconcile(aid)
      modifies this`rows, this`receipts, this`files, this`down
      ensures Inv() && Only(aid) && down == s.Crashed? && (calm ==> s.Done?)
      ensures aid in rows && rows[aid] == old(rows[aid]) && LiveUntouched(aid)
      ensures s.Done? ==> AllReceiptsGood(aid)
      ensures calm ==> HasTopology(aid) && AllTrimmed(aid)
      ensures old(HasTopology(aid) && AllReceiptsGood(aid) && AllTrimmed(aid)) ==>
                Rc(aid) == old(Rc(aid)) && (s.Done? && calm ==> Fl(aid) == old(Fl(aid)))
      ensures s.Done? || s.Crashed? || s.kind != Storage(InvalidPath)
      ensures NoneNew(old(Rc(aid)), Rc(aid))
    {
      s := EnsureTopology(aid);
      if s.Crashed? || s == Fault(Os) || s == Fault(Sqlite) { return; }
      s := ReconcileFiles(aid);
      if s.Fault? { s := Fault(Sqlite); }
    }

    /** Puts a publishing row back to uploading. */
    method BackToUploading(aid: Id) returns (s: Step)
      requires Inv() && !down && aid in rows && rows[aid].state == Publishing
      requires Dependable(rows[aid].manifest) ==> Fl(aid).live.None?
      modifies this`rows, this`receipts, this`down
      ensures Inv() && Only(aid) && down == s.Crashed? && (calm ==> s.Done?)
      ensures aid in rows && Rc(aid) == old(Rc(aid))
      ensures rows[aid] == old(rows[aid]) || rows[aid] == old(rows[aid]).(state := Uploading)
      ensures s.Done? ==> rows[aid].state == Uploading
      ensures s.Fault? ==> rows[aid].state == Publishing
    {
      assert ItemInv(aid);
      s := Transact(aid, Some(rows[aid].(state := Uploading)), Rc(aid));
    }

    /** A dependable upload without a whole live tree has none at all. */
    lemma NoPayloadMayBeRebuilt(aid: Id)
      requires Inv() && aid in rows && (Fl(aid).live.Some? ==> !Complete(rows[aid].manifest, Fl(aid).live.value.vol))
      ensures (Dependable(rows[aid].manifest) ==> Fl(aid).live.None?) && MayReconcile(aid)
    {
      assert ItemInv(aid);
      if Dependable(rows[aid].manifest) && Fl(aid).live.Some? { DependableLiveIsComplete(chunkBytes, At(aid)); }
    }

    /** Resolves a publishing row from what is on disk: finished, resumable, or left for a later attempt. */
    method Recover(aid: Id) returns (s: Step, st: State)
      requires Inv() && !down && aid in rows && rows[aid].state == Publishing
      modifies this`rows, this`receipts, this`files, this`down
      ensures Inv() && Only(aid) && down == s.Crashed? && (calm ==> s.Done?)
      ensures aid in rows && rows[aid] == old(rows[aid]).(state := rows[aid].state)
      ensures s.Done? && st != Publishing ==> rows[aid].state == st
      ensures calm ==> st == rows[aid].state && (if old(Recoverable(At(aid))) then st == Ready else st == Uploading)
      ensures calm && st == Ready ==> Fl(aid).staging.None?
      ensures calm && st == Uploading ==>
                LiveUntouched(aid) && HasTopology(aid) && AllReceiptsGood(aid) && AllTrimmed(aid)
      ensures NoneNew(old(Rc(aid)), Rc(aid))
    {
      hide Ok, AckedOk, Limits.Within;
      st := Publishing;
      var m := rows[aid].manifest;
      assert ItemInv(aid);
      if Fl(aid).live.Some? && Complete(m, Fl(aid).live.value.vol) {
        s := SyncLiveTree(aid);
        if s.Fault? { s := Done; return; }
        if s.Crashed? { return; }
        s := SyncLiveName(aid);
        if s.Fault? { s := Done; return; }
        if s.Crashed? { return; }
        s := CommitReady(aid);
        if s.Fault? { s := Done; return; }
        if s.Crashed? { return; }
        st := Ready;
        s := RemoveStaging(aid);
      } else if Fl(aid).staging.Some? && Complete(m, Fl(aid).staging.value.vol) && Verified(m, Fl(aid).staging.value.vol) {
        s := FinishPublish(aid);
        if s.Fault? { s := Done; return; }
        st := Ready;
      } else {
        NoPayloadMayBeRebuilt(aid);
        s := Rebuild(aid);
        if !s.Done? { return; }
        s := BackToUploading(aid);
        if s.Fault? { s := Done; return; }
        st := Uploading;
      }
    }

    /** Sorts out a publish that failed after its mark was committed. It never reports success. */
    method Settle(aid: Id, kind: FaultKind) returns (r: Reply)
      requires Inv() && !down && aid in rows && rows[aid].state in {Publishing, Ready}
      requires kind == Storage(InvalidPath) && Dependable(rows[aid].manifest) ==> Fl(aid).live.None?
      modifies this`rows, this`receipts, this`files, this`down
      ensures Inv() && Only(aid) && down == r.Died? && !r.Ack?
      ensures aid in rows && rows[aid] == old(rows[aid]).(state := rows[aid].state)
      ensures old(rows[aid].state) == Ready ==> rows[aid].state == Ready
      ensures calm && old(rows[aid].state) == Publishing ==> rows[aid].state in {Publishing, Uploading}
      ensures NoneNew(old(Rc(aid)), Rc(aid))
    {
      assert ItemInv(aid);
      if kind != Storage(InvalidPath) && Fl(aid).live.Some? && Complete(rows[aid].manifest, Fl(aid).live.value.vol) {
        return Err(Unavailable);
      }
      if kind != Storage(InvalidPath) && Dependable(rows[aid].manifest) && Fl(aid).live.Some? {
        DependableLiveIsComplete(chunkBytes, At(aid));
      }
      var s := Rebuild(aid);
      if s.Crashed? { return Died; }
      if s.Fault? { return Err(Unavailable); }
      if rows[aid].state == Publishing {
        s := BackToUploading(aid);
        if s.Crashed? { return Died; }
      }
      return Err(if kind == Storage(InvalidPath) then InvalidPath else Unavailable);
    }

    method Touch(aid: Id, now: int) returns (s: Step)
      requires Inv() && !down && aid in rows
      modifies this`rows, this`receipts, this`down
      ensures Inv() && Only(aid) && down == s.Crashed? && (calm ==> s.Done?)
      ensures aid in rows && Rc(aid) == old(Rc(aid))
      ensures rows[aid] == old(rows[aid]) || rows[aid] == old(rows[aid]).(lastActivity := now)
      ensures s.Done? ==> rows[aid] == old(rows[aid]).(lastActivity := now)
    {
      assert ItemInv(aid);
      s := Transact(aid, Some(rows[aid].(lastActivity := now)), Rc(aid));
    }

    /** Publishes an upload. Success means a ready row; without faults, success means the staged hashes
        matched, and a mismatch leaves truthful receipts behind. */
    method Publish(user: string, aid: Id, now: int) returns (r: Reply)
      requires Inv() && !down
      modifies this`rows, this`receipts, this`files, this`down
      ensures Inv() && Only(aid) && down == r.Died?
      ensures aid in rows <==> aid in old(rows)
      ensures aid in rows ==>
                rows[aid] == old(rows[aid]).(state := rows[aid].state, lastActivity := rows[aid].lastActivity)
      ensures aid in rows ==> rows[aid].lastActivity in {old(rows[aid].lastActivity), now}
      ensures aid in rows && old(rows[aid].state) == Ready ==> rows[aid].state == Ready
      ensures calm && r.Ack? && aid in old(rows) && old(rows[aid].state) != Ready ==> rows[aid].lastActivity == now
      ensures r.Ack? ==> aid in rows && rows[aid].state == Ready
      ensures aid !in old(rows) ==> r == Err(NotFound) && At(aid) == old(At(aid))
      ensures aid in rows && old(rows[aid].state) == Ready ==> r == Ack && At(aid) == old(At(aid))
      ensures aid in rows && old(rows[aid].state) != Ready && old(rows[aid].owner) != user ==>
                r == Err(NotOwned) && At(aid) == old(At(aid))
      ensures calm && aid in rows && old(rows[aid].state) == Uploading && old(rows[aid].owner) == user ==>
                if old(Fl(aid).staging.Some? && Verified(rows[aid].manifest, Fl(aid).staging.value.vol))
                then r.Ack? else r == Err(HashMismatch) && AllReceiptsGood(aid) && HasTopology(aid) && AllTrimmed(aid)
                                 && rows[aid] == old(rows[aid]) && LiveUntouched(aid)
      ensures calm && aid in rows && old(rows[aid].state) == Publishing && old(rows[aid].owner) == user ==>
                r == Err(StateConflict) && (rows[aid].state == Ready <==> old(Recoverable(At(aid))))
      ensures NoneNew(old(Rc(aid)), Rc(aid))
    {
      if aid !in rows { return Err(NotFound); }
      if rows[aid].state == Ready { return Ack; }
      if rows[aid].owner != user { return Err(NotOwned); }
      assert ItemInv(aid);
      if rows[aid].state == Publishing {
        var s, _ := Recover(aid);
        return if s.Crashed? then Died else Err(StateConflict);
      }
      var m := rows[aid].manifest;
      if Fl(aid).staging.None? || !Verified(m, Fl(aid).staging.value.vol) {
        var s := Rebuild(aid);
        return match s { case Crashed => Died case Fault(_) => Err(Unavailable) case Done => Err(HashMismatch) };
      }
      var s := Transact(aid, Some(rows[aid].(state := Publishing)), Rc(aid));
      if s.Crashed? { return Died; }
      if s.Fault? { return Err(Unavailable); }
      s := FinishPublish(aid);
      if s.Crashed? { return Died; }
      if s.Fault? {
        r := Settle(aid, s.kind);
        return;
      }
      s := Touch(aid, now);
      if s.Crashed? { return Died; }
      return Ack;
    }

    // ---------------------------------------------------------- uploading

    /** The manifest's entry for a file path. */
    method FindFile(m: Manifest, p: Path) returns (e: Option<Entry>)
      ensures e.Some? ==> e.value in m && e.value.File? && e.value.path == p
      ensures e.None? ==> forall x | x in m && x.File? :: x.path != p
    {
      for i := 0 to |m|
        invariant forall x | x in m[..i] && x.File? :: x.path != p
      {
        if m[i].path == p && m[i].File? { return Some(m[i]); }
      }
      assert m[..|m|] == m;
      return None;
    }

    /** No staged node is gone. */
    twostate predicate NamesKept(aid: Id) reads `files {
      old(Fl(aid).staging.Some?) ==>
        Fl(aid).staging.Some? && old(Fl(aid).staging.value.vol.Keys) <= Fl(aid).staging.value.vol.Keys
    }

    /** Writes the chunk at its place in the staged file, or part of it when the write is cut short. */
    method WriteStaged(aid: Id, e: Entry, offset: nat, data: Bytes) returns (s: Step)
      requires Inv() && !down && aid in rows && e in rows[aid].manifest && e.File? && Fl(aid).staging.Some?
      requires Chunks.ValidateChunkRange(chunkBytes, e.size, offset, |data|).Accepted?
      requires MayWrite(At(aid), Cell(e.path, offset))
      modifies `files, `down
      ensures Inv() && Only(aid) && down == s.Crashed? && (calm ==> s.Done?)
      ensures LiveUntouched(aid) && NamesKept(aid)
      ensures s.Done? ==> Fl(aid) == Put(old(Fl(aid)), Written(old(Fl(aid)).staging.value, e.path, offset, data))
    {
      assert ItemInv(aid);
      var k: int := *;
      var part := if 0 <= k <= |data| then data[..k] else data;
      WriteKeepsOk(chunkBytes, At(aid), e, offset, data, part);
      WriteKeepsOk(chunkBytes, At(aid), e, offset, data, data);
      var img := Fl(aid).staging.value;
      s := OnDisk(aid, Put(Fl(aid), Written(img, e.path, offset, part)), Put(Fl(aid), Written(img, e.path, offset, data)));
    }

    method SyncStaged(aid: Id, p: Path) returns (s: Step)
      requires Inv() && !down && aid in used && Fl(aid).staging.Some? && p in Fl(aid).staging.value.vol
      modifies `files, `down
      ensures Inv() && Only(aid) && down == s.Crashed? && (calm ==> s.Done?)
      ensures LiveUntouched(aid) && NamesKept(aid)
      ensures s.Done? ==> Fl(aid) == Put(old(Fl(aid)), FileSynced(old(Fl(aid)).staging.value, p))
    {
      assert ItemInv(aid);
      SyncKeepsOk(chunkBytes, At(aid), p);
      s := OnDisk(aid, Fl(aid), Put(Fl(aid), FileSynced(Fl(aid).staging.value, p)));
    }

    lemma StagedEntryFits(aid: Id, e: Entry)
      requires Inv() && aid in rows && e in rows[aid].manifest && Fl(aid).staging.Some?
      ensures FitsEntry(e, Fl(aid).staging.value.vol)
    {
      assert ItemInv(aid);
    }

    /** The chunk's bytes reach the staged file and the medium, or the call fails part of the way. */
    method StageChunk(aid: Id, e: Entry, offset: nat, data: Bytes) returns (s: Step)
      requires Inv() && !down && aid in rows && e in rows[aid].manifest && e.File?
      requires Chunks.ValidateChunkRange(chunkBytes, e.size, offset, |data|).Accepted?
      requires MayWrite(At(aid), Cell(e.path, offset))
      modifies `files, `down
      ensures Inv() && Only(aid) && down == s.Crashed? && (calm ==> s.Done?)
      ensures LiveUntouched(aid) && NamesKept(aid)
      ensures s.Done? ==> Holds(aid, Cell(e.path, offset), data)
    {
      hide Ok, AckedOk, Limits.Within;
      assert ItemInv(aid);
      s := MakeStaging(aid);
      if !s.Done? { return; }
      StagedEntryFits(aid, e);
      if e.path in Fl(aid).staging.value.vol && Fl(aid).staging.value.vol[e.path].Folder? {
        return Fault(Storage(InvalidPath));
      }
      s := WriteStaged(aid, e, offset, data);
      if !s.Done? { return; }
      s := SyncStaged(aid, e.path);
    }

    /** The staged file holds the data at the cell, in the cache and on the medium. */
    ghost predicate Holds(aid: Id, c: Cell, data: Bytes) reads `files {
      && Fl(aid).staging.Some?
      && Good(Fl(aid).staging.value.vol, c, Receipt(|data|, Sha256(data)))
      && Good(Fl(aid).staging.value.dur, c, Receipt(|data|, Sha256(data)))
    }

    /** Records the receipt of a staged chunk. */
    method InsertReceipt(aid: Id, e: Entry, offset: nat, data: Bytes, now: int) returns (s: Step)
      requires Inv() && !down && aid in rows && rows[aid].state == Uploading && e in rows[aid].manifest && e.File?
      requires Chunks.ValidateChunkRange(chunkBytes, e.size, offset, |data|).Accepted?
      requires Holds(aid, Cell(e.path, offset), data)
      requires Cell(e.path, offset) in Rc(aid) ==> Rc(aid)[Cell(e.path, offset)] == Receipt(|data|, Sha256(data))
      modifies this`rows, this`receipts, this`down
      ensures Inv() && Only(aid) && down == s.Crashed? && (calm ==> s.Done?)
      ensures aid in rows && (rows[aid] == old(rows[aid]) || rows[aid] == old(rows[aid]).(lastActivity := now))
      ensures s.Done? ==>
                && Rc(aid) == old(Rc(aid))[Cell(e.path, offset) := Receipt(|data|, Sha256(data))]
                && rows[aid] == old(rows[aid]).(lastActivity := now)
      ensures s.Fault? ==> Rc(aid) == old(Rc(aid))
      ensures Rc(aid) == old(Rc(aid)) || Rc(aid) == old(Rc(aid))[Cell(e.path, offset) := Receipt(|data|, Sha256(data))]
    {
      assert ItemInv(aid);
      s := Transact(aid, Some(rows[aid].(lastActivity := now)),
                    Rc(aid)[Cell(e.path, offset) := Receipt(|data|, Sha256(data))]);
    }

    /** History: the chunk is acknowledged to the client. */
    ghost method Acknowledge(aid: Id, c: Cell, r: Receipt)
      requires Inv() && aid in rows && c in Rc(aid) && Rc(aid)[c] == r
      modifies this`acked
      ensures Inv() && Only(aid) && At(aid) == old(At(aid)).(acked := old(At(aid).acked)[c := r])
    {
      assert ItemInv(aid);
      acked := acked[aid := At(aid).acked[c := r]];
      OthersKeepInv(aid);
    }

    /** Another chunk has been received at this place. */
    predicate Conflicts(aid: Id, path: Path, offset: int, r: Receipt) reads `receipts {
      offset >= 0 && Cell(path, offset) in Rc(aid) && Rc(aid)[Cell(path, offset)] != r
    }

    /** Uploads one chunk. It is acknowledged only with a committed receipt, durable matching bytes and an advanced
        activity time, and not at all in place of another; on any failure the receipts are as they were. */
    method PutChunk(user: string, aid: Id, path: Path, offset: int, data: Bytes, sha: Digest, now: int) returns (r: Reply)
      requires Inv() && !down
      modifies this`rows, this`receipts, this`files, this`down, this`acked
      ensures Inv() && Only(aid) && down == r.Died?
      ensures aid in rows <==> aid in old(rows)
      ensures aid in rows ==> rows[aid] == old(rows[aid]) || rows[aid] == old(rows[aid]).(lastActivity := now)
      ensures LiveUntouched(aid) && NamesKept(aid)
      ensures r.Ack? ==>
                && aid in rows && rows[aid].state == Uploading && rows[aid].owner == user && offset >= 0
                && Sha256(data) == sha && rows[aid] == old(rows[aid]).(lastActivity := now)
                && Rc(aid) == old(Rc(aid))[Cell(path, offset) := Receipt(|data|, sha)]
                && StagedGood(aid, Cell(path, offset), Receipt(|data|, sha))
                && At(aid).acked == old(At(aid).acked)[Cell(path, offset) := Receipt(|data|, sha)]
      ensures r.Ack? && Cell(path, offset) in old(Rc(aid)) ==> old(Rc(aid))[Cell(path, offset)] == Receipt(|data|, sha)
      ensures r.Ack? && Dependable(rows[aid].manifest) && Cell(path, offset) in old(At(aid).acked) ==>
                old(At(aid).acked)[Cell(path, offset)] == Receipt(|data|, sha)
      ensures old(Conflicts(aid, path, offset, Receipt(|data|, sha))) ==> !r.Ack? && At(aid) == old(At(aid))
      ensures calm && aid in rows && old(rows[aid].state == Uploading && rows[aid].owner == user) && Sha256(data) == sha
                && IsChunkOf(rows[aid].manifest, path, offset, |data|) && old(Conflicts(aid, path, offset, Receipt(|data|, sha)))
              ==> r == Err(ChunkConflict)
      ensures !r.Ack? ==> acked == old(acked)
      ensures Rc(aid) == old(Rc(aid))
           || (offset >= 0 && Rc(aid) == old(Rc(aid))[Cell(path, offset) := Receipt(|data|, Sha256(data))])
      ensures r.Err? ==> Rc(aid) == old(Rc(aid))
      ensures calm && aid in rows && old(rows[aid].state == Uploading && rows[aid].owner == user) && Sha256(data) == sha
                && IsChunkOf(rows[aid].manifest, path, offset, |data|)
                && !old(Conflicts(aid, path, offset, Receipt(|data|, sha)))
              ==> r.Ack?
    {
      if Sha256(data) != sha { return Err(InvalidRange); }
      if aid !in rows { return Err(NotFound); }
      var row := rows[aid];
      if row.state in {Uploading, Publishing} && row.owner != user { return Err(NotOwned); }
      if row.state != Uploading { return Err(StateConflict); }
      assert ItemInv(aid);
      var wanted := FindFile(row.manifest, path);
      if wanted.None? { return Err(NotFound); }
      var e := wanted.value;
      match Chunks.ValidateChunkRange(chunkBytes, e.size, offset, |data|) {
        case InvalidRange => return Err(InvalidRange);
        case TooLarge => return Err(TooLarge);
        case Accepted =>
      }
      var c, receipt := Cell(path, offset), Receipt(|data|, sha);
      if c in Rc(aid) && Rc(aid)[c] != receipt { return Err(ChunkConflict); }
      r := PutCell(aid, e, offset, data, now);
    }

    lemma UnbackedMayBeWritten(aid: Id, c: Cell)
      requires Inv() && aid in rows && (c in Rc(aid) ==> !StagedGood(aid, c, Rc(aid)[c]))
      ensures MayWrite(At(aid), c)
    {
      assert ItemInv(aid);
    }

    /** A chunk that is valid and in no conflict: nothing to write when its bytes are there, else staged
        and then recorded. */
    method PutCell(aid: Id, e: Entry, offset: nat, data: Bytes, now: int) returns (r: Reply)
      requires Inv() && !down && aid in rows && rows[aid].state == Uploading && e in rows[aid].manifest && e.File?
      requires Chunks.ValidateChunkRange(chunkBytes, e.size, offset, |data|).Accepted?
      requires Cell(e.path, offset) in Rc(aid) ==> Rc(aid)[Cell(e.path, offset)] == Receipt(|data|, Sha256(data))
      modifies this`rows, this`receipts, this`files, this`down, this`acked
      ensures Inv() && Only(aid) && down == r.Died?
      ensures aid in rows && (rows[aid] == old(rows[aid]) || rows[aid] == old(rows[aid]).(lastActivity := now))
      ensures LiveUntouched(aid) && NamesKept(aid)
      ensures r.Ack? ==>
                && rows[aid] == old(rows[aid]).(lastActivity := now)
                && Rc(aid) == old(Rc(aid))[Cell(e.path, offset) := Receipt(|data|, Sha256(data))]
                && StagedGood(aid, Cell(e.path, offset), Receipt(|data|, Sha256(data)))
                && At(aid).acked == old(At(aid).acked)[Cell(e.path, offset) := Receipt(|data|, Sha256(data))]
      ensures !r.Ack? ==> acked == old(acked)
      ensures Rc(aid) == old(Rc(aid)) || Rc(aid) == old(Rc(aid))[Cell(e.path, offset) := Receipt(|data|, Sha256(data))]
      ensures r.Err? ==> Rc(aid) == old(Rc(aid))
      ensures calm ==> r.Ack?
    {
      hide Ok, AckedOk, Limits.Within, Good;
      var c, receipt := Cell(e.path, offset), Receipt(|data|, Sha256(data));
      var s: Step;
      if c in Rc(aid) {
        if StagedGood(aid, c, receipt) {
          s := Touch(aid, now);
          if s.Crashed? { return Died; }
          if s.Fault? { return Err(Unavailable); }
          Acknowledge(aid, c, receipt);
          return Ack;
        }
      }
      UnbackedMayBeWritten(aid, c);
      s := StageChunk(aid, e, offset, data);
      if s.Crashed? { return Died; }
      if s.Fault? { return Err(if s.kind.Storage? then s.kind.code else Unavailable); }
      s := InsertReceipt(aid, e, offset, data, now);
      if s.Crashed? { return Died; }
      if s.Fault? { return Err(Unavailable); }
      Acknowledge(aid, c, receipt);
      return Ack;
    }

    /** The chunk is a cell of one of the manifest's files. */
    ghost predicate IsChunkOf(m: Manifest, path: Path, offset: int, length: nat) {
      && (exists e | e in m :: e.File? && e.path == path)
      && (forall e | e in m && e.File? && e.path == path ::
            Chunks.ValidateChunkRange(chunkBytes, e.size, offset, length).Accepted?)
    }

    // ---------------------------------------------------------- init

    /** A step that touches nothing the model keeps, such as writing the session's side file. */
    method Unrelated() returns (s: Step)
      requires Inv() && !down
      modifies `down
      ensures Inv() && down == s.Crashed? && (calm ==> s.Done?)
    {
      s := *;
      if calm { s := Done; }
      down := s.Crashed?;
    }

    /** The id is handed out, for an artifact to be created with the given row. */
    method Allocate(aid: Id, row: Row)
      requires Inv() && aid !in used
      modifies `used, `born
      ensures Inv() && used == old(used) + {aid} && born == old(born)[aid := Origin(row)]
    {
      assert ItemInv(aid);
      used := used + {aid};
      born := born[aid := Origin(row)];
      forall other: Id ensures ItemInv(other) { assert old(ItemInv(other)); }
    }

    static lemma NothingFitsAll(m: Manifest)
      ensures Fits(m, map[])
    {
    }

    /** The directories and empty files of a new upload. */
    method StageSkeleton(aid: Id, m: Manifest) returns (s: Step)
      requires Inv() && !down && aid in used && aid !in rows && Fl(aid) == NoFiles && DistinctPaths(m)
      modifies `files, `down
      ensures Inv() && Only(aid) && down == s.Crashed? && (calm ==> s.Done?)
      ensures LiveUntouched(aid)
      ensures s.Done? ==> HasSkeleton(aid, m) && Shaped(m, Fl(aid))
    {
      hide Ok, AckedOk, Limits.Within, Fits;
      NothingFitsAll(m);
      s := MakeStaging(aid);
      if !s.Done? { return; }
      for i := 0 to |m|
        invariant Inv() && !down && Only(aid) && s.Done? && aid !in rows && LiveUntouched(aid) && Fl(aid).staging.Some?
        invariant Shaped(m, Fl(aid))
        invariant forall p | p in Fl(aid).staging.value.vol :: exists j :: 0 <= j < i && m[j].path == p
        invariant forall j | 0 <= j < |m| ::
          m[j].path in Fl(aid).staging.value.vol <==> j < i && (m[j].Dir? || m[j].size == 0)
        invariant forall j | 0 <= j < |m| && m[j].path in Fl(aid).staging.value.vol ::
          Fl(aid).staging.value.vol[m[j].path] == Blank(m[j])
      {
        if m[i].Dir? || m[i].size == 0 {
          BlankFits(m, Fl(aid).staging.value.vol, m[i]);
          BlankFits(m, Fl(aid).staging.value.dur, m[i]);
          s := CreateEntry(aid, m[i]);
          if !s.Done? { return; }
        }
      }
    }

    static lemma NothingAckedIsOk(it: Item, row: Row)
      requires it.acked == map[]
      ensures AckedOk(it.(row := Some(row)))
    {
    }

    /** Inserts the new row. */
    method InsertRow(aid: Id, row: Row) returns (s: Step)
      requires Inv() && !down && aid in used && aid !in rows && Rc(aid) == map[] && At(aid).acked == map[]
      requires DistinctPaths(row.manifest) && row.state == Uploading
      requires Fl(aid).live.None? && !Fl(aid).moved && Fl(aid).lostLive.None? && Shaped(row.manifest, Fl(aid))
      requires Limits.Reserved(rows) + row.reserved <= quota
      requires |Limits.Sessions(rows)| < maxSessions && |Limits.SessionsOf(rows, row.owner)| < maxPerUser
      requires aid in born && born[aid] == Origin(row)
      modifies `rows, `down
      ensures Inv() && Only(aid) && down == s.Crashed? && (calm ==> s.Done?)
      ensures rows == old(rows) || rows == old(rows)[aid := row]
      ensures s.Done? ==> rows == old(rows)[aid := row]
      ensures s.Fault? ==> rows == old(rows)
    {
      hide AckedOk, Limits.Within, Limits.Reserved, Limits.Sessions, Limits.SessionsOf, Fits;
      s := *;
      if calm { s := Done; }
      var applied: bool := *;
      down := s.Crashed?;
      if s.Done? || (s.Crashed? && applied) {
        NothingAckedIsOk(At(aid), row);
        Limits.InsertStaysWithin(rows, aid, row, quota, maxSessions, maxPerUser);
        rows := rows[aid := row];
        OthersKeepInv(aid);
      }
    }

    /** A failed init unwinds what it had done; what a second failure leaves behind is an unfinished upload. */
    method Unwind(aid: Id) returns (s: Step)
      requires Inv() && !down && aid in used && Rc(aid) == map[] && At(aid).acked == map[]
      requires aid in rows ==> rows[aid].state == Uploading
      modifies `rows, `receipts, `files, `down
      ensures Inv() && Only(aid) && down == s.Crashed? && (calm ==> s.Done?)
      ensures aid in rows ==> aid in old(rows) && rows[aid] == old(rows[aid])
      ensures calm ==> aid !in rows && Fl(aid).staging.None?
      ensures Rc(aid) == map[]
    {
      s := Done;
      if aid in rows {
        s := Transact(aid, None, map[]);
        if s.Crashed? { return; }
      }
      s := RemoveStaging(aid);
    }

    ghost predicate HasRoom(user: string, total: nat) reads `rows {
      && Limits.Reserved(rows) + total <= quota
      && |Limits.Sessions(rows)| < maxSessions && |Limits.SessionsOf(rows, user)| < maxPerUser
    }

    /** The empty upload: exactly its directories and zero-byte files exist. */
    ghost predicate HasSkeleton(aid: Id, m: Manifest) reads `files {
      && Fl(aid).staging.Some?
      && (forall e | e in m :: e.path in Fl(aid).staging.value.vol <==> e.Dir? || e.size == 0)
      && (forall e | e in m && e.path in Fl(aid).staging.value.vol :: Fl(aid).staging.value.vol[e.path] == Blank(e))
    }

    /** The row of an init that has room; a failure is unwound. */
    method Enter(aid: Id, row: Row) returns (r: Reply)
      requires Inv() && !down && aid in used && aid !in rows && Rc(aid) == map[] && At(aid).acked == map[]
      requires DistinctPaths(row.manifest) && row.state == Uploading && HasRoom(row.owner, row.reserved)
      requires Fl(aid).live.None? && !Fl(aid).moved && Fl(aid).lostLive.None? && Shaped(row.manifest, Fl(aid))
      requires aid in born && born[aid] == Origin(row)
      modifies `rows, `receipts, `files, `down
      ensures Inv() && Only(aid) && down == r.Died? && (calm ==> r.Ack?)
      ensures Rc(aid) == map[] && (aid in rows ==> rows[aid] == row)
      ensures r.Ack? ==> aid in rows && rows[aid] == row && Rc(aid) == map[] && Fl(aid) == old(Fl(aid))
    {
      var s := InsertRow(aid, row);
      if s.Done? { s := Unrelated(); }
      if s.Fault? {
        s := Unwind(aid);
        return if s.Crashed? then Died else Err(Unavailable);
      }
      return if s.Crashed? then Died else Ack;
    }

    /** The transactional part of an init: the checks, the row, and the unwinding of a failure. */
    method Register(aid: Id, row: Row) returns (r: Reply)
      requires Inv() && !down && aid in used && aid !in rows && Rc(aid) == map[] && At(aid).acked == map[]
      requires DistinctPaths(row.manifest) && row.state == Uploading
      requires Fl(aid).live.None? && !Fl(aid).moved && Fl(aid).lostLive.None? && Shaped(row.manifest, Fl(aid))
      requires aid in born && born[aid] == Origin(row)
      modifies `rows, `receipts, `files, `down
      ensures Inv() && Only(aid) && down == r.Died?
      ensures Rc(aid) == map[] && (aid in rows ==> rows[aid] == row)
      ensures r.Ack? ==> aid in rows && rows[aid] == row && Rc(aid) == map[] && Fl(aid) == old(Fl(aid))
      ensures calm ==> if old(HasRoom(row.owner, row.reserved)) then r.Ack? else r.Err? && Fl(aid).staging.None?
      ensures !old(HasRoom(row.owner, row.reserved)) ==> !r.Ack? && aid !in rows
      ensures calm && !old(HasRoom(row.owner, row.reserved)) ==>
                r == Err(if old(Limits.Reserved(rows)) + row.reserved > quota then QuotaExceeded else SessionLimit)
    {
      var reserved, sessions, own := Limits.Measure(rows, row.owner);
      if reserved + row.reserved > quota || sessions >= maxSessions || own >= maxPerUser {
        var s := Unwind(aid);
        return if s.Crashed? then Died else Err(if reserved + row.reserved > quota then QuotaExceeded else SessionLimit);
      }
      r := Enter(aid, row);
    }

    /** Starts an upload under a fresh id, within quota and session caps. */
    method Init(aid: Id, user: string, m: Manifest, total: nat, now: int, expires: Option<int>) returns (r: Reply)
      requires Inv() && !down && aid !in used
      modifies `rows, `receipts, `files, `down, `used, `born
      ensures Inv() && down == r.Died?
      ensures forall other: Id | other != aid :: At(other) == old(At(other))
      ensures used == old(used) + (if DistinctPaths(m) then {aid} else {}) && born - {aid} == old(born) - {aid}
      ensures aid in used ==> aid in born && born[aid] == Origin(Row(user, m, Uploading, total, now, expires))
      ensures Rc(aid) == map[] && (aid in rows ==> rows[aid] == Row(user, m, Uploading, total, now, expires))
      ensures r.Ack? ==>
                && aid in rows && rows[aid] == Row(user, m, Uploading, total, now, expires) && Rc(aid) == map[]
                && HasSkeleton(aid, m) && Fl(aid).live.None?
      ensures calm ==> if DistinctPaths(m) && old(HasRoom(user, total)) then r.Ack? else r.Err? && Fl(aid).staging.None?
      ensures !(DistinctPaths(m) && old(HasRoom(user, total))) ==> !r.Ack? && aid !in rows
      ensures calm && DistinctPaths(m) && !old(HasRoom(user, total)) ==>
                r == Err(if old(Limits.Reserved(rows)) + total > quota then QuotaExceeded else SessionLimit)
    {
      hide Ok, AckedOk, Limits.Within, Limits.Reserved, Shaped, DistinctPaths;
      assert ItemInv(aid);
      if !DistinctPaths(m) { return Err(InvalidManifest); }
      var row := Row(user, m, Uploading, total, now, expires);
      Allocate(aid, row);
      var s := StageSkeleton(aid, m);
      if s.Crashed? { return Died; }
      if s.Fault? { return Err(Unavailable); }
      r := Register(aid, row);
    }

    // ---------------------------------------------------------- delete and sweep

    /** Deletes an artifact: row and receipts in one transaction, then the trees. */
    method Delete(aid: Id) returns (r: Reply)
      requires Inv() && !down
      modifies `rows, `receipts, `files, `down
      ensures Inv() && Only(aid) && down == r.Died?
      ensures r.Ack? ==> aid in old(rows) && aid !in rows && Rc(aid) == map[]
      ensures aid !in old(rows) ==> r == Err(NotFound) && At(aid) == old(At(aid))
      ensures aid in rows ==> rows[aid] == old(rows[aid]) && Rc(aid) == old(Rc(aid)) && Fl(aid) == old(Fl(aid))
      ensures calm && aid in old(rows) ==> r.Ack? && Fl(aid).live.None? && Fl(aid).staging.None?
      ensures NoneNew(old(Rc(aid)), Rc(aid))
    {
      if aid !in rows { return Err(NotFound); }
      assert ItemInv(aid);
      var s := Transact(aid, None, map[]);
      if s.Crashed? { return Died; }
      if s.Fault? { return Err(Unavailable); }
      s := RemoveLive(aid);
      if s.Crashed? { return Died; }
      if s.Fault? && s.kind == Os { return Err(Unavailable); }
      s := RemoveStaging(aid);
      return match s { case Crashed => Died case Fault(_) => Err(Unavailable) case Done => Ack };
    }

    /** What a sweep at `now` removes: expired artifacts of any state, and uploads idle for too long. */
    predicate Doomed(row: Row, now: int) {
      || (row.expires.Some? && now >= row.expires.value)
      || (row.state == Uploading && now - row.lastActivity > idleTtl)
    }

    twostate lemma RowsOfOthers(aid: Id)
      requires Only(aid)
      ensures forall other: Id | other != aid ::
                (other in rows <==> other in old(rows)) && (other in rows ==> rows[other] == old(rows)[other])
    {
      forall other: Id | other != aid
        ensures (other in rows <==> other in old(rows)) && (other in rows ==> rows[other] == old(rows)[other])
      {
        assert At(other) == old(At(other));
      }
    }

    static lemma OkSaysNothingOfAcks(chunkBytes: nat, it: Item, x: Receipts)
      requires Ok(chunkBytes, it)
      ensures Ok(chunkBytes, it.(acked := x))
    {
    }

    static lemma NothingAcked(it: Item)
      ensures AckedOk(it.(acked := map[]))
    {
    }

    /** History: the promises about the artifact's chunks are set aside. */
    ghost method Forget(aid: Id)
      requires Inv()
      modifies `acked
      ensures Inv() && Only(aid) && At(aid) == old(At(aid)).(acked := map[])
    {
      hide Ok, AckedOk;
      assert ItemInv(aid);
      OkSaysNothingOfAcks(chunkBytes, At(aid), map[]);
      NothingAcked(At(aid));
      acked := acked[aid := map[]];
      assert At(aid) == old(At(aid)).(acked := map[]);
      OthersKeepInv(aid);
    }

    /** History: of what was set aside, all that still holds is promised again. */
    ghost method Recall(aid: Id, was: Receipts)
      requires Inv() && aid in used
      modifies `acked
      ensures Inv() && Only(aid) && At(aid) == old(At(aid)).(acked := StillHeld(old(At(aid)), was))
    {
      hide Ok, AckedOk, StillHeld;
      assert ItemInv(aid);
      ghost var held := StillHeld(At(aid), was);
      OkSaysNothingOfAcks(chunkBytes, At(aid), held);
      AckedOkIffHeld(At(aid), was);
      acked := acked[aid := held];
      assert At(aid) == old(At(aid)).(acked := held);
      OthersKeepInv(aid);
    }

    /** What holds does not depend on what was promised before. */
    static lemma HeldSaysNothingOfAcks(it: Item, x: Receipts, was: Receipts)
      ensures StillHeld(it.(acked := x), was) == StillHeld(it, was)
    {
    }

    /** Removes one doomed artifact: receipts first, then the row, then the trees. */
    method RemoveItem(aid: Id) returns (s: Step)
      requires Inv() && !down && aid in rows && At(aid).acked == map[]
      modifies `rows, `receipts, `files, `down
      ensures Inv() && Only(aid) && down == s.Crashed? && (calm ==> s.Done?)
      ensures aid in rows ==> rows[aid] == old(rows[aid])
      ensures s.Done? ==> aid !in rows
      ensures NoneNew(old(Rc(aid)), Rc(aid))
      ensures calm ==> Fl(aid).live.None? && Fl(aid).staging.None?
    {
      hide Limits.Within, LiveIsSound, Shaped;
      assert ItemInv(aid);
      s := Transact(aid, Some(rows[aid]), map[]);
      if !s.Done? { return; }
      assert ItemInv(aid);
      s := Transact(aid, None, map[]);
      if !s.Done? { return; }
      s := RemoveLive(aid);
      if s.Crashed? || s == Fault(Os) { return; }
      s := RemoveStaging(aid);
    }

    /** The same; should it fail half-way, the promises that it broke are withdrawn. */
    method SweepItem(aid: Id) returns (s: Step)
      requires Inv() && !down && aid in rows
      modifies `rows, `receipts, `files, `down, `acked
      ensures Inv() && Only(aid) && down == s.Crashed? && (calm ==> s.Done?)
      ensures aid in rows ==> rows[aid] == old(rows[aid])
      ensures s.Done? ==> aid !in rows
      ensures AcksStand(old(At(aid).acked), At(aid)) && NoneNew(old(Rc(aid)), Rc(aid))
      ensures calm ==> Fl(aid).live.None? && Fl(aid).staging.None?
    {
      hide Ok, AckedOk;
      assert ItemInv(aid);
      ghost var was := At(aid).acked;
      Forget(aid);
      label Set:
      s := RemoveItem(aid);
      assert NoneNew(old@Set(Rc(aid)), Rc(aid)) && old@Set(At(aid)).rc == old(At(aid)).rc;
      label Removed:
      Recall(aid, was);
      HeldSaysNothingOfAcks(old@Removed(At(aid)), At(aid).acked, was);
      assert Rc(aid) == old@Removed(At(aid)).rc;
    }

    /** Rows, receipts and history are as they were, and so are the trees of every known artifact. */
    twostate predicate KnownKept() reads `rows, `receipts, `files, `acked, `used, `born {
      && rows == old(rows) && used == old(used) && born == old(born)
      && (forall aid: Id | aid in rows :: At(aid) == old(At(aid)))
    }

    /** Live trees without a row are removed. */
    method RemoveOrphans() returns (s: Step)
      requires Inv() && !down
      modifies `files, `down
      ensures Inv() && KnownKept() && down == s.Crashed? && (calm ==> s.Done?)
      ensures calm ==> forall aid: Id | Fl(aid).live.Some? :: aid in rows
      ensures forall aid: Id :: At(aid).f.staging == old(At(aid).f.staging)
      ensures old(forall aid: Id | Fl(aid).live.Some? :: aid in rows) ==> files == old(files)
    {
      hide Ok, AckedOk, Limits.Within;
      s := Done;
      ghost var known := forall aid: Id | Fl(aid).live.Some? :: aid in rows;
      var todo := set aid | aid in files && aid !in rows && Fl(aid).live.Some?;
      while todo != {}
        invariant Inv() && !down && s.Done? && KnownKept()
        invariant forall aid | aid in todo :: aid !in rows && old(Fl(aid).live.Some?)
        invariant forall aid: Id | aid !in rows && At(aid).f.live.Some? :: aid in todo
        invariant forall aid: Id :: At(aid).f.staging == old(At(aid).f.staging)
        invariant known ==> todo == {} && files == old(files)
        decreases |todo|
      {
        var aid :| aid in todo;
        assert ItemInv(aid);
        if Fl(aid).live.Some? {
          label Here:
          s := RemoveLive(aid);
          forall other: Id ensures At(other).f.staging == old(At(other).f.staging) {
            assert old@Here(At(other)).f.staging == old(At(other).f.staging);
          }
          if !s.Done? { return; }
        }
        todo := todo - {aid};
      }
      forall aid: Id | Fl(aid).live.Some? ensures aid in rows { assert At(aid).f == Fl(aid); }
    }

    /** Staging trees without a row, of the given names, are removed. */
    method RemoveAgedStaging(aged: set<Id>) returns (s: Step)
      requires Inv() && !down
      modifies `files, `down
      ensures Inv() && KnownKept() && down == s.Crashed? && (calm ==> s.Done?)
      ensures calm ==> forall aid | aid in aged && aid !in rows :: Fl(aid).staging.None?
      ensures forall aid: Id | aid !in aged :: At(aid) == old(At(aid))
    {
      hide Ok, AckedOk;
      s := Done;
      var todo := set aid | aid in aged && aid in files && aid !in rows;
      while todo != {}
        invariant Inv() && !down && s.Done? && KnownKept()
        invariant forall aid | aid in todo :: aid in aged && aid !in rows
        invariant calm ==> forall aid | aid in aged && aid !in rows && aid !in todo :: At(aid).f.staging.None?
        invariant forall aid: Id | aid !in aged :: At(aid) == old(At(aid))
        decreases |todo|
      {
        var aid :| aid in todo;
        assert ItemInv(aid);
        if Fl(aid).staging.Some? {
          s := RemoveStaging(aid);
          if !s.Done? { return; }
        }
        todo := todo - {aid};
      }
      forall aid | calm && aid in aged && aid !in rows ensures Fl(aid).staging.None? { assert At(aid).f == Fl(aid); }
    }

    /** What a sweep may do to one artifact: nothing if it is not doomed, and never change a row that stays. */
    ghost predicate Swept(before: Item, after: Item, now: int) {
      && (after.row.Some? ==> after.row == before.row)
      && (before.row.Some? && !Doomed(before.row.value, now) ==> after == before)
      && AcksStand(before.acked, after) && NoneNew(before.rc, after.rc)
    }

    /** The trees of what has no row do not matter to it. */
    lemma SweptWithoutRow(before: Item, after: Item, f: Files, now: int)
      requires Swept(before, after, now) && after.row.None?
      ensures Swept(before, after.(f := f), now)
    {
    }

    /** A sweep has removed nothing but doomed artifacts, and has changed no other. */
    twostate predicate SparedRest(now: int) reads `rows, `receipts, `files, `acked, `used, `born {
      used == old(used) && born == old(born) && forall aid: Id :: Swept(old(At(aid)), At(aid), now)
    }

    /** Removes the doomed ones of some artifacts. */
    method SweepSome(todo: set<Id>, now: int) returns (s: Step)
      requires Inv() && !down && todo <= rows.Keys
      modifies `rows, `receipts, `files, `down, `acked
      ensures Inv() && down == s.Crashed? && (calm ==> s.Done?) && used == old(used) && born == old(born)
      ensures forall aid: Id | aid !in todo :: At(aid) == old(At(aid))
      ensures forall aid | aid in todo :: Swept(old(At(aid)), At(aid), now)
      ensures s.Done? ==> forall aid | aid in todo && aid in rows :: !Doomed(rows[aid], now)
      decreases |todo|
    {
      hide Ok, AckedOk, StillHeld, Doomed, Limits.Within;
      if todo == {} { return Done; }
      var aid :| aid in todo;
      s := Done;
      assert ItemInv(aid);
      AckedOkIffHeld(At(aid), At(aid).acked);
      if Doomed(rows[aid], now) { s := SweepItem(aid); }
      RowsOfOthers(aid);
      label Mid:
      if s.Done? { s := SweepSome(todo - {aid}, now); }
      assert At(aid) == old@Mid(At(aid));
      forall other | other in todo && other != aid ensures Swept(old(At(other)), At(other), now) {
        assert old@Mid(At(other)) == old(At(other)) && old(ItemInv(other));
        AckedOkIffHeld(old(At(other)), old(At(other).acked));
      }
    }

    /** Removes every doomed artifact. */
    method SweepDoomed(now: int) returns (s: Step)
      requires Inv() && !down
      modifies `rows, `receipts, `files, `down, `acked
      ensures Inv() && down == s.Crashed? && (calm ==> s.Done?) && SparedRest(now)
      ensures s.Done? ==> forall aid: Id | aid in rows :: !Doomed(rows[aid], now)
      ensures forall aid: Id | aid !in old(rows) :: At(aid) == old(At(aid))
    {
      hide Ok, AckedOk, Doomed, Limits.Within;
      s := SweepSome(rows.Keys, now);
      forall aid: Id ensures Swept(old(At(aid)), At(aid), now) {
        if aid !in old(rows) {
          assert At(aid) == old(At(aid)) && ItemInv(aid);
          AckedOkIffHeld(At(aid), At(aid).acked);
        }
      }
    }

    /** Removes what has expired and uploads that went idle, then trees nobody owns. Artifacts that are not
        doomed are left exactly as they were. */
    method Sweep(now: int, aged: set<Id>) returns (r: Reply)
      requires Inv() && !down
      modifies `rows, `receipts, `files, `down, `acked
      ensures Inv() && down == r.Died? && SparedRest(now)
      ensures r.Ack? ==> forall aid: Id | aid in rows ::
                && (rows[aid].expires.Some? ==> now < rows[aid].expires.value)
                && (rows[aid].state == Uploading ==> now - rows[aid].lastActivity <= idleTtl)
      ensures forall aid: Id | aid in old(rows) && (old(rows)[aid].expires.Some? ==> now < old(rows)[aid].expires.value)
                && (old(rows)[aid].state == Uploading ==> now - old(rows)[aid].lastActivity <= idleTtl) ::
                aid in rows && At(aid) == old(At(aid))
      ensures calm ==> r.Ack? && forall aid: Id | Fl(aid).live.Some? :: aid in rows
      ensures calm ==> forall aid | aid in aged && aid !in rows :: Fl(aid).staging.None?
      ensures forall aid: Id | aid !in old(rows) && aid !in aged :: At(aid).f.staging == old(At(aid).f.staging)
      ensures calm ==> forall aid: Id :: At(aid).acked == old(At(aid).acked)
    {
      hide Ok, Limits.Within;
      var s := SweepDoomed(now);
      label Mid:
      if s.Done? { s := RemoveAgedStaging(aged); }
      label Aged:
      if s.Done? { s := RemoveOrphans(); }
      forall aid: Id ensures Swept(old(At(aid)), At(aid), now) {
        assert Swept(old(At(aid)), old@Mid(At(aid)), now);
        if aid in rows {
          assert At(aid) == old@Mid(At(aid));
        } else {
          SweptWithoutRow(old(At(aid)), old@Mid(At(aid)), Fl(aid), now);
          assert At(aid) == old@Mid(At(aid)).(f := Fl(aid));
        }
      }
      forall aid: Id | aid in old(rows) && !Doomed(old(rows)[aid], now) ensures aid in rows && At(aid) == old(At(aid)) {
        assert Swept(old(At(aid)), At(aid), now);
      }
      forall aid | calm && aid in aged && aid !in rows ensures Fl(aid).staging.None? {
        assert At(aid).f.staging == old@Aged(At(aid)).f.staging && old@Aged(At(aid)).f == old@Aged(Fl(aid));
      }
      forall aid: Id | aid !in old(rows) && aid !in aged ensures At(aid).f.staging == old(At(aid).f.staging) {
        assert old@Aged(At(aid)) == old@Mid(At(aid)) && old@Mid(At(aid)) == old(At(aid));
      }
      forall aid: Id | calm ensures At(aid).acked == old(At(aid).acked) {
        assert Swept(old(At(aid)), At(aid), now) && old(ItemInv(aid));
      }
      return match s { case Crashed => Died case Fault(_) => Err(Unavailable) case Done => Ack };
    }

    // ---------------------------------------------------------- crash and restart

    /** The machine goes down: whatever was not synced comes back in any state the disk allows. */
    method PowerLoss()
      requires Inv() && down
      modifies `files
      ensures Inv() && rows == old(rows) && receipts == old(receipts) && used == old(used)
      ensures files.Keys == old(files).Keys && forall aid | aid in files :: CrashFiles(old(files)[aid], files[aid])
      ensures forall aid: Id :: !Fl(aid).moved
    {
      hide Ok, AckedOk, Limits.Within;
      ghost var intact := map aid | aid in files :: NothingLost(files[aid]);
      forall aid | aid in files ensures CrashFiles(files[aid], intact[aid]) { NothingLostIsACrash(files[aid]); }
      var after: map<Id, Files> :| after.Keys == files.Keys && forall aid | aid in files :: CrashFiles(files[aid], after[aid]);
      Outage(after);
    }

    /** One outcome of it. */
    method Outage(after: map<Id, Files>)
      requires Inv() && down
      requires after.Keys == files.Keys && forall aid | aid in files :: CrashFiles(files[aid], after[aid])
      modifies `files
      ensures Inv() && files == after
    {
      hide Ok, AckedOk, Limits.Within;
      files := after;
      forall aid: Id ensures ItemInv(aid) {
        assert old(ItemInv(aid));
        if aid in files {
          CrashKeepsOk(chunkBytes, old(At(aid)), files[aid]);
        }
      }
    }

    /** Start-up, a published row: staging remnants go. */
    method ReconcileReady(aid: Id) returns (s: Step)
      requires Inv() && !down && aid in rows && rows[aid].state == Ready
      modifies `files, `down
      ensures Inv() && Only(aid) && down == s.Crashed? && (calm ==> s.Done? && Settled(At(aid)))
      ensures old(Settled(At(aid))) ==> Fl(aid) == old(Fl(aid))
    {
      assert ItemInv(aid);
      s := RemoveStaging(aid);
    }

    /** Start-up, an uploading row that owns a live tree: a whole payload would be adopted, all else is removed together
        with the receipts. No upload owns a whole payload in any reachable state, so nothing is ever adopted. */
    method AdoptOrDiscardLive(aid: Id) returns (s: Step)
      requires Inv() && !down && aid in rows && rows[aid].state == Uploading && Fl(aid).live.Some?
      modifies `rows, `receipts, `files, `down
      ensures !old(Complete(rows[aid].manifest, Fl(aid).live.value.vol)) && !Dependable(old(rows[aid].manifest))
      ensures Inv() && Only(aid) && down == s.Crashed? && (calm ==> s.Done?)
      ensures aid in rows && rows[aid] == old(rows[aid])
      ensures s.Done? ==> Rc(aid) == map[]
      ensures calm ==> Fl(aid).live.None?
      ensures NoneNew(old(Rc(aid)), Rc(aid))
    {
      var m := rows[aid].manifest;
      assert ItemInv(aid);
      if Complete(m, Fl(aid).live.value.vol) && Verified(m, Fl(aid).live.value.vol) {
        // here the source makes the tree durable and commits the row as ready
        UploadOwnsNoPayload(chunkBytes, At(aid));
        assert false;
      } else {
        UploadOwnsNoPayload(chunkBytes, At(aid));
        s := RemoveLive(aid);
        if s.Crashed? || s == Fault(Os) { return; }
        assert ItemInv(aid);
        s := Transact(aid, Some(rows[aid]), map[]);
      }
    }

    /** Start-up, an uploading row. */
    method ReconcileUploading(aid: Id) returns (s: Step)
      requires Inv() && !down && aid in rows && rows[aid].state == Uploading
      modifies `rows, `receipts, `files, `down
      ensures Inv() && Only(aid) && down == s.Crashed? && (calm ==> s.Done? && Settled(At(aid)))
      ensures aid in rows && rows[aid] == old(rows[aid])
      ensures calm && old(Settled(At(aid))) ==> At(aid) == old(At(aid))
      ensures NoneNew(old(Rc(aid)), Rc(aid))
      ensures calm && old(Discards(At(aid))) ==> Rc(aid) == map[]
    {
      s := Done;
      if Fl(aid).live.Some? {
        s := AdoptOrDiscardLive(aid);
        if !s.Done? { return; }
      }
      assert ItemInv(aid);
      s := Rebuild(aid);
    }

    /** What a start-up pass has made of a publishing row, from whether it could still be finished when its receipts
        had been gone over. */
    static lemma PublishingStartedUp(chunkBytes: nat, b: Item, mid: Item, a: Item)
      requires b.row.Some? && b.row.value.state == Publishing && Ok(chunkBytes, mid)
      requires mid.row == b.row && mid.f.live == b.f.live && NoneNew(b.rc, mid.rc)
      requires forall e | e in b.row.value.manifest && e.File? :: PathTrimmed(mid.rc, mid.f, e.path)
      requires a.row.Some? && a.row.value.manifest == b.row.value.manifest
      requires if Recoverable(mid) then a.row.value.state == Ready && a.f.staging.None?
               else Resumable(a) && a.f.live == b.f.live
      ensures StartedUp(b, a)
    {
      if b.f.live.Some? && !Complete(b.row.value.manifest, b.f.live.value.vol) {
        if Dependable(b.row.value.manifest) { DependableLiveIsComplete(chunkBytes, mid); }
        if mid.f.staging.Some? && Verified(b.row.value.manifest, mid.f.staging.value.vol) {
          VerifiedIsCompleteIffHonest(b.row.value.manifest, mid.f.staging.value.vol);
        }
      }
      if Stripped(b) {
        var e :| e in b.row.value.manifest && e.File? && e.size > 0;
        assert PathTrimmed(mid.rc, mid.f, e.path);
      }
    }

    /** The staging side of an upload that can be resumed. */
    lemma RebuiltIsResumable(aid: Id)
      requires aid in rows && rows[aid].state == Uploading && HasTopology(aid) && AllReceiptsGood(aid) && AllTrimmed(aid)
      ensures Resumable(At(aid))
    {
    }

    /** Start-up, a publishing row: receipts first, then the recovery shared with `Publish`. The receipts of
        a row whose rename is not yet durable are dropped here before the rename is. */
    method ReconcilePublishing(aid: Id) returns (s: Step)
      requires Inv() && !down && aid in rows && rows[aid].state == Publishing
      requires Fl(aid).moved ==> At(aid).acked == map[]
      modifies `rows, `receipts, `files, `down
      ensures Inv() && Only(aid) && down == s.Crashed? && (calm ==> s.Done?)
      ensures aid in rows && rows[aid] == old(rows[aid]).(state := rows[aid].state)
      ensures calm ==> StartedUp(old(At(aid)), At(aid))
      ensures NoneNew(old(Rc(aid)), Rc(aid))
    {
      hide Ok, AckedOk, StartedUp, Recoverable, Resumable, HasTopology, AllReceiptsGood, AllTrimmed;
      MayGoOverReceipts(aid);
      s := ReconcileFiles(aid);
      if !s.Done? { return; }
      label Mid:
      assert ItemInv(aid);
      if calm { TrimmedPaths(aid); }
      var st: State;
      s, st := Recover(aid);
      if calm {
        if st == Uploading { RebuiltIsResumable(aid); }
        PublishingStartedUp(chunkBytes, old(At(aid)), old@Mid(At(aid)), At(aid));
      }
    }

    lemma TrimmedPaths(aid: Id)
      requires AllTrimmed(aid)
      ensures forall e | e in rows[aid].manifest && e.File? :: PathTrimmed(At(aid).rc, At(aid).f, e.path)
    {
      forall e | e in rows[aid].manifest && e.File? ensures PathTrimmed(At(aid).rc, At(aid).f, e.path) {
        assert Trimmed(aid, e.path);
      }
    }

    lemma MayGoOverReceipts(aid: Id)
      requires Inv() && aid in rows && (Fl(aid).moved ==> At(aid).acked == map[])
      ensures MayReconcile(aid)
    {
    }

    method ReconcileItem(aid: Id) returns (s: Step)
      requires Inv() && !down && aid in rows
      requires Fl(aid).moved ==> At(aid).acked == map[]
      modifies `rows, `receipts, `files, `down
      ensures Inv() && Only(aid) && down == s.Crashed? && (calm ==> s.Done?)
      ensures (calm ==> StartedUp(old(At(aid)), At(aid))) && rows.Keys == old(rows).Keys
      ensures rows[aid] == old(rows)[aid].(state := rows[aid].state)
      ensures old(rows)[aid].state == Ready ==> rows[aid].state == Ready
      ensures NoneNew(old(Rc(aid)), Rc(aid))
    {
      match rows[aid].state {
        case Uploading => s := ReconcileUploading(aid);
        case Publishing => s := ReconcilePublishing(aid);
        case Ready => s := ReconcileReady(aid);
      }
      RowsOfOthers(aid);
    }

    /** Of the rows only states are different, and what was published still is. */
    static predicate OnlyStates(before: map<Id, Row>, after: map<Id, Row>) {
      && after.Keys == before.Keys
      && forall aid | aid in after :: RestOfRowKept(before[aid], after[aid])
    }

    static predicate RestOfRowKept(before: Row, after: Row) {
      after == before.(state := after.state) && (before.state == Ready ==> after.state == Ready)
    }

    /** The given rows, in turn. */
    method ReconcileRows(todo: set<Id>) returns (s: Step)
      requires Inv() && !down && todo <= rows.Keys
      requires forall aid | aid in todo && Fl(aid).moved :: At(aid).acked == map[]
      modifies `rows, `receipts, `files, `down
      ensures Inv() && down == s.Crashed? && (calm ==> s.Done?) && rows.Keys == old(rows).Keys
      ensures calm ==> forall aid | aid in todo :: StartedUp(old(At(aid)), At(aid))
      ensures forall aid: Id | aid !in todo :: At(aid) == old(At(aid))
      ensures forall aid: Id :: NoneNew(old(Rc(aid)), Rc(aid))
      ensures OnlyStates(old(rows), rows)
      decreases |todo|
    {
      hide Ok, AckedOk, StartedUp, Limits.Within;
      if todo == {} { return Done; }
      var aid :| aid in todo;
      s := ReconcileItem(aid);
      RowsOfOthers(aid);
      ReceiptsOfOthers(aid);
      if !s.Done? { return; }
      label Mid:
      forall other | other in todo - {aid} && Fl(other).moved ensures At(other).acked == map[] {
        assert At(other) == old(At(other));
      }
      s := ReconcileRows(todo - {aid});
      forall other | other in todo && calm ensures StartedUp(old(At(other)), At(other)) {
        if other == aid {
          assert At(aid) == old@Mid(At(aid));
        } else {
          assert old@Mid(At(other)) == old(At(other));
        }
      }
      forall other: Id ensures NoneNew(old(Rc(other)), Rc(other)) {
        assert NoneNew(old@Mid(Rc(other)), Rc(other)) && NoneNew(old(Rc(other)), old@Mid(Rc(other)));
      }
    }

    twostate lemma ReceiptsOfOthers(aid: Id)
      requires Only(aid) && NoneNew(old(Rc(aid)), Rc(aid))
      ensures forall other: Id :: NoneNew(old(Rc(other)), Rc(other))
    {
      forall other: Id ensures NoneNew(old(Rc(other)), Rc(other)) {
        if other != aid { assert At(other).rc == old(At(other)).rc; }
      }
    }

    /** Known artifacts whose rename to live is not durable yet. */
    ghost function Stranded(): set<Id> reads `rows, `files {
      set aid | aid in rows && Fl(aid).moved
    }

    static ghost function AcksOf(acked: map<Id, Receipts>, aid: Id): Receipts { if aid in acked then acked[aid] else map[] }

    /** History: the promises about the chunks of these artifacts are set aside. */
    ghost method ForgetAll(aids: set<Id>)
      requires Inv() && aids <= used
      modifies `acked
      ensures Inv()
      ensures forall aid: Id :: At(aid) == if aid in aids then old(At(aid)).(acked := map[]) else old(At(aid))
    {
      hide Ok, AckedOk, Limits.Within;
      acked := map aid | aid in acked.Keys + aids :: if aid in aids then map[] else acked[aid];
      forall aid: Id ensures ItemInv(aid) {
        assert old(ItemInv(aid));
        assert At(aid) == if aid in aids then old(At(aid)).(acked := map[]) else old(At(aid));
        OkSaysNothingOfAcks(chunkBytes, old(At(aid)), map[]);
        NothingAcked(old(At(aid)));
      }
    }

    /** History: of what was set aside, all that still holds is promised again. */
    ghost method RecallAll(was: map<Id, Receipts>)
      requires Inv() && forall aid: Id | aid !in used :: AcksOf(was, aid) == map[]
      modifies `acked
      ensures Inv()
      ensures forall aid: Id :: At(aid) == old(At(aid)).(acked := StillHeld(old(At(aid)), AcksOf(was, aid)))
    {
      hide Ok, AckedOk, StillHeld, Limits.Within;
      acked := map aid | aid in was.Keys + acked.Keys :: StillHeld(At(aid), AcksOf(was, aid));
      forall aid: Id
        ensures ItemInv(aid) && At(aid) == old(At(aid)).(acked := StillHeld(old(At(aid)), AcksOf(was, aid)))
      {
        ghost var held := StillHeld(old(At(aid)), AcksOf(was, aid));
        assert old(ItemInv(aid));
        OkSaysNothingOfAcks(chunkBytes, old(At(aid)), held);
        AckedOkIffHeld(old(At(aid)), AcksOf(was, aid));
        if AcksOf(was, aid) == map[] { NothingHeld(old(At(aid))); }
        assert At(aid) == old(At(aid)).(acked := held);
      }
    }

    static lemma NothingHeld(it: Item)
      ensures StillHeld(it, map[]) == map[]
    {
    }

    /** A start-up pass would find nothing to do. */
    ghost predicate NothingLeft() reads `rows, `receipts, `files, `acked {
      forall aid: Id :: if aid in rows then Settled(At(aid)) else At(aid).f.live.None?
    }

    /** The steps of a start-up pass. */
    method StartUp() returns (s: Step)
      requires Inv() && !down && forall aid | aid in rows && Fl(aid).moved :: At(aid).acked == map[]
      modifies `rows, `receipts, `files, `down
      ensures Inv() && down == s.Crashed? && OnlyStates(old(rows), rows)
      ensures forall aid: Id :: NoneNew(old(Rc(aid)), Rc(aid))
      ensures calm ==> s.Done? && forall aid | aid in rows :: StartedUp(old(At(aid)), At(aid))
      ensures calm ==> forall aid: Id | Fl(aid).live.Some? :: aid in rows
      ensures old(NothingLeft()) && calm ==> forall aid: Id | aid !in rows :: At(aid) == old(At(aid))
    {
      hide Ok, AckedOk, StartedUp, Settled, Limits.Within;
      s := ReconcileRows(rows.Keys);
      if s.Done? {
        label Mid:
        forall aid: Id | Fl(aid).live.Some? ensures old(NothingLeft()) ==> aid in rows {
          if aid !in rows { assert At(aid) == old(At(aid)); }
        }
        s := RemoveOrphans();
        forall aid: Id ensures NoneNew(old(Rc(aid)), Rc(aid)) { assert NoneNew(old(Rc(aid)), old@Mid(Rc(aid))); }
        forall aid | aid in rows && calm ensures StartedUp(old(At(aid)), At(aid)) {
          assert At(aid) == old@Mid(At(aid));
        }
      }
    }

    static lemma StartedUpSaysNothingOfAcks(a: Item, b: Item, x: Receipts, y: Receipts)
      requires StartedUp(a.(acked := x), b)
      ensures StartedUp(a, b.(acked := y))
    {
      SettledSaysNothingOfAcks(a, x);
      SettledSaysNothingOfAcks(b, y);
    }

    static lemma SettledSaysNothingOfAcks(a: Item, x: Receipts)
      ensures Settled(a.(acked := x)) <==> Settled(a)
      ensures Resumable(a.(acked := x)) <==> Resumable(a)
    {
      var b := a.(acked := x);
      assert forall c | c in a.rc :: Staged(a, c) <==> Staged(b, c);
    }

    static lemma SettledIsUnchanged(b: Item, a: Item)
      requires StartedUp(b, a) && Settled(b)
      ensures SameStored(b, a)
    {
    }

    /** One artifact in a start-up pass: `b` before it, `a1` at its end, `a` with the promises that still hold. */
    static lemma PassKeepsAcks(chunkBytes: nat, b: Item, a1: Item, a: Item, calm: bool)
      requires Ok(chunkBytes, b) && Ok(chunkBytes, a1) && AckedOk(a1)
      requires a1.acked == if b.row.Some? && b.f.moved then map[] else b.acked
      requires a == a1.(acked := StillHeld(a1, b.acked))
      requires b.row.Some? == a1.row.Some? && (b.row.Some? ==> a1.row.value.manifest == b.row.value.manifest)
      requires calm && b.row.Some? ==> StartedUp(b.(acked := a1.acked), a1)
      ensures AcksStand(b.acked, a)
      ensures calm || !(b.row.Some? && b.f.moved) ==> a.acked == b.acked
      ensures calm && b.row.Some? ==> StartedUp(b, a)
    {
      HeldSaysNothingOfAcks(a1, a.acked, b.acked);
      if b.row.Some? && b.f.moved {
        if Dependable(b.row.value.manifest) {
          DependableLiveIsComplete(chunkBytes, b);
          assert calm ==> FinishedOnDisk(b.(acked := a1.acked));
        }
      } else {
        AckedOkIffHeld(a1, b.acked);
        assert a1.(acked := b.acked) == a1;
      }
      if calm && b.row.Some? { StartedUpSaysNothingOfAcks(b, a1, a1.acked, a.acked); }
    }

    /** The start-up pass: every row is resolved, then live trees without a row are removed. Without faults
        it leaves every row published or resumable and breaks no promise, and it does nothing where nothing was left
        to do. A promise is broken only where a rename was not durable. */
    method Reconcile() returns (r: Reply)
      requires Inv() && !down
      modifies `rows, `receipts, `files, `down, `acked
      ensures Inv() && down == r.Died? && OnlyStates(old(rows), rows)
      ensures forall aid: Id :: AcksStand(old(At(aid).acked), At(aid)) && NoneNew(old(Rc(aid)), Rc(aid))
      ensures forall aid: Id | calm || aid !in old(Stranded()) :: At(aid).acked == old(At(aid).acked)
      ensures calm ==> r.Ack? && forall aid | aid in rows :: StartedUp(old(At(aid)), At(aid))
      ensures calm ==> forall aid: Id | Fl(aid).live.Some? :: aid in rows
      ensures calm && old(NothingLeft()) ==> forall aid: Id :: At(aid) == old(At(aid))
    {
      hide Ok, AckedOk, StartedUp, Settled, Limits.Within;
      ghost var was := acked;
      forall aid: Id | aid !in used ensures aid !in rows && AcksOf(was, aid) == map[] { assert ItemInv(aid); }
      ForgetAll(Stranded());
      label Set:
      forall aid: Id ensures Settled(At(aid)) <==> old(Settled(At(aid))) {
        SettledSaysNothingOfAcks(old(At(aid)), At(aid).acked);
        assert At(aid) == old(At(aid)).(acked := At(aid).acked);
      }
      forall aid | aid in rows && Fl(aid).moved ensures At(aid).acked == map[] { assert aid in old(Stranded()); }
      var s := StartUp();
      label Passed:
      RecallAll(was);
      forall aid: Id
        ensures AcksStand(old(At(aid).acked), At(aid)) && NoneNew(old(Rc(aid)), Rc(aid))
        ensures calm || aid !in old(Stranded()) ==> At(aid).acked == old(At(aid).acked)
        ensures calm && aid in rows ==> StartedUp(old(At(aid)), At(aid))
        ensures calm && old(NothingLeft()) ==> At(aid) == old(At(aid))
      {
        assert old(ItemInv(aid)) && old@Passed(ItemInv(aid)) && NoneNew(old@Set(Rc(aid)), old@Passed(Rc(aid)));
        assert Rc(aid) == old@Passed(Rc(aid)) && old@Set(Rc(aid)) == old(Rc(aid));
        assert old@Set(At(aid)).rc == old(At(aid)).rc;
        PassKeepsAcks(chunkBytes, old(At(aid)), old@Passed(At(aid)), At(aid), calm);
        if calm && aid in rows && old(Settled(At(aid))) { SettledIsUnchanged(old(At(aid)), At(aid)); }
        assert At(aid) == old@Passed(At(aid)).(acked := At(aid).acked) && old@Set(At(aid)) == old(At(aid)).(acked := old@Set(At(aid).acked));
      }
      r := match s { case Crashed => Died case Fault(_) => Err(Unavailable) case Done => Ack };
    }

    // ---------------------------------------------------------- whole runs

    /** From one state to a later one: no id is used twice, rows never change but for state and activity,
        nothing published is taken back, and no removed artifact returns. */
    twostate predicate Evolved() reads `rows, `used, `born {
      && old(used) <= used
      && (forall aid: Id | aid in old(used) && aid in old(born) :: aid in born && born[aid] == old(born)[aid])
      && forall aid: Id | aid in rows && aid in old(used) ::
           && aid in old(rows) && Origin(rows[aid]) == Origin(old(rows)[aid])
           && (old(rows)[aid].state == Ready ==> rows[aid].state == Ready)
    }

    /** An operation on one artifact that neither creates it nor takes back its publication. */
    twostate lemma OneEvolves(aid: Id)
      requires old(Inv()) && Inv() && Only(aid)
      requires aid in rows ==> aid in old(rows) && (old(rows)[aid].state == Ready ==> rows[aid].state == Ready)
      ensures Evolved()
    {
      hide Ok, AckedOk;
      forall other: Id | other in rows
        ensures other in old(rows) && Origin(rows[other]) == Origin(old(rows)[other])
          && (old(rows)[other].state == Ready ==> rows[other].state == Ready)
      {
        assert ItemInv(other) && old(ItemInv(other)) && (other != aid ==> At(other) == old(At(other)));
      }
    }

    /** An operation that creates the one artifact, under a fresh id. */
    twostate lemma OthersEvolve(aid: Id)
      requires old(Inv()) && aid !in old(used) && old(used) <= used
      requires forall other: Id | other != aid :: At(other) == old(At(other))
      requires born - {aid} == old(born) - {aid}
      ensures Evolved()
    {
      hide Ok, AckedOk;
      assert forall other: Id | other in old(used) && other in old(born) :: (old(born) - {aid})[other] == old(born)[other];
      forall other: Id | other in rows && other in old(used)
        ensures other in old(rows) && Origin(rows[other]) == Origin(old(rows)[other])
          && (old(rows)[other].state == Ready ==> rows[other].state == Ready)
      {
        assert At(other) == old(At(other));
      }
    }

    /** The process is killed between two operations, or its machine loses power. */
    method Kill()
      requires Inv() && !down
      modifies `down
      ensures Inv() && down
    {
      down := true;
    }

    /** The process comes up again, after a loss of power or not, and runs its start-up pass. Without faults that leaves
        nothing to do for a row exactly if no live tree of it had been left half-way, and changes a row exactly if
        something was to be done. */
    method Restart(power: bool) returns (r: Reply)
      requires Inv() && down
      modifies `rows, `receipts, `files, `down, `acked
      ensures Inv() && down == r.Died? && Evolved() && OnlyStates(old(rows), rows)
      ensures forall aid: Id :: AcksStand(old(At(aid).acked), At(aid)) && NoneNew(old(Rc(aid)), Rc(aid))
      ensures forall aid: Id | power || calm || aid !in old(Stranded()) :: At(aid).acked == old(At(aid).acked)
      ensures calm ==> r.Ack? && forall aid | aid in rows :: rows[aid].state == Ready || Resumable(At(aid))
      ensures calm ==> forall aid: Id | Fl(aid).live.Some? :: aid in rows
      ensures calm ==> forall aid | aid in rows && (Dependable(rows[aid].manifest) || old(rows)[aid].state != Publishing) ::
                Settled(At(aid))
      ensures calm && !power ==> forall aid | aid in rows :: StartedUp(old(At(aid)), At(aid))
    {
      hide Ok, AckedOk, Settled, Resumable, Limits.Within;
      if power { PowerLoss(); }
      down := false;
      label Up:
      r := Reconcile();
      forall aid: Id | aid in rows ensures Origin(rows[aid]) == Origin(old(rows)[aid]) {
        assert ItemInv(aid) && old(ItemInv(aid));
      }
      forall aid | aid in rows && calm && (Dependable(rows[aid].manifest) || old(rows)[aid].state != Publishing)
        ensures Settled(At(aid))
      {
        assert old@Up(ItemInv(aid)) && ItemInv(aid) && StartedUp(old@Up(At(aid)), At(aid));
        if old@Up(HalfLive(At(aid))) { DependableLiveIsComplete(chunkBytes, old@Up(At(aid))); }
      }
    }

    ghost function Now(): Moment reads `rows, `receipts, `files, `acked, `born { Moment(rows, receipts, files, acked, born) }

    /** Everything a moment has for one id. */
    static function ItemIn(m: Moment, aid: Id): Item {
      Item(if aid in m.rows then Some(m.rows[aid]) else None, if aid in m.receipts then m.receipts[aid] else map[],
           if aid in m.files then m.files[aid] else NoFiles, if aid in m.acked then m.acked[aid] else map[])
    }

    /** Where a command may break a promise: an artifact whose rename is not durable when the process comes up without a
        loss of power, and one that a sweep is to remove. */
    predicate MayLapse(cmd: Command, aid: Id, now: Moment) {
      match cmd
      case Reboot(power) => !power && aid in now.rows && ItemIn(now, aid).f.moved
      case AskSweep(time, _) => aid in now.rows && Doomed(now.rows[aid], time)
      case _ => false
    }

    /** The command is a put that acknowledges its chunk; in a dependable upload not in place of another. */
    static ghost predicate Puts(cmd: Command, aid: Id, was: Receipts, it: Item) {
      && cmd.AskPut? && cmd.aid == aid && cmd.offset >= 0 && it.row.Some?
      && var c, r := Cell(cmd.path, cmd.offset), Receipt(|cmd.data|, cmd.sha);
         it.acked == was[c := r] && (Dependable(it.row.value.manifest) && c in was ==> was[c] == r)
    }

    /** What a command does to acknowledgements: a put may add its own; otherwise they stay, but for those that a
        start-up pass or a sweep broke where it may, and not without a fault. */
    ghost predicate AcksFollow(cmd: Command, aid: Id, now: Moment, was: Receipts, it: Item) reads `calm {
      it.acked == was || Puts(cmd, aid, was, it) || (!calm && MayLapse(cmd, aid, now) && AcksStand(was, it))
    }

    /** What a command does to receipts: only a put adds one, and it is that of its data. */
    static predicate ReceiptsFollow(cmd: Command, aid: Id, was: Receipts, rc: Receipts) {
      forall c | c in rc ::
        || (c in was && rc[c] == was[c])
        || (cmd.AskPut? && cmd.aid == aid && cmd.offset >= 0 && c == Cell(cmd.path, cmd.offset)
            && rc[c] == Receipt(|cmd.data|, Sha256(cmd.data)))
    }

    /** What a command does to rows: an init makes one; of one that stays only the state and, by a put or a publish of it,
        the activity time are different, and what was published still is; one goes only by its deletion or by a sweep
        at whose time it has expired or been idle for too long. */
    predicate RowFollows(cmd: Command, aid: Id, before: Option<Row>, after: Option<Row>) {
      match (before, after)
      case (None, None) => true
      case (None, Some(row)) =>
        cmd.AskInit? && cmd.aid == aid && row == Row(cmd.user, cmd.manifest, Uploading, cmd.total, cmd.now, cmd.expires)
      case (Some(row), None) =>
        || (cmd.AskDelete? && cmd.aid == aid)
        || (cmd.AskSweep? && row.expires.Some? && cmd.now >= row.expires.value)
        || (cmd.AskSweep? && row.state == Uploading && cmd.now > row.lastActivity + idleTtl)
      case (Some(was), Some(row)) =>
        && RestOfRowKept(was, row.(lastActivity := was.lastActivity))
        && (row.lastActivity == was.lastActivity
            || ((cmd.AskPut? || cmd.AskPublish?) && cmd.aid == aid && row.lastActivity == cmd.now))
    }

    twostate predicate Followed(cmd: Command) reads this {
      forall aid: Id :: FollowedAt(cmd, aid)
    }

    twostate predicate FollowedAt(cmd: Command, aid: Id) reads this {
      && AcksFollow(cmd, aid, old(Now()), old(At(aid).acked), At(aid)) && ReceiptsFollow(cmd, aid, old(Rc(aid)), Rc(aid))
      && RowFollows(cmd, aid, old(At(aid)).row, At(aid).row)
    }

    /** One command. To a process that is down, only a reboot means anything; ids are handed out once. */
    method Do(cmd: Command) returns (r: Reply)
      requires Inv()
      modifies `rows, `receipts, `files, `down, `used, `born, `acked
      ensures Inv() && Evolved()
      ensures Followed(cmd)
    {
      hide Ok, AckedOk, Limits.Within, MayLapse;
      if cmd.Reboot? {
        r := DoReboot(cmd.power);
      } else if down {
        NothingDone(cmd);
        r := Died;
      } else if cmd.AskSweep? {
        r := DoSweep(cmd.now, cmd.aged);
      } else {
        r := DoOne(cmd);
        forall aid: Id ensures FollowedAt(cmd, aid) {
          if aid != cmd.aid { assert At(aid) == old(At(aid)) && At(aid).rc == Rc(aid); }
        }
      }
    }

    twostate lemma NothingDone(cmd: Command)
      requires rows == old(rows) && receipts == old(receipts) && files == old(files) && acked == old(acked)
      requires used == old(used) && born == old(born)
      ensures Evolved()
      ensures Followed(cmd)
    {
    }

    method DoReboot(power: bool) returns (r: Reply)
      requires Inv()
      modifies `rows, `receipts, `files, `down, `acked
      ensures Inv() && Evolved()
      ensures Followed(Reboot(power))
    {
      hide Ok, AckedOk, Limits.Within;
      if !down { Kill(); }
      r := Restart(power);
      forall aid: Id ensures FollowedAt(Reboot(power), aid) {
        assert AcksStand(old(At(aid).acked), At(aid)) && NoneNew(old(Rc(aid)), Rc(aid));
      }
    }

    method DoSweep(now: int, aged: set<Id>) returns (r: Reply)
      requires Inv() && !down
      modifies `rows, `receipts, `files, `down, `acked
      ensures Inv() && Evolved()
      ensures Followed(AskSweep(now, aged))
    {
      hide Ok, Limits.Within;
      r := Sweep(now, aged);
      forall aid: Id ensures FollowedAt(AskSweep(now, aged), aid) {
        assert Swept(old(At(aid)), At(aid), now) && ItemInv(aid);
      }
      forall aid: Id | aid in rows ensures aid in old(rows) && rows[aid] == old(rows)[aid] {
        assert Swept(old(At(aid)), At(aid), now);
      }
    }

    /** A command on one artifact. */
    method DoOne(cmd: Command) returns (r: Reply)
      requires Inv() && !down && (cmd.AskInit? || cmd.AskPut? || cmd.AskPublish? || cmd.AskDelete?)
      modifies `rows, `receipts, `files, `down, `used, `born, `acked
      ensures Inv() && Evolved() && FollowedAt(cmd, cmd.aid)
      ensures forall other: Id | other != cmd.aid :: At(other) == old(At(other))
    {
      hide Ok, AckedOk, Limits.Within, FollowedAt, Evolved;
      match cmd {
        case AskInit(_, _, _, _, _, _) => r := DoInit(cmd);
        case AskPut(_, _, _, _, _, _, _) => r := DoPut(cmd);
        case AskPublish(_, _, _) => r := DoPublish(cmd);
        case AskDelete(_) => r := DoDelete(cmd);
      }
    }

    method DoInit(cmd: Command) returns (r: Reply)
      requires Inv() && !down && cmd.AskInit?
      modifies `rows, `receipts, `files, `down, `used, `born
      ensures Inv() && Evolved() && FollowedAt(cmd, cmd.aid)
      ensures forall other: Id | other != cmd.aid :: At(other) == old(At(other))
    {
      hide Ok, AckedOk, Limits.Within, Complete, Verified, HasTopology, AllReceiptsGood, AllTrimmed;
      assert ItemInv(cmd.aid);
      if cmd.aid in used { return Err(Unavailable); }
      r := Init(cmd.aid, cmd.user, cmd.manifest, cmd.total, cmd.now, cmd.expires);
      OthersEvolve(cmd.aid);
    }

    method DoPut(cmd: Command) returns (r: Reply)
      requires Inv() && !down && cmd.AskPut?
      modifies `rows, `receipts, `files, `down, `acked
      ensures Inv() && Evolved() && FollowedAt(cmd, cmd.aid)
      ensures forall other: Id | other != cmd.aid :: At(other) == old(At(other))
    {
      hide Ok, AckedOk, Limits.Within, Complete, Verified, HasTopology, AllReceiptsGood, AllTrimmed;
      assert ItemInv(cmd.aid);
      r := PutChunk(cmd.user, cmd.aid, cmd.path, cmd.offset, cmd.data, cmd.sha, cmd.now);
      OneEvolves(cmd.aid);
    }

    method DoPublish(cmd: Command) returns (r: Reply)
      requires Inv() && !down && cmd.AskPublish?
      modifies `rows, `receipts, `files, `down
      ensures Inv() && Evolved() && FollowedAt(cmd, cmd.aid)
      ensures forall other: Id | other != cmd.aid :: At(other) == old(At(other))
    {
      hide Ok, AckedOk, Limits.Within, Complete, Verified, HasTopology, AllReceiptsGood, AllTrimmed;
      assert ItemInv(cmd.aid);
      r := Publish(cmd.user, cmd.aid, cmd.now);
      OneEvolves(cmd.aid);
    }

    method DoDelete(cmd: Command) returns (r: Reply)
      requires Inv() && !down && cmd.AskDelete?
      modifies `rows, `receipts, `files, `down
      ensures Inv() && Evolved() && FollowedAt(cmd, cmd.aid)
      ensures forall other: Id | other != cmd.aid :: At(other) == old(At(other))
    {
      hide Ok, AckedOk, Limits.Within, Complete, Verified, HasTopology, AllReceiptsGood, AllTrimmed;
      assert ItemInv(cmd.aid);
      r := Delete(cmd.aid);
      OneEvolves(cmd.aid);
    }

    /** One command from one moment to the next. */
    ghost predicate Follows(cmd: Command, m: Moment, n: Moment) reads `calm {
      forall aid: Id :: FollowsAt(cmd, aid, m, n)
    }

    ghost predicate FollowsAt(cmd: Command, aid: Id, m: Moment, n: Moment) reads `calm {
      && AcksFollow(cmd, aid, m, ItemIn(m, aid).acked, ItemIn(n, aid))
      && ReceiptsFollow(cmd, aid, ItemIn(m, aid).rc, ItemIn(n, aid).rc)
      && RowFollows(cmd, aid, ItemIn(m, aid).row, ItemIn(n, aid).row)
      && (aid in m.born ==> aid in n.born && n.born[aid] == m.born[aid])
      && (aid in n.rows ==> aid in n.born && n.born[aid] == Origin(n.rows[aid]))
      && (aid in n.rows && aid in m.born ==> aid in m.rows)
      && (aid !in m.born ==> ItemIn(m, aid).acked == map[])
    }

    /** The moments before, between and after the commands of a run. */
    ghost predicate Trace(script: seq<Command>, moments: seq<Moment>) reads `calm {
      && |moments| == |script| + 1
      && forall i | 0 <= i < |script| :: Follows(script[i], moments[i], moments[i + 1])
    }

    /** Any run of commands, with faults and crashes inside them, keeps the invariant and leaves a trace. */
    method Run(script: seq<Command>) returns (ghost moments: seq<Moment>)
      requires Inv()
      modifies `rows, `receipts, `files, `down, `used, `born, `acked
      ensures Inv() && Evolved()
      ensures Trace(script, moments) && moments[0] == old(Now()) && moments[|script|] == Now()
      ensures forall aid: Id, c | c in old(At(aid).acked) :: AckKept(script, moments, aid, c)
    {
      hide Ok, AckedOk, StillHeld, Limits.Within, AckKept, Follows;
      moments := [Now()];
      if script == [] {
        forall aid: Id, c | c in old(At(aid).acked) ensures AckKept(script, moments, aid, c) { TraceKeepsAck(script, moments, aid, c); }
        return;
      }
      var _ := Do(script[0]);
      DoneFollows(script[0]);
      ghost var rest := Run(script[1..]);
      moments := moments + rest;
      TraceBegins(script, moments[0], rest);
      forall aid: Id, c | c in old(At(aid).acked) ensures AckKept(script, moments, aid, c) {
        TraceKeepsAck(script, moments, aid, c);
      }
    }

    twostate lemma DoneFollows(cmd: Command)
      requires old(Inv()) && Inv() && Evolved() && Followed(cmd)
      ensures Follows(cmd, old(Now()), Now())
    {
      hide Ok, AckedOk, Limits.Within, AcksFollow, ReceiptsFollow, RowFollows;
      forall aid: Id ensures FollowsAt(cmd, aid, old(Now()), Now()) {
        assert old(ItemInv(aid)) && ItemInv(aid) && FollowedAt(cmd, aid);
        assert ItemIn(old(Now()), aid) == old(At(aid)) && ItemIn(Now(), aid) == At(aid);
      }
    }

    lemma TraceBegins(script: seq<Command>, m: Moment, rest: seq<Moment>)
      requires script != [] && Trace(script[1..], rest) && Follows(script[0], m, rest[0])
      ensures Trace(script, [m] + rest)
    {
      hide Follows;
      var moments := [m] + rest;
      forall i | 0 <= i < |script| ensures Follows(script[i], moments[i], moments[i + 1]) {
        if i > 0 { assert Follows(script[1..][i - 1], rest[i - 1], rest[i]); }
      }
    }

    lemma TraceGoesOn(script: seq<Command>, moments: seq<Moment>)
      requires Trace(script, moments) && script != []
      ensures Trace(script[1..], moments[1..])
    {
      hide Follows;
      forall i | 0 <= i < |script[1..]| ensures Follows(script[1..][i], moments[1..][i], moments[1..][i + 1]) {
        assert Follows(script[i + 1], moments[i + 1], moments[i + 1 + 1]);
      }
    }

    // ---------------------------------------------------------- acknowledgements over whole runs

    /** The artifact has this receipt. */
    static predicate HasReceipt(m: Moment, aid: Id, c: Cell, r: Receipt) {
      c in ItemIn(m, aid).rc && ItemIn(m, aid).rc[c] == r
    }

    /** Some command of the run broke the promise of this chunk where it may. */
    predicate Lapses(script: seq<Command>, moments: seq<Moment>, aid: Id, c: Cell, r: Receipt)
      requires |moments| == |script| + 1
    {
      exists i | 0 <= i < |script| :: MayLapse(script[i], aid, moments[i]) && !HasReceipt(moments[i + 1], aid, c, r)
    }

    /** An upload that the store is to keep safe. */
    static predicate IsDependable(m: Moment, aid: Id) { aid in m.born && Dependable(m.born[aid].manifest) }

    /** A chunk acknowledged before the run is still acknowledged after it, for a dependable upload with the same bytes,
        unless the run has broken its promise, which only a fault can do and only to a dependable upload. */
    ghost predicate AckKept(script: seq<Command>, moments: seq<Moment>, aid: Id, c: Cell)
      requires |moments| == |script| + 1 && c in ItemIn(moments[0], aid).acked
      reads `calm
    {
      var r, now, dependable := ItemIn(moments[0], aid).acked[c], ItemIn(moments[|script|], aid).acked, IsDependable(moments[0], aid);
      || (c in now && (dependable ==> now[c] == r))
      || (!calm && dependable && Lapses(script, moments, aid, c, r))
    }

    /** Every trace keeps every acknowledgement, or has broken its promise where it may. */
    lemma {:induction false} TraceKeepsAck(script: seq<Command>, moments: seq<Moment>, aid: Id, c: Cell)
      requires Trace(script, moments) && c in ItemIn(moments[0], aid).acked
      ensures AckKept(script, moments, aid, c)
      decreases |script|
    {
      hide MayLapse, Follows;
      if script == [] { return; }
      var r, dependable := ItemIn(moments[0], aid).acked[c], IsDependable(moments[0], aid);
      FollowsOne(script[0], aid, moments[0], moments[1]);
      TraceGoesOn(script, moments);
      var mid := ItemIn(moments[1], aid).acked;
      if c in mid && (dependable ==> mid[c] == r) {
        TraceKeepsAck(script[1..], moments[1..], aid, c);
        LapsesLater(script, moments, aid, c, mid[c]);
        assert moments[1..][|script[1..]|] == moments[|script|];
      } else {
        assert !HasReceipt(moments[0 + 1], aid, c, r);
      }
    }

    lemma FollowsOne(cmd: Command, aid: Id, m: Moment, n: Moment)
      requires Follows(cmd, m, n)
      ensures FollowsAt(cmd, aid, m, n)
    {
    }

    lemma LapsesLater(script: seq<Command>, moments: seq<Moment>, aid: Id, c: Cell, r: Receipt)
      requires |moments| == |script| + 1 && script != []
      ensures Lapses(script[1..], moments[1..], aid, c, r) ==> Lapses(script, moments, aid, c, r)
    {
      hide MayLapse;
      if Lapses(script[1..], moments[1..], aid, c, r) {
        var i :| 0 <= i < |script[1..]|
          && MayLapse(script[1..][i], aid, moments[1..][i]) && !HasReceipt(moments[1..][i + 1], aid, c, r);
        assert MayLapse(script[i + 1], aid, moments[i + 1]) && !HasReceipt(moments[i + 1 + 1], aid, c, r);
      }
    }

    // ---------------------------------------------------------- activity over whole runs

    /** The command does not delete the artifact, and is no sweep at a time when it has expired or when nothing was heard
        of it for longer than the limit since `t`; time does not go back before `t`. */
    predicate Spares(cmd: Command, aid: Id, t: int, expires: Option<int>) {
      match cmd
      case AskDelete(id) => id != aid
      case AskSweep(now, _) => now <= t + idleTtl && (expires.Some? ==> now < expires.value)
      case AskPut(_, id, _, _, _, _, now) => id == aid ==> t <= now
      case AskPublish(_, id, now) => id == aid ==> t <= now
      case _ => true
    }

    /** What was active at `t` stays in every trace that does not delete it, until it expires or `t` is too long ago. */
    lemma {:induction false} TraceKeepsActive(script: seq<Command>, moments: seq<Moment>, aid: Id, t: int)
      requires Trace(script, moments) && aid in moments[0].rows && moments[0].rows[aid].lastActivity >= t
      requires forall cmd | cmd in script :: Spares(cmd, aid, t, moments[0].rows[aid].expires)
      ensures aid in moments[|script|].rows && Origin(moments[|script|].rows[aid]) == Origin(moments[0].rows[aid])
      decreases |script|
    {
      hide Follows, AcksFollow, ReceiptsFollow;
      if script == [] { return; }
      FollowsOne(script[0], aid, moments[0], moments[1]);
      TraceGoesOn(script, moments);
      assert script[0] in script && forall cmd | cmd in script[1..] :: cmd in script;
      TraceKeepsActive(script[1..], moments[1..], aid, t);
      assert moments[1..][|script[1..]|] == moments[|script|];
    }

    /** An upload that has not expired stays after a chunk acknowledged at `t`, whatever fails or crashes: no sweep up to
        the idle limit after `t` takes it. */
    method KeptAfterPut(user: string, aid: Id, path: Path, offset: int, data: Bytes, sha: Digest, t: int, script: seq<Command>)
      returns (r: Reply)
      requires Inv() && !down
      modifies this
      ensures Inv()
      ensures r.Ack? ==> aid in old(rows)
      ensures r.Ack? && (forall cmd | cmd in script :: Spares(cmd, aid, t, old(rows)[aid].expires)) ==>
                aid in rows && Origin(rows[aid]) == Origin(old(rows)[aid])
    {
      hide Ok, AckedOk, Limits.Within, AckKept, Follows, Spares;
      r := PutChunk(user, aid, path, offset, data, sha, t);
      ghost var moments := Run(script);
      if r.Ack? && forall cmd | cmd in script :: Spares(cmd, aid, t, old(rows)[aid].expires) {
        TraceKeepsActive(script, moments, aid, t);
      }
    }

    /** In every reachable state a published artifact is live, durable and verified, byte for byte. */
    lemma ReadyIsServed(aid: Id)
      requires Inv() && aid in rows && rows[aid].state == Ready
      ensures SafelyPublished(rows[aid].manifest, Fl(aid))
      ensures Complete(rows[aid].manifest, Fl(aid).live.value.vol) <==> Honest(rows[aid].manifest)
      ensures Complete(rows[aid].manifest, Fl(aid).live.value.dur) <==> Honest(rows[aid].manifest)
      ensures forall g | CrashFiles(Fl(aid), g) :: SafelyPublished(rows[aid].manifest, g)
    {
      assert ItemInv(aid);
      ReadyIsSafe(chunkBytes, At(aid));
      forall g | CrashFiles(Fl(aid), g) ensures SafelyPublished(rows[aid].manifest, g) {
        ReadySurvivesCrash(chunkBytes, At(aid), g);
      }
    }

    /** In every reachable state an acknowledged chunk of a dependable upload is behind its receipt, in the cache and
        on the medium, or the whole payload is live for good; and no crash changes that. */
    lemma AcknowledgedIsSafe(aid: Id, c: Cell)
      requires Inv() && aid in rows && Dependable(rows[aid].manifest)
      requires aid in acked && c in acked[aid]
      ensures ChunkSafe(At(aid), c, acked[aid][c])
      ensures forall g | CrashFiles(Fl(aid), g) :: ChunkSafe(At(aid).(f := g), c, acked[aid][c])
    {
      assert ItemInv(aid);
      AckedIsSafe(chunkBytes, At(aid), c);
      forall g | CrashFiles(Fl(aid), g) ensures ChunkSafe(At(aid).(f := g), c, acked[aid][c]) {
        CrashKeepsOk(chunkBytes, At(aid), g);
        AckedIsSafe(chunkBytes, At(aid).(f := g), c);
      }
    }

    /** After any run at all, one start without faults leaves every row published or resumable and nothing live without
        a row, and nothing to do for any dependable row; after two there is nothing left to do at all. */
    method Recovery(script: seq<Command>, power: bool, again: bool)
      requires Inv()
      modifies this
      ensures Inv() && Evolved() && !down
      ensures forall aid | aid in rows :: rows[aid].state == Ready || Resumable(At(aid))
      ensures forall aid: Id | Fl(aid).live.Some? :: aid in rows
      ensures forall aid | aid in rows && Dependable(rows[aid].manifest) :: Settled(At(aid))
      ensures again ==> NothingLeft()
    {
      hide Ok, AckedOk, Limits.Within, Settled, StartedUp;
      ghost var _ := Run(script);
      calm := true;
      if !down { Kill(); }
      var _ := Restart(power);
      if again { StartAgain(power); }
    }

    /** A start after one that found no fault: nothing is left to do. */
    method StartAgain(power: bool)
      requires Inv() && !down && calm && forall aid | aid in rows :: rows[aid].state != Publishing
      modifies this
      ensures Inv() && Evolved() && !down && NothingLeft()
      ensures forall aid | aid in rows :: rows[aid].state == Ready || Resumable(At(aid))
      ensures forall aid: Id | Fl(aid).live.Some? :: aid in rows
    {
      hide Ok, AckedOk, Limits.Within, Settled, StartedUp, Resumable;
      Kill();
      var _ := Restart(power);
      forall aid: Id ensures if aid in rows then Settled(At(aid)) else At(aid).f.live.None? {
        assert At(aid).f == Fl(aid);
      }
    }
  }
}
