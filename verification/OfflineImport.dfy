/** The restartable import of a frozen snapshot: files are copied and bound to their directory's identity, the
    directory is renamed into place, the rows go in with one transaction, and two receipts close the work. The
    process can be killed at every durable step, and the power can fail; a later run goes on from what it finds. */
module OfflineImport {
  import opened Wrappers

  type Name = string
  type Path = seq<Name>
  type Row = string
  type Inode = nat

  datatype Node = Directory(mtime: int) | File(bytes: seq<int>, mtime: int)

  /** What an inventory records: every path with its content. */
  type Tree = map<Path, Node>

  /** `intact`: the bundle's own files, hashes, export and audit agree, and its schema is the one expected. */
  datatype Bundle = Bundle(files: Tree, rows: multiset<Row>, intact: bool)

  /** A bundle's identity is a hash of its manifest. */
  datatype Identity = Identity(of: Bundle)

  /** `synced`: what is in the directory is on the medium. */
  datatype Folder = Folder(inode: Inode, tree: Tree, synced: bool)

  datatype Binding = Binding(source: Identity, inode: Inode)

  datatype Receipt = Receipt(binding: Binding, entries: Tree)

  /** The completion marker binds the receipt by its hash. */
  datatype Marker = Marker(source: Identity, receipt: Receipt)

  /** The names in the destination's root directory: two directories and three small files. */
  datatype Root = Root(
    incoming: Option<Folder>, data: Option<Folder>, copy: Option<Binding>, payload: Option<Receipt>, complete: Option<Marker>)

  const EmptyRoot := Root(None, None, None, None, None)

  datatype Database = Database(source: Option<Identity>, rows: multiset<Row>, writesStarted: bool)

  datatype Result = Done | Refused | Killed

  datatype Command = Import(b: Bundle) | Verify(b: Bundle) | Mark(source: Identity) | Work | PowerCut

  predicate InPayload(p: Path) { p == [] || p[0] in {"staging", "live"} }

  /** The part of a snapshot that a destination holds as files. */
  function Payload(files: Tree): Tree { map p | p in files && InPayload(p) :: files[p] }

  function WithoutTime(n: Node): Node { n.(mtime := 0) }

  function Entries(t: Tree): Tree { map p | p in t :: WithoutTime(t[p]) }

  /** What a receipt records of a payload tells any two apart that differ in a path, in its kind or in its bytes. */
  lemma EntriesTellApart(a: Tree, b: Tree)
    requires Entries(a) == Entries(b)
    ensures a.Keys == b.Keys
    ensures forall p | p in a :: a[p].File? == b[p].File? && (a[p].File? ==> a[p].bytes == b[p].bytes)
  {
    assert a.Keys == Entries(a).Keys && b.Keys == Entries(b).Keys;
    forall p | p in a ensures a[p].File? == b[p].File? && (a[p].File? ==> a[p].bytes == b[p].bytes) {
      assert Entries(a)[p] == Entries(b)[p];
    }
  }

  /** The payload of a bundle is what its two trees, and they alone, hold. */
  lemma PayloadIsBothTrees(files: Tree)
    ensures forall p :: p in Payload(files) <==> p in files && (p == [] || p[0] == "staging" || p[0] == "live")
    ensures forall p | p in Payload(files) :: Payload(files)[p] == files[p]
  {
  }

  // ---------------------------------------------------------------- loss of power

  /** A directory that comes back: what was not synced in it may have become anything. */
  function FolderBack(f: Option<Folder>, t: Tree): Option<Folder> {
    if f.Some? then Some(Folder(f.value.inode, if f.value.synced then f.value.tree else t, true)) else None
  }

  /** What each name of a root directory was at some time since the directory was last synced. The two directories are
      taken together: a rename is done or is not. */
  datatype Outcome = Outcome(folders: nat, copy: nat, payload: nat, complete: nat, content: Tree)

  /** A file system that keeps the changes of one directory in order takes all its names from one time. */
  predicate Possible(o: Outcome, states: seq<Root>, ordered: bool) {
    && o.folders < |states| && o.copy < |states| && o.payload < |states| && o.complete < |states|
    && (ordered ==> o.folders == o.copy == o.payload == o.complete)
  }

  function RootBack(o: Outcome, states: seq<Root>): Root
    requires Possible(o, states, false)
  {
    Root(FolderBack(states[o.folders].incoming, o.content), FolderBack(states[o.folders].data, o.content),
         states[o.copy].copy, states[o.payload].payload, states[o.complete].complete)
  }

  // ---------------------------------------------------------------- what holds of a root directory

  /** The directory is the one that was bound, and holds the payload of the bundle it was bound for. */
  predicate IsCopy(f: Option<Folder>, b: Binding) {
    f.Some? && f.value.inode == b.inode && f.value.tree == Payload(b.source.of.files)
  }

  function ReceiptFor(b: Binding): Receipt { Receipt(b, Entries(Payload(b.source.of.files))) }

  function MarkerFor(b: Binding): Marker { Marker(b.source, ReceiptFor(b)) }

  /** Nothing is there without what was to be there before it: a receipt for a bound copy has its directory, and no
      directory, receipt or marker is without the one it follows. */
  predicate Whole(r: Root) {
    && (r.copy.None? ==> r.data.None? && r.payload.None? && r.complete.None?)
    && (r.copy.Some? && r.data.None? ==> IsCopy(r.incoming, r.copy.value))
    && (r.complete.Some? ==> r.payload.Some?)
  }

  /** What is there is right. */
  predicate Right(r: Root, db: Database) {
    && (r.data.Some? ==> r.incoming.None?)
    && (r.copy.Some? ==> r.copy.value.source.of.intact && (r.incoming.Some? ==> r.incoming.value.synced))
    && (r.copy.Some? && r.data.Some? && !db.writesStarted ==> IsCopy(r.data, r.copy.value) && r.data.value.synced)
    && (r.payload.Some? ==> r.copy.Some? && r.payload.value == ReceiptFor(r.copy.value))
    && (r.complete.Some? ==> r.copy.Some? && r.complete.value == MarkerFor(r.copy.value))
    && (db.source.None? ==> r.payload.None? && r.complete.None?)
    && (db.source.Some? ==> r.copy.Some? && r.data.Some? && db.source == Some(r.copy.value.source))
  }

  /** Of what was there at one time nothing is replaced later. */
  predicate Before(r: Root, later: Root) {
    && (r.copy.Some? ==> later.copy == r.copy)
    && (r.payload.Some? ==> later.payload == r.payload) && (r.complete.Some? ==> later.complete == r.complete)
  }

  predicate Inodes(r: Root, next: Inode) {
    (r.incoming.Some? ==> r.incoming.value.inode < next) && (r.data.Some? ==> r.data.value.inode < next)
  }

  /** One of the states since the root directory was last synced. */
  predicate StateOk(r: Root, medium: Root, now: Root, db: Database, next: Inode) {
    Right(r, db) && Before(medium, r) && Before(r, now) && Inodes(r, next)
  }

  class Destination {
    /** Whether the file system keeps the changes of one directory in order. */
    const ordered: bool
    /** The root directory as it was since it was last synced: first as on the medium, last as it is. */
    var states: seq<Root>
    var database: Database
    var nextInode: Inode
    /** When set, the process is not killed. */
    var calm: bool
    /** History: how often the rows of a bundle were inserted. */
    ghost var inserted: nat

    constructor (ordered: bool)
      ensures this.ordered == ordered && Inv() && states == [EmptyRoot] && database == Database(None, multiset{}, false)
    {
      this.ordered := ordered;
      states := [EmptyRoot];
      database := Database(None, multiset{}, false);
      nextInode, calm, inserted := 0, false, 0;
    }

    // ---------------------------------------------------------- what holds

    function Now(): Root
      requires states != []
      reads `states
    {
      states[|states| - 1]
    }

    function Medium(): Root
      requires states != []
      reads `states
    {
      states[0]
    }

    /** The root directory is on the medium as it is. */
    predicate Steady() reads `states { |states| == 1 }

    ghost predicate RowsOk() reads `database, `inserted {
      && (database.source.None? ==> database.rows == multiset{} && inserted == 0 && !database.writesStarted)
      && (database.source.Some? ==> inserted == 1)
      && (database.source.Some? && !database.writesStarted ==> database.rows == database.source.value.of.rows)
    }

    /** A copy that is bound, but not yet on the medium, is in a directory of which the medium knows nothing. */
    predicate FreshlyBound() reads `states {
      states != [] && (Now().copy.Some? && Medium().copy.None? && Medium().incoming.Some? ==>
        Medium().incoming.value.inode != Now().copy.value.inode)
    }

    /** Every state that any runs leave behind, killed or not, whether or not the power has failed. */
    ghost predicate Inv() reads this {
      && states != [] && RowsOk() && FreshlyBound()
      && (forall i | 0 <= i < |states| :: StateOk(states[i], Medium(), Now(), database, nextInode))
      && (Steady() || forall i | 0 <= i < |states| :: Whole(states[i]))
    }

    /** The import of the bundle is finished: the payload on the bound directory, the rows once, both receipts. */
    ghost predicate Finished(b: Bundle) reads this {
      && states != [] && Now().copy.Some? && Now().copy.value.source == Identity(b) && IsCopy(Now().data, Now().copy.value)
      && database == Database(Some(Identity(b)), b.rows, false)
      && Now().payload == Some(ReceiptFor(Now().copy.value)) && Now().complete == Some(MarkerFor(Now().copy.value))
    }

    /** Nothing before stands in the way of importing the bundle. */
    predicate Open(b: Bundle) reads this {
      && states != [] && b.intact && !database.writesStarted
      && (Now().copy.None? || Now().copy.value.source == Identity(b)) && Whole(Now())
    }

    /** While the power stays on: once a bundle's copy is bound, it stays bound; once rows are in, they are not put in
        again; nothing that is on the medium is lost. */
    twostate predicate Onward() reads this {
      && old(states) != [] && states != [] && Before(old(Now()), Now()) && Before(old(Medium()), Medium())
      && (old(database.source.Some?) ==> database == old(database) && inserted == old(inserted))
      && (old(database.writesStarted) ==> Now().data == old(Now().data))
    }

    // ---------------------------------------------------------- durable steps

    /** Whether the process dies here. */
    method Dies() returns (dead: bool)
      ensures calm ==> !dead
    {
      dead := *;
      if calm { dead := false; }
    }

    /** A name in the root directory changes. */
    method Change(r: Root)
      requires Inv() && Whole(Now()) && Whole(r) && Right(r, database) && Inodes(r, nextInode) && Before(Now(), r)
      requires r.copy.Some? && Medium().copy.None? && Medium().incoming.Some? ==> Medium().incoming.value.inode != r.copy.value.inode
      modifies `states
      ensures Inv() && states == old(states) + [r]
    {
      states := states + [r];
    }

    /** The root directory is synced. */
    method SyncRoot() returns (r: Result)
      requires Inv()
      modifies `states
      ensures Inv() && r != Refused && (calm ==> r.Done?) && Now() == old(Now())
      ensures states == if r.Done? then [old(Now())] else old(states)
    {
      var dead := Dies();
      if dead { return Killed; }
      states := [Now()];
      return Done;
    }

    /** An incoming directory that was never bound is taken away, with whatever is in it. */
    method ClearIncoming() returns (r: Result)
      requires Inv() && Now().data.None? && Now().copy.None?
      modifies `states
      ensures Inv() && r != Refused && (calm ==> r.Done?) && Now().(incoming := None) == old(Now()).(incoming := None)
      ensures Medium().(incoming := None) == old(Medium()).(incoming := None)
      ensures r.Done? ==> Now().incoming.None?
    {
      r := Done;
      if Now().incoming.None? { return; }
      var was := states;
      states := seq(|was|, i requires 0 <= i < |was| => Unsynced(was[i]));
      var dead := Dies();
      if dead { return Killed; }
      Change(Now().(incoming := None));
      dead := Dies();
      if dead { return Killed; }
    }

    function Unsynced(r: Root): Root {
      if r.incoming.Some? then r.(incoming := Some(r.incoming.value.(synced := false))) else r
    }

    /** Something changes inside the incoming directory. */
    method ChangeIncoming(f: Folder)
      requires Inv() && Now().data.None? && Now().copy.None? && Now().incoming.Some? && f.inode == Now().incoming.value.inode
      modifies `states
      ensures Inv() && |states| == |old(states)| && states[..|states| - 1] == old(states)[..|states| - 1]
      ensures Now() == old(Now()).(incoming := Some(f)) && (|states| > 1 ==> Medium() == old(Medium()))
    {
      states := states[..|states| - 1] + [Now().(incoming := Some(f))];
    }

    /** A new incoming directory, of which the medium knows nothing. */
    method MakeIncoming()
      requires Inv() && Now().data.None? && Now().copy.None?
      modifies `states, `nextInode
      ensures Inv() && |states| > 1 && Now().incoming.Some?
      ensures Now() == old(Now()).(incoming := Some(Folder(Now().incoming.value.inode, map[], false)))
      ensures Medium() == old(Medium())
      ensures Medium().incoming.Some? ==> Medium().incoming.value.inode != Now().incoming.value.inode
    {
      nextInode := nextInode + 1;
      assert Medium().incoming.Some? ==> Medium().incoming.value.inode < nextInode - 1;
      Change(Now().(incoming := Some(Folder(nextInode - 1, map[], false))));
    }

    /** The payload is copied entry by entry, and synced. */
    method FillIncoming(files: Tree) returns (r: Result)
      requires Inv() && Now().data.None? && Now().copy.None? && |states| > 1
      requires Now().incoming.Some? && Now().incoming.value.tree == map[] && !Now().incoming.value.synced
      modifies `states
      ensures Inv() && r != Refused && (calm ==> r.Done?) && Medium() == old(Medium())
      ensures Now().incoming.Some? && Now() == old(Now()).(incoming := Now().incoming)
      ensures Now().incoming.value.inode == old(Now()).incoming.value.inode
      ensures r.Done? ==> Now().incoming.value.tree == Payload(files) && Now().incoming.value.synced
    {
      hide Right, Whole, RowsOk;
      var inode := Now().incoming.value.inode;
      var dead: bool;
      var todo := set p | p in files && InPayload(p);
      assert Payload(files) - todo == map[];
      while todo != {}
        invariant Inv() && |states| > 1 && Medium() == old(Medium())
        invariant todo <= Payload(files).Keys
        invariant Now() == old(Now()).(incoming := Some(Folder(inode, Payload(files) - todo, false)))
        decreases |todo|
      {
        dead := Dies();
        if dead { return Killed; }
        var p :| p in todo;
        ChangeIncoming(Now().incoming.value.(tree := Now().incoming.value.tree[p := files[p]]));
        assert (Payload(files) - todo)[p := files[p]] == Payload(files) - (todo - {p});
        todo := todo - {p};
      }
      assert Payload(files) - {} == Payload(files);
      ChangeIncoming(Now().incoming.value.(synced := true));
      return Done;
    }

    /** Copies the payload into a fresh directory. */
    method CopyTree(files: Tree) returns (r: Result)
      requires Inv() && Now().data.None? && Now().copy.None?
      modifies `states, `nextInode
      ensures Inv() && r != Refused && (calm ==> r.Done?) && Now().(incoming := None) == old(Now()).(incoming := None)
      ensures Medium().(incoming := None) == old(Medium()).(incoming := None)
      ensures r.Done? ==> Now().incoming.Some? && Now().incoming.value.tree == Payload(files) && Now().incoming.value.synced
      ensures r.Done? && Medium().incoming.Some? ==> Medium().incoming.value.inode != Now().incoming.value.inode
    {
      hide Right, Whole, RowsOk, StateOk;
      var dead := Dies();
      if dead { return Killed; }
      r := ClearIncoming();
      if !r.Done? { return; }
      MakeIncoming();
      r := FillIncoming(files);
    }

    /** The copied directory's identity is written down before it is renamed and before any row is inserted. */
    method BindCopy(b: Bundle) returns (r: Result)
      requires Inv() && Now().data.None? && Now().copy.None? && b.intact
      requires Now().incoming.Some? && Now().incoming.value.tree == Payload(b.files) && Now().incoming.value.synced
      requires Medium().incoming.Some? ==> Medium().incoming.value.inode != Now().incoming.value.inode
      modifies `states
      ensures Inv() && Onward() && r != Refused && (calm ==> r.Done?) && Whole(Now())
      ensures Now() == old(Now()) || Now() == old(Now()).(copy := Some(Binding(Identity(b), old(Now()).incoming.value.inode)))
      ensures r.Done? ==> Now().copy.Some? && Steady()
    {
      var dead := Dies();
      if dead { return Killed; }
      Change(Now().(copy := Some(Binding(Identity(b), Now().incoming.value.inode))));
      r := SyncRoot();
    }

    method RenameIntoPlace() returns (r: Result)
      requires Inv() && Now().data.None? && Now().copy.Some? && Whole(Now())
      modifies `states
      ensures Inv() && Onward() && r != Refused && (calm ==> r.Done?) && Whole(Now())
      ensures Now() == old(Now()) || Now() == old(Now()).(data := old(Now()).incoming, incoming := None)
      ensures r.Done? ==> Now().data.Some? && Steady()
    {
      var dead := Dies();
      if dead { return Killed; }
      Change(Now().(data := Now().incoming, incoming := None));
      r := SyncRoot();
    }

    /** One transaction: guarded, refused when anything is there already, all rows and the source or nothing. The
        statements are written to a file first, which also syncs the root directory. */
    method InsertRows(b: Bundle) returns (r: Result)
      requires Inv() && Now().data.Some? && Now().copy.Some? && Now().copy.value.source == Identity(b)
      modifies `states, `database, `inserted
      ensures Inv() && Onward() && (calm ==> !r.Killed?) && Now() == old(Now())
      ensures r.Refused? ==> database == old(database) && old(database.source.Some?)
      ensures r.Done? ==> database.source == Some(Identity(b)) && Steady()
      ensures database.writesStarted == old(database.writesStarted)
    {
      r := SyncRoot();
      if !r.Done? { return; }
      var dead := Dies();
      if dead { return Killed; }
      if database.writesStarted || database.source.Some? || database.rows != multiset{} { return Refused; }
      database := Database(Some(Identity(b)), b.rows, false);
      inserted := inserted + 1;
      dead := Dies();
      return if dead then Killed else Done;
    }

    method WritePayload(receipt: Receipt) returns (r: Result)
      requires Inv() && Whole(Now()) && database.source.Some? && receipt == ReceiptFor(Now().copy.value) && Now().payload.None?
      modifies `states
      ensures Inv() && Onward() && r != Refused && (calm ==> r.Done?) && Whole(Now())
      ensures Now() == old(Now()) || Now() == old(Now()).(payload := Some(receipt))
      ensures r.Done? ==> Now().payload.Some? && Steady()
    {
      var dead := Dies();
      if dead { return Killed; }
      Change(Now().(payload := Some(receipt)));
      r := SyncRoot();
    }

    method WriteComplete(marker: Marker) returns (r: Result)
      requires Inv() && Whole(Now()) && database.source.Some? && Now().payload.Some? && Now().complete.None?
      requires marker == MarkerFor(Now().copy.value)
      modifies `states
      ensures Inv() && Onward() && r != Refused && (calm ==> r.Done?) && Whole(Now())
      ensures Now() == old(Now()) || Now() == old(Now()).(complete := Some(marker))
      ensures r.Done? ==> Now().complete.Some? && Steady()
    {
      var dead := Dies();
      if dead { return Killed; }
      Change(Now().(complete := Some(marker)));
      r := SyncRoot();
    }

    // ---------------------------------------------------------- checks

    /** The boundary every operation checks first: no other source, no writes since. */
    predicate Guarded(source: Identity) reads this {
      !database.writesStarted && (database.source.None? || database.source == Some(source))
    }

    /** A directory other than the one that was bound is never adopted, whatever it holds. */
    predicate CopyBound(source: Identity, f: Option<Folder>) reads this {
      states != [] && f.Some? && Now().copy == Some(Binding(source, f.value.inode))
    }

    predicate ReceiptHolds(source: Identity, needsComplete: bool) reads this {
      && states != [] && Now().data.Some?
      && Now().payload == Some(Receipt(Binding(source, Now().data.value.inode), Entries(Now().data.value.tree)))
      && (needsComplete || Now().complete.Some? ==> Now().complete == Some(Marker(source, Now().payload.value)))
    }

    /** What verification compares: the rows and every byte against the snapshot, and the receipts. */
    predicate Verifies(b: Bundle, receipts: bool) reads this {
      && states != [] && b.intact && Guarded(Identity(b)) && database.source == Some(Identity(b))
      && CopyBound(Identity(b), Now().data) && database.rows == b.rows && Now().data.value.tree == Payload(b.files)
      && if receipts || Now().payload.Some? then ReceiptHolds(Identity(b), receipts) else Now().complete.None?
    }

    /** Verification accepts exactly the finished destinations of an intact bundle, whatever the state is. */
    method VerifyDestination(b: Bundle) returns (r: Result)
      ensures r != Killed && (r.Done? <==> b.intact && Finished(b))
      ensures r.Done? ==> states != [] && Now().data.Some?
      ensures r.Done? ==> forall p ::
                p in Now().data.value.tree <==> p in b.files && (p == [] || p[0] == "staging" || p[0] == "live")
      ensures r.Done? ==> forall p | p in Now().data.value.tree :: Now().data.value.tree[p] == b.files[p]
    {
      PayloadIsBothTrees(b.files);
      return if Verifies(b, true) then Done else Refused;
    }

    // ---------------------------------------------------------- the import

    /** The bound directory under its final name: taken up where an earlier run left it, or copied afresh. */
    method PlaceFiles(b: Bundle) returns (r: Result)
      requires Inv() && b.intact && Now().data.None? && database.source.None?
      modifies `states, `nextInode
      ensures Inv() && Onward() && (calm ==> !r.Killed?)
      ensures r.Refused? ==> !Open(b)
      ensures r.Done? ==> Now().data.Some? && Now().copy.Some? && (old(Now()).copy.None? ==> Now().copy.value.source == Identity(b))
      ensures old(Open(b)) ==> Open(b)
      ensures !old(Whole(Now())) ==> r.Refused? && states == old(states)
    {
      if Now().copy.Some? {
        if !CopyBound(Identity(b), Now().incoming) || Now().incoming.value.tree != Payload(b.files) { return Refused; }
      } else {
        if Now().payload.Some? || Now().complete.Some? { return Refused; }
        r := CopyTree(b.files);
        if !r.Done? { return; }
        if Now().incoming.value.tree != Payload(b.files) { return Refused; }
        r := BindCopy(b);
        if !r.Done? { return; }
      }
      r := RenameIntoPlace();
    }

    /** From files in place to rows in the database. */
    method BringIn(b: Bundle) returns (r: Result)
      requires Inv() && b.intact && database.source.None?
      modifies `states, `nextInode, `database, `inserted
      ensures Inv() && Onward() && (calm ==> !r.Killed?)
      ensures r.Refused? ==> !Open(b)
      ensures r.Done? ==> database.source == Some(Identity(b)) && Steady()
      ensures old(Open(b)) ==> Open(b)
      ensures !old(Whole(Now())) ==> r.Refused? && states == old(states)
    {
      if Now().data.None? {
        r := PlaceFiles(b);
        if !r.Done? { return; }
      }
      if !CopyBound(Identity(b), Now().data) || Now().data.value.tree != Payload(b.files) { return Refused; }
      r := InsertRows(b);
    }

    /** One run of the import. It finishes the work or leaves it for the next run; it is refused exactly when
        something stands in its way. */
    method ImportBundle(b: Bundle) returns (r: Result)
      requires Inv()
      modifies this
      ensures Inv() && Onward() && calm == old(calm)
      ensures calm ==> r == if old(Open(b)) then Done else Refused
      ensures r.Done? ==> Finished(b) && Now().data.Some?
      ensures r.Done? ==> forall p ::
                p in Now().data.value.tree <==> p in b.files && (p == [] || p[0] == "staging" || p[0] == "live")
      ensures r.Done? ==> forall p | p in Now().data.value.tree :: Now().data.value.tree[p] == b.files[p]
      ensures r.Done? ==> forall p | p in Now().data.value.tree && Now().data.value.tree[p].File? ::
                p in Now().payload.value.entries && Now().payload.value.entries[p].File?
                && Now().payload.value.entries[p].bytes == b.files[p].bytes
      ensures r.Done? ==> database.rows == b.rows
      ensures old(Open(b)) ==> Open(b)
      ensures !old(Open(b)) ==> r != Done
      ensures !old(Whole(Now())) ==> r.Refused? && states == old(states) && database == old(database)
      ensures r.Done? && old(Steady()) ==> Steady()
    {
      PayloadIsBothTrees(b.files);
      if !b.intact || !Guarded(Identity(b)) { return Refused; }
      if database.source.None? {
        r := BringIn(b);
        if !r.Done? { return; }
      }
      r := Close(b);
    }

    /** Verification of what is there, then the two receipts. */
    method Close(b: Bundle) returns (r: Result)
      requires Inv() && b.intact && !database.writesStarted && database.source == Some(Identity(b))
      modifies `states
      ensures Inv() && Onward() && (calm ==> !r.Killed?)
      ensures r.Refused? <==> !old(Whole(Now()))
      ensures r.Refused? ==> states == old(states)
      ensures !r.Refused? ==> Whole(Now())
      ensures r.Done? ==> Finished(b)
      ensures r.Done? && old(Steady()) ==> Steady()
    {
      r := Done;
      if !Verifies(b, false) { return Refused; }
      var receipt := Receipt(Binding(Identity(b), Now().data.value.inode), Entries(Payload(b.files)));
      if Now().payload.Some? {
        if Now().payload.value != receipt { return Refused; }
      } else {
        if Now().complete.Some? { return Refused; }
        r := WritePayload(receipt);
        if !r.Done? { return; }
      }
      if !ReceiptHolds(Identity(b), false) { return Refused; }
      if Now().complete.None? { r := WriteComplete(Marker(Identity(b), Now().payload.value)); }
    }

    // ---------------------------------------------------------- after the import

    /** From here on the old store cannot be gone back to. */
    method MarkWritable(source: Identity) returns (r: Result)
      requires Inv()
      modifies `database
      ensures Inv() && (calm ==> !r.Killed?)
      ensures r.Done? ==> old(Finished(source.of)) && database == old(database).(writesStarted := true)
      ensures calm && old(Finished(source.of)) ==> r.Done?
      ensures database == old(database) || (old(Finished(source.of)) && database == old(database).(writesStarted := true))
    {
      if !Guarded(source) || !CopyBound(source, Now().data) || !ReceiptHolds(source, true) { return Refused; }
      var dead := Dies();
      if dead { return Killed; }
      if database.source != Some(source) { return Refused; }
      database := database.(writesStarted := true);
      dead := Dies();
      return if dead then Killed else Done;
    }

    /** The application uses the destination: its files and rows become anything. */
    method ApplicationWrites()
      requires Inv()
      modifies `states, `database
      ensures Inv() && database.source == old(database.source) && database.writesStarted == old(database.writesStarted)
      ensures |states| == |old(states)| && Now().(data := None) == old(Now()).(data := None)
      ensures Medium().(data := None) == old(Medium()).(data := None)
      ensures !database.writesStarted ==> states == old(states) && database == old(database)
    {
      if database.writesStarted {
        var tree: Tree, rows: multiset<Row> := *, *;
        var was := states;
        states := seq(|was|, i requires 0 <= i < |was| && was[i].data.Some? =>
          was[i].(data := Some(was[i].data.value.(tree := tree, synced := false))));
        database := database.(rows := rows);
      }
    }

    // ---------------------------------------------------------- loss of power

    /** Where a loss of power can tear apart what belongs together: the copy's receipt has not reached the medium, or
        neither the payload's receipt nor the completion marker has. */
    predicate Exposed() reads `states {
      states != [] &&
      (Now().copy != Medium().copy || (Now().payload != Medium().payload && Now().complete != Medium().complete))
    }

    /** One outcome of a loss of power. */
    method LosePower(o: Outcome)
      requires Inv() && Possible(o, states, ordered)
      modifies `states
      ensures Inv() && states == [RootBack(o, old(states))]
      ensures Before(old(Medium()), Now()) && Before(Now(), old(Now()))
      ensures old(Whole(Now())) && (ordered || !old(Exposed())) ==> Whole(Now())
      ensures old(Steady()) ==> (Whole(Now()) <==> old(Whole(Now())))
    {
      states := [RootBack(o, states)];
    }

    method PowerLoss()
      requires Inv()
      modifies `states
      ensures Inv() && Steady() && Before(old(Medium()), Now()) && Before(Now(), old(Now()))
      ensures old(Whole(Now())) && (ordered || !old(Exposed())) ==> Whole(Now())
      ensures old(Steady()) ==> (Whole(Now()) <==> old(Whole(Now())))
    {
      assert Possible(Outcome(0, 0, 0, 0, map[]), states, ordered);
      var o :| Possible(o, states, ordered);
      LosePower(o);
    }

    /** On a file system that does not keep the changes of a directory in order, a loss of power can leave a destination
        that can never be finished exactly where it is exposed. */
    lemma TearsIffExposed()
      requires Inv() && Whole(Now())
      ensures (exists o :: Possible(o, states, false) && !Whole(RootBack(o, states))) <==> Exposed()
    {
      var last := |states| - 1;
      if Now().copy != Medium().copy {
        var o := if Now().data.Some? then Outcome(last, 0, 0, 0, map[]) else Outcome(0, last, 0, 0, map[]);
        assert Possible(o, states, false) && !Whole(RootBack(o, states));
      } else if Exposed() {
        var o := Outcome(last, last, 0, last, map[]);
        assert Possible(o, states, false) && !Whole(RootBack(o, states));
      }
    }

    // ---------------------------------------------------------- whole runs

    /** Over a whole run: a copy that is bound on the medium stays bound, the rows are inserted at most once, the boundary
        of writes is never crossed back. */
    twostate predicate Held() reads this {
      && old(states) != [] && states != []
      && (old(Medium()).copy.Some? ==> Medium().copy == old(Medium()).copy)
      && (old(database.source.Some?) ==> database.source == old(database.source) && inserted == old(inserted))
      && (old(database.writesStarted) ==> database.writesStarted)
      && inserted <= 1
    }

    method Do(c: Command) returns (r: Result)
      requires Inv()
      modifies this
      ensures Inv() && Held() && calm == old(calm)
      ensures c.Import? && old(Open(c.b)) ==> Open(c.b)
      ensures c.Import? && !old(Whole(Now())) ==> r == Refused && states == old(states) && database == old(database)
      ensures c.PowerCut? ==> Steady() && database == old(database) && (old(Steady()) ==> (Whole(Now()) <==> old(Whole(Now()))))
      ensures c.PowerCut? ==> forall b | old(Open(b)) && (ordered || !old(Exposed())) :: Open(b)
      ensures old(database.writesStarted) && (c.Import? || c.Verify?) ==> r != Done
    {
      match c {
        case Import(b) => r := ImportBundle(b);
        case Verify(b) => r := VerifyDestination(b);
        case Mark(source) => r := MarkWritable(source);
        case Work => ApplicationWrites(); r := Done;
        case PowerCut => PowerLoss(); r := Done;
      }
    }

    /** Imports of one bundle, and losses of power between their steps. */
    predicate OnlyImports(script: seq<Command>, b: Bundle) { forall c | c in script :: c == Import(b) || c == PowerCut }

    /** The power was lost at a moment when that could tear things apart. */
    predicate Struck(script: seq<Command>, exposed: seq<bool>)
      requires |exposed| == |script|
    {
      exists i | 0 <= i < |script| :: script[i].PowerCut? && exposed[i]
    }

    /** Any run, killed and losing power anywhere; `exposed` says of each command whether the destination was exposed
        before it. */
    method Run(script: seq<Command>) returns (ghost exposed: seq<bool>)
      requires Inv()
      modifies this
      ensures Inv() && Held() && calm == old(calm) && |exposed| == |script|
      ensures forall b | old(Open(b)) && OnlyImports(script, b) && (ordered || !Struck(script, exposed)) :: Open(b)
    {
      exposed := [];
      if script == [] { return; }
      ghost var now := Exposed();
      var _ := Do(script[0]);
      label Mid:
      ghost var rest := Run(script[1..]);
      exposed := [now] + rest;
      forall b | old(Open(b)) && OnlyImports(script, b) && (ordered || !Struck(script, exposed)) ensures Open(b) {
        assert script[0] in script && forall c | c in script[1..] :: c in script;
        assert script[0].PowerCut? ==> !now || ordered by { assert exposed[0] == now; }
        StruckLater(script, exposed);
        assert old@Mid(Open(b));
      }
    }

    lemma StruckLater(script: seq<Command>, exposed: seq<bool>)
      requires |exposed| == |script| > 0
      ensures Struck(script[1..], exposed[1..]) ==> Struck(script, exposed)
    {
      if Struck(script[1..], exposed[1..]) {
        var i :| 0 <= i < |script[1..]| && script[1..][i].PowerCut? && exposed[1..][i];
        assert script[i + 1].PowerCut? && exposed[i + 1];
      }
    }

    /** After any runs at all, one run that is not killed finishes the import of a bundle exactly when nothing
        stands in its way; and nothing does when all runs were of that bundle and no loss of power struck where it
        could tear things apart, as none can on a file system that keeps the changes of a directory in order. */
    method FinishAfter(script: seq<Command>, b: Bundle) returns (r: Result, ghost exposed: seq<bool>)
      requires Inv()
      modifies this
      ensures Inv() && Held() && (r.Done? <==> Finished(b)) && r != Killed && |exposed| == |script|
      ensures old(Open(b)) && OnlyImports(script, b) && (ordered || !Struck(script, exposed)) ==> r == Done && inserted == 1
      ensures database.writesStarted ==> r == Refused
    {
      exposed := Run(script);
      calm := true;
      r := ImportBundle(b);
    }
  }

  // ---------------------------------------------------------------- a loss of power that strikes

  /** An import that is killed between the naming of its copy's receipt and the sync of the root directory. */
  method BindUnsynced(b: Bundle) returns (d: Destination)
    requires b.intact
    ensures fresh(d) && d.Inv() && !d.ordered && d.calm && d.Open(b) && d.database.source.None?
    ensures d.Now().copy.Some? && d.Now().data.None? && d.Medium().copy.None? && d.Exposed()
  {
    d := new Destination(false);
    d.calm := true;
    var r := d.CopyTree(b.files);
    d.Change(d.Now().(copy := Some(Binding(Identity(b), d.Now().incoming.value.inode))));
  }

  /** Power is lost then, the receipt survives and the directory it binds does not: every later import is refused. */
  method TearCopy(b: Bundle, script: seq<Command>) returns (d: Destination, r: Result)
    requires b.intact && forall c | c in script :: c.Import? || c.PowerCut?
    ensures d.Inv() && d.calm && r == Refused && !d.Open(b) && d.database.source.None?
  {
    d := BindUnsynced(b);
    d.LosePower(Outcome(0, |d.states| - 1, 0, 0, map[]));
    r := TornStays(d, script, b);
  }

  /** What has been torn apart stays so: imports and losses of power change nothing. */
  method TornStays(d: Destination, script: seq<Command>, b: Bundle) returns (r: Result)
    requires d.Inv() && d.Steady() && !Whole(d.Now()) && forall c | c in script :: c.Import? || c.PowerCut?
    modifies d
    ensures d.Inv() && r == Refused && d.calm == old(d.calm) && d.database == old(d.database)
    ensures d.Steady() && !Whole(d.Now())
  {
    if script == [] {
      r := d.ImportBundle(b);
    } else {
      var _ := d.Do(script[0]);
      r := TornStays(d, script[1..], b);
    }
  }
}
