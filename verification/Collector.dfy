/** One pass of the collector: it drops what its policy no longer covers, enqueues changed snapshots and uploads
    what is due, keeping count. Whatever the network and the storage do, the pair of spool and server stays safe,
    and the counts it reports are those of the spool. */
module Collector {
  import opened Wrappers
  import opened Spool
  import opened Delivery

  datatype Policy = Policy(digest: string, excludeNative: bool, excludedProfiles: set<string>, maxAttempts: int)

  /** A settled transcript: `fits` when its encoded payload is within the configured limit. */
  datatype Candidate = Candidate(key: SourceKey, digest: RawDigest, origin: Origin, fits: bool)

  datatype Counters = Counters(
    excluded: nat, same: nat, waiting: nat, enqueued: nat, uploaded: nat, uploadFailures: nat, quarantined: nat,
    pending: nat, stopped: nat, conflicts: nat)

  datatype Mark = Mark(sourceKey: SourceKey, status: Status)

  datatype Failure = Failure(code: string, retryable: bool, conflict: bool)

  datatype Reply = Received(requestId: RequestId, revision: nat) | Refused(failure: Failure)

  predicate Admitted(origin: Origin, policy: Policy) {
    match origin
    case NamedYolo(name) => name !in policy.excludedProfiles
    case Native => !policy.excludeNative
    case _ => !policy.excludeNative && policy.excludedProfiles == {}
  }

  /** A named profile leaves the machine unless it is excluded, the default one unless that is, and what is of another or
      of unknown origin only if everything may. */
  lemma AdmissionIs(policy: Policy)
    ensures Admitted(Native, policy) <==> !policy.excludeNative
    ensures forall name: string :: Admitted(NamedYolo(name), policy) <==> name !in policy.excludedProfiles
    ensures Admitted(Unknown, policy) <==> forall o: Origin :: Admitted(o, policy)
    ensures Admitted(Explicit, policy) <==> forall o: Origin :: Admitted(o, policy)
  {
    assert Admitted(Unknown, policy) ==> Admitted(Explicit, policy) && Admitted(Native, policy);
    if policy.excludedProfiles != {} {
      var name :| name in policy.excludedProfiles;
      assert !Admitted(NamedYolo(name), policy);
    }
    if policy.excludeNative { assert !Admitted(Native, policy); }
  }

  /** What an unsuccessful HTTP status means to the collector. */
  function Classify(status: int): (f: Failure)
    ensures f.conflict <==> status == 409
    ensures f.retryable <==> status in {408, 429} || status >= 500
    ensures f.code == "unauthorized" <==> status in {401, 403}
  {
    if status == 409 then Failure("cas-conflict", false, true)
    else if status == 401 || status == 403 then Failure("unauthorized", false, false)
    else if status == 408 || status == 429 || status >= 500 then Failure("http-error", true, false)
    else Failure("protocol-rejected", false, false)
  }

  /** What the collector makes of an exchange that brought no receipt; 0 stands for no answer at all. */
  function Meaning(status: int): (f: Failure)
    ensures f.conflict <==> status == 409
    ensures f.retryable <==> status in {0, 408, 429} || status >= 500
  {
    if status == 0 then Failure("network-failed", true, false) else Classify(status)
  }

  /** Entries are only added. */
  ghost predicate Grew<K, V>(a: map<K, V>, b: map<K, V>) { forall k | k in a :: k in b && b[k] == a[k] }

  class Engine {
    const spool: DurableSpool
    const policy: Policy

    /** The collector's own record of the queue, from which it reports. */
    var queueState: map<RequestId, Mark>
    var counters: Counters

    /** The other side, and the wire between. */
    var server: Server
    var sent: set<Request>
    var answers: set<Answer>
    /** When set, the network loses and garbles nothing. */
    var clear: bool
    /** The source of fresh request ids, with the snapshot behind each. */
    var issued: map<RequestId, Request>
    ghost var enqueued: History
    ghost var acked: History

    constructor (spool: DurableSpool, policy: Policy)
      requires spool.rows == NoRows
      ensures this.spool == spool && this.policy == policy && Ok() && Mirrored() && World() == Initial
    {
      this.spool, this.policy := spool, policy;
      queueState, counters := map[], Counters(0, 0, 0, 0, 0, 0, 0, 0, 0, 0);
      server, sent, answers, clear := Server(map[], map[]), {}, {}, false;
      issued, enqueued, acked := map[], map[], map[];
      new;
      InitialIsSafe();
    }

    ghost function World(): World reads this, spool`rows {
      Delivery.World(spool.rows, server, sent, answers, issued, enqueued, acked)
    }

    ghost predicate Ok() reads this, spool`rows { Safe(World()) }

    /** The collector's record says of every upload what the spool says, and knows no others. */
    ghost predicate Mirrored() reads this, spool`rows { Mirrors(queueState, spool.rows.pending) }

    static ghost predicate Mirrors(marks: map<RequestId, Mark>, pending: map<RequestId, Pending>) {
      && marks.Keys == pending.Keys
      && forall id | id in marks :: marks[id] == Mark(pending[id].sourceKey, pending[id].status)
    }

    static lemma MirrorsOneMore(marks: map<RequestId, Mark>, pending: map<RequestId, Pending>, id: RequestId, p: Pending)
      requires Mirrors(marks, pending)
      ensures Mirrors(marks[id := Mark(p.sourceKey, p.status)], pending[id := p])
    {
    }

    /** Nothing is lost or reordered on the way here. */
    twostate predicate Onward() reads this, spool`rows { Extends(old(World()), World()) }

    // ---------------------------------------------------------- single steps

    method Drop(id: RequestId, reason: string) returns (r: Outcome)
      requires Ok() && Mirrored() && id in spool.rows.pending
      modifies spool`rows, `queueState
      ensures Ok() && Mirrored() && Onward() && spool.Completed(r)
      ensures spool.rows == if r.Done? then DroppedFrom(old(spool.rows), id, reason) else old(spool.rows)
    {
      ghost var w, e := World(), Event.Drop(id, reason);
      StepOnward(w, e);
      r := spool.Drop(id, reason);
      if r.Done? {
        queueState := queueState - {id};
        assert World() == Next(w, e);
      }
    }

    /** The queue entry for a candidate, made for the current head of its source. */
    function Snapshot(id: RequestId, c: Candidate): Pending reads spool`rows {
      var revision := HeadOf(spool.rows, c.key).revision;
      var payload := Request(id, c.key, revision, c.digest);
      Pending(id, c.key, c.digest, payload, Hash(payload), revision, policy.digest, 0, 0, Waiting, None)
    }

    /** The spool has no reason of its own to refuse a snapshot. */
    method Submit(id: RequestId, c: Candidate) returns (r: Outcome)
      requires Ok() && id !in issued && ValidOrigin(c.origin)
      requires !HeadOf(spool.rows, c.key).tombstone && c.key !in spool.rows.bySource
      modifies spool`rows, `issued, `enqueued
      ensures Ok() && Onward() && spool.Completed(r)
      ensures spool.rows == if r.Done? then Enqueued(old(spool.rows), old(Snapshot(id, c)), c.origin) else old(spool.rows)
      ensures issued.Keys == if r.Done? then old(issued).Keys + {id} else old(issued).Keys
    {
      ghost var w := World();
      var entry := Snapshot(id, c);
      IdIsNew(w, id);
      ghost var e := Event.Enqueue(entry, c.origin);
      StepOnward(w, e);
      r := spool.Enqueue(entry, c.origin);
      if r.Done? {
        issued := issued[id := entry.payload];
        enqueued := Grown(enqueued, entry.payload);
        assert World() == Next(w, e);
      } else {
        assert World() == w;
      }
    }

    /** A snapshot joins the queue. */
    method Enqueue(id: RequestId, c: Candidate) returns (r: Outcome)
      requires Ok() && Mirrored() && id !in issued && ValidOrigin(c.origin)
      requires !HeadOf(spool.rows, c.key).tombstone && c.key !in spool.rows.bySource
      modifies spool`rows, `queueState, `issued, `enqueued
      ensures Ok() && Mirrored() && Onward() && spool.Completed(r)
      ensures if r.Done? then Added(old(spool.rows), spool.rows, id, c, policy.digest) else spool.rows == old(spool.rows)
      ensures issued.Keys == if r.Done? then old(issued).Keys + {id} else old(issued).Keys
    {
      hide Safe, Extends, Mirrors, Added;
      var entry := Snapshot(id, c);
      IdIsNew(World(), id);
      r := Submit(id, c);
      if r.Done? {
        EnqueueAddsOne(old(spool.rows), entry, c);
        MirrorsOneMore(queueState, old(spool.rows).pending, id, entry);
        queueState := queueState[id := Mark(c.key, Waiting)];
      }
    }

    /** What was queued still is, and heads are as they were. */
    static ghost predicate QueueGrew(before: Rows, after: Rows) {
      && Grew(before.pending, after.pending) && Grew(before.bySource, after.bySource) && Grew(before.origins, after.origins)
      && after.heads == before.heads
    }

    /** The snapshot of a candidate is in the queue, due at once. */
    static predicate Queued(rows: Rows, c: Candidate) {
      c.key in rows.bySource && rows.bySource[c.key] in rows.pending && rows.bySource[c.key] in rows.origins &&
      var id := rows.bySource[c.key];
      && rows.pending[id].sourceKey == c.key && rows.pending[id].sourceDigest == c.digest
      && rows.pending[id].status == Waiting && rows.pending[id].nextAt == 0 && rows.origins[id].origin == c.origin
    }

    /** One more upload is pending, for this candidate. */
    static ghost predicate Added(before: Rows, after: Rows, id: RequestId, c: Candidate, digest: string) {
      && QueueGrew(before, after) && Queued(after, c) && |after.pending| == |before.pending| + 1
      && after.bySource.Keys == before.bySource.Keys + {c.key} && after.origins.Keys == before.origins.Keys + {id}
      && after.origins[id].origin == c.origin
      && after.pending.Keys == before.pending.Keys + {id}
      && after.pending[id].policyDigest == digest && after.pending[id].attempts == 0
    }

    lemma AddedIs(before: Rows, after: Rows, id: RequestId, c: Candidate)
      requires Added(before, after, id, c, policy.digest)
      ensures QueueGrew(before, after) && Queued(after, c) && |after.pending| == |before.pending| + 1
      ensures after.bySource.Keys == before.bySource.Keys + {c.key} && after.origins.Keys == before.origins.Keys + {id}
      ensures after.origins[id].origin == c.origin
    {
    }

    static lemma EnqueueAddsOne(rows: Rows, entry: Pending, c: Candidate)
      requires entry.requestId !in rows.pending && entry.requestId !in rows.origins && entry.sourceKey !in rows.bySource
      requires entry.sourceKey == c.key && entry.sourceDigest == c.digest && entry.status == Waiting && entry.nextAt == 0
      requires entry.attempts == 0
      ensures Added(rows, Enqueued(rows, entry, c.origin), entry.requestId, c, entry.policyDigest)
    {
      hide Grew;
      var next := Enqueued(rows, entry, c.origin);
      GrewByOne(rows.pending, entry.requestId, entry);
      GrewByOne(rows.bySource, c.key, entry.requestId);
      GrewByOne(rows.origins, entry.requestId, next.origins[entry.requestId]);
    }

    static lemma GrewByOne<K, V>(m: map<K, V>, k: K, v: V)
      requires k !in m
      ensures Grew(m, m[k := v]) && m[k := v].Keys == m.Keys + {k} && |m[k := v]| == |m| + 1
    {
      assert m[k := v].Keys == m.Keys + {k};
    }

    lemma StepOnward(w: World, e: Event)
      requires Safe(w) && Enabled(w, e)
      ensures Safe(Next(w, e)) && Extends(w, Next(w, e))
    {
      StepIsSafe(w, e);
      StepExtends(w, e);
    }

    /** A request reaches the server, now or again. */
    method Arrive(q: Request) returns (a: Answer)
      requires Ok() && q in sent
      modifies `server, `answers
      ensures Ok() && Onward() && a == Accepted(q.requestId, q.expectedRevision + 1) && a in answers
    {
      ghost var w := World();
      StepOnward(w, Deliver(q));
      NeverAConflict(w, q);
      a := AnswerTo(server, q);
      server, answers := Submitted(server, q), answers + {a};
      assert World() == Next(w, Deliver(q));
    }

    /** Sends one payload. Anything sent before may arrive first; this request may arrive or not, and its
        answer may come back, be lost, or be replaced on the way by any status but the server's own 409. */
    method Exchange(id: RequestId) returns (reply: Reply)
      requires Ok() && id in spool.rows.pending
      modifies `server, `answers, `sent
      ensures Ok() && Onward() && sent == old(sent) + {spool.rows.pending[id].payload}
      ensures reply.Received? ==> Accepted(reply.requestId, reply.revision) in answers && reply.requestId == id
      ensures reply.Refused? ==> !clear && exists status | status != 409 :: reply.failure == Meaning(status)
    {
      var q := spool.rows.pending[id].payload;
      StepOnward(World(), Send(id));
      assert PendingOk(spool.rows.pending, id, enqueued, acked);
      ghost var w := World();
      sent := sent + {q};
      assert World() == Next(w, Send(id));
      var early: seq<Request> := *;
      for i := 0 to |early|
        invariant Ok() && Extends(old(World()), World()) && sent == old(sent) + {q}
      {
        if early[i] in sent {
          ghost var before := World();
          var _ := Arrive(early[i]);
          ExtendsIsTransitive(old(World()), before, World());
        }
      }
      var arrives: bool, answered: bool, status: int := *, *, *;
      if clear { arrives, answered := true, true; }
      if arrives {
        ghost var before := World();
        var a := Arrive(q);
        ExtendsIsTransitive(old(World()), before, World());
        if answered { return Received(a.requestId, a.revision); }
      }
      if status == 409 { status := 0; }
      return Refused(Meaning(status));
    }

    // ---------------------------------------------------------- the phases of a pass

    /** The ids of the queue, each once. */
    method Listed(ids: set<RequestId>) returns (list: seq<RequestId>)
      ensures forall id :: id in list <==> id in ids
      ensures forall i, j | 0 <= i < j < |list| :: list[i] != list[j]
    {
      list := [];
      var todo := ids;
      while todo != {}
        invariant todo <= ids && forall id :: id in list <==> id in ids && id !in todo
        invariant forall i, j | 0 <= i < j < |list| :: list[i] != list[j]
        decreases |todo|
      {
        var id :| id in todo;
        list, todo := list + [id], todo - {id};
      }
    }

    method DropIfStale(id: RequestId) returns (r: Outcome)
      requires Ok() && Mirrored() && id in spool.rows.pending
      modifies spool`rows, `queueState, `counters
      ensures Ok() && Mirrored() && Onward() && spool.Completed(r)
      ensures spool.rows.pending == old(spool.rows).pending || spool.rows.pending == old(spool.rows).pending - {id}
      ensures r.Done? && id in spool.rows.pending ==> spool.rows.pending[id].policyDigest == policy.digest
      ensures Kept(old(spool.rows), spool.rows) && QuietKept(old(spool.rows), spool.rows)
      ensures counters == old(counters).(quarantined := counters.quarantined)
      ensures r.Done? ==> counters.quarantined + |spool.rows.pending| == old(counters).quarantined + |old(spool.rows).pending|
    {
      hide Safe, Mirrors, Kept, QuietKept, DroppedFrom;
      r := Done;
      NothingDropped(spool.rows);
      ExtendsItself(World());
      if spool.rows.pending[id].policyDigest != policy.digest {
        PendingIsIndexed(World(), id);
        DropKeepsRest(spool.rows, id, "privacy-or-destination-changed");
        r := Drop(id, "privacy-or-destination-changed");
        if r.Done? { counters := counters.(quarantined := counters.quarantined + 1); }
      }
    }

    /** What of the queue was made under this policy is still there, and all that is there was. */
    ghost predicate Kept(a: Rows, b: Rows) {
      && (forall id | id in a.pending && a.pending[id].policyDigest == policy.digest :: id in b.pending)
      && Grew(b.pending, a.pending) && Grew(b.origins, a.origins)
    }

    lemma DropKeepsRest(rows: Rows, id: RequestId, reason: string)
      requires id in rows.pending && rows.pending[id].sourceKey in rows.bySource
      requires rows.pending[id].policyDigest != policy.digest
      ensures var after := DroppedFrom(rows, id, reason);
              && Kept(rows, after) && QuietKept(rows, after)
              && after.pending == rows.pending - {id} && |after.pending| == |rows.pending| - 1
    {
      OneFewer(rows.pending, id);
    }

    lemma ExtendsItself(w: World)
      ensures Extends(w, w)
    {
    }

    lemma KeptIsTransitive(a: Rows, b: Rows, c: Rows)
      requires Kept(a, b) && Kept(b, c)
      ensures Kept(a, c)
    {
    }

    /** Sources without an upload in the queue are as they were: none is queued, and their heads are the same. */
    static ghost predicate QuietKept(before: Rows, after: Rows) {
      forall key: SourceKey {:trigger Quiet(before, after, key)} | key !in before.bySource :: Quiet(before, after, key)
    }

    static predicate Quiet(before: Rows, after: Rows, key: SourceKey) {
      key !in after.bySource && HeadOf(after, key) == HeadOf(before, key)
    }

    static lemma QuietIsTransitive(a: Rows, b: Rows, c: Rows)
      requires QuietKept(a, b) && QuietKept(b, c)
      ensures QuietKept(a, c)
    {
      forall key: SourceKey | key !in a.bySource ensures Quiet(a, c, key) {
        assert Quiet(a, b, key) && Quiet(b, c, key);
      }
    }

    lemma PendingIsIndexed(w: World, id: RequestId)
      requires Safe(w) && id in w.spool.pending
      ensures w.spool.pending[id].sourceKey in w.spool.bySource && id in w.spool.origins
      ensures w.spool.pending[id].payload.requestId == id
    {
      assert Spool.EntryOk(w.spool, id);
      assert PendingOk(w.spool.pending, id, w.enqueued, w.acked);
    }

    /** Uploads made under another policy or for another destination are dropped, and no others. */
    method DropStale() returns (r: Outcome)
      requires Ok() && Mirrored()
      modifies spool`rows, `queueState, `counters
      ensures Ok() && Mirrored() && Onward() && spool.Completed(r)
      ensures Kept(old(spool.rows), spool.rows)
      ensures r.Done? ==> forall id | id in spool.rows.pending :: spool.rows.pending[id].policyDigest == policy.digest
      ensures QuietKept(old(spool.rows), spool.rows)
      ensures counters == old(counters).(quarantined := counters.quarantined)
      ensures r.Done? ==> counters.quarantined + |spool.rows.pending| == old(counters).quarantined + |old(spool.rows).pending|
    {
      hide Safe, Mirrors, Extends, Kept, QuietKept;
      r := Done;
      var todo := spool.rows.pending.Keys;
      NothingDropped(spool.rows);
      ExtendsItself(World());
      while todo != {}
        invariant Ok() && Mirrored() && Onward() && r.Done?
        invariant Kept(old(spool.rows), spool.rows) && QuietKept(old(spool.rows), spool.rows)
        invariant todo <= spool.rows.pending.Keys
        invariant forall id | id in spool.rows.pending && id !in todo ::
          spool.rows.pending[id].policyDigest == policy.digest
        invariant counters == old(counters).(quarantined := counters.quarantined)
        invariant counters.quarantined + |spool.rows.pending| == old(counters).quarantined + |old(spool.rows).pending|
        decreases |todo|
      {
        var id :| id in todo;
        ghost var before := World();
        r := DropIfStale(id);
        ExtendsIsTransitive(old(World()), before, World());
        QuietIsTransitive(old(spool.rows), before.spool, spool.rows);
        KeptIsTransitive(old(spool.rows), before.spool, spool.rows);
        if !r.Done? { return; }
        todo := todo - {id};
      }
    }

    lemma NothingDropped(rows: Rows)
      ensures Kept(rows, rows) && QuietKept(rows, rows)
    {
    }

    /** What becomes of a candidate: its source is given up, its content is archived, or an upload is pending. */
    static predicate Handled(rows: Rows, c: Candidate) {
      || HeadOf(rows, c.key).tombstone || HeadOf(rows, c.key).digest == Some(c.digest)
      || c.key in rows.bySource || !c.fits
    }

    /** What becomes of a candidate whose source had nothing queued: given up, too large, archived, or now queued. */
    static predicate Offered(rows: Rows, c: Candidate) {
      || HeadOf(rows, c.key).tombstone || !c.fits || Archived(rows, c.key, c.digest) || Queued(rows, c)
    }

    /** This content is what the server has last taken from the source, and nothing is pending for it. */
    static predicate Archived(rows: Rows, key: SourceKey, digest: RawDigest) {
      HeadOf(rows, key).digest == Some(digest) && key !in rows.bySource
    }

    static ghost predicate AllHandled(rows: Rows, candidates: seq<Candidate>) {
      forall i {:trigger Handled(rows, candidates[i])} | 0 <= i < |candidates| :: Handled(rows, candidates[i])
    }

    /** Every candidate whose source had nothing queued is taken care of. */
    static ghost predicate AllOffered(before: Rows, after: Rows, candidates: seq<Candidate>) {
      forall i {:trigger Offered(after, candidates[i])} | 0 <= i < |candidates| && candidates[i].key !in before.bySource ::
        Offered(after, candidates[i])
    }

    static predicate DistinctKeys(candidates: seq<Candidate>) {
      forall i, j | 0 <= i < j < |candidates| :: candidates[i].key != candidates[j].key
    }

    /** Only sources of the candidates have anything newly queued. */
    static ghost predicate OnlyOffered(before: Rows, after: Rows, candidates: seq<Candidate>) {
      forall key | key in after.bySource && key !in before.bySource :: exists i :: 0 <= i < |candidates| && candidates[i].key == key
    }

    /** Where a queued upload's origin comes from. */
    static predicate KnownOrigin(before: Rows, after: Rows, candidates: seq<Candidate>, ids: seq<RequestId>, id: RequestId)
      requires |ids| == |candidates| && id in after.origins
    {
      || (id in before.origins && after.origins[id] == before.origins[id])
      || exists i :: 0 <= i < |ids| && ids[i] == id && candidates[i].origin == after.origins[id].origin
    }

    static ghost predicate KnownOrigins(before: Rows, after: Rows, candidates: seq<Candidate>, ids: seq<RequestId>)
      requires |ids| == |candidates|
    {
      forall id {:trigger KnownOrigin(before, after, candidates, ids, id)} | id in after.origins ::
        KnownOrigin(before, after, candidates, ids, id)
    }

    /** What was handled stays so while heads are left alone and nothing leaves the queue. */
    static lemma HandledGrows(before: Rows, after: Rows, candidates: seq<Candidate>)
      requires candidates != [] && Handled(before, candidates[0]) && AllHandled(after, candidates[1..])
      requires QueueGrew(before, after)
      ensures AllHandled(after, candidates)
    {
      forall i | 0 <= i < |candidates| ensures Handled(after, candidates[i]) {
        if i > 0 { assert Handled(after, candidates[1..][i - 1]); }
      }
    }

    /** What became of the first candidate, or `a` to `b`, and of the others, `b` to `c`. */
    static lemma OfferedGrows(a: Rows, b: Rows, c: Rows, candidates: seq<Candidate>)
      requires candidates != [] && DistinctKeys(candidates)
      requires candidates[0].key !in a.bySource ==> Offered(b, candidates[0])
      requires QueueGrew(a, b) && QueueGrew(b, c) && b.bySource.Keys <= a.bySource.Keys + {candidates[0].key}
      requires AllOffered(b, c, candidates[1..]) && OnlyOffered(b, c, candidates[1..])
      ensures AllOffered(a, c, candidates) && OnlyOffered(a, c, candidates) && QueueGrew(a, c)
    {
      forall i | 0 <= i < |candidates| && candidates[i].key !in a.bySource ensures Offered(c, candidates[i]) {
        if i > 0 {
          assert candidates[1..][i - 1] == candidates[i];
          assert Offered(c, candidates[1..][i - 1]);
        }
      }
      forall key | key in c.bySource && key !in a.bySource ensures exists i :: 0 <= i < |candidates| && candidates[i].key == key {
        if key in b.bySource {
          assert candidates[0].key == key;
        } else {
          var j :| 0 <= j < |candidates[1..]| && candidates[1..][j].key == key;
          assert candidates[j + 1].key == key;
        }
      }
    }

    static lemma OriginsAreKnown(a: Rows, b: Rows, c: Rows, candidates: seq<Candidate>, ids: seq<RequestId>)
      requires candidates != [] && |ids| == |candidates| && QueueGrew(a, b) && QueueGrew(b, c)
      requires b.origins.Keys <= a.origins.Keys + {ids[0]}
      requires ids[0] in b.origins && ids[0] !in a.origins ==> b.origins[ids[0]].origin == candidates[0].origin
      requires KnownOrigins(b, c, candidates[1..], ids[1..])
      ensures KnownOrigins(a, c, candidates, ids) && QueueGrew(a, c)
    {
      forall id | id in c.origins ensures KnownOrigin(a, c, candidates, ids, id) {
        assert KnownOrigin(b, c, candidates[1..], ids[1..], id);
        if !(id in b.origins && c.origins[id] == b.origins[id]) {
          var j :| 0 <= j < |ids[1..]| && ids[1..][j] == id && candidates[1..][j].origin == c.origins[id].origin;
          assert ids[j + 1] == id && candidates[j + 1].origin == c.origins[id].origin;
        } else if id !in a.origins {
          assert ids[0] == id;
        }
      }
    }

    /** How many candidates have been counted, one way or another. */
    static function Counted(c: Counters): nat { c.excluded + c.same + c.waiting + c.enqueued + c.quarantined }

    /** One candidate; `queued` are the sources with an upload pending since before the pass. */
    method Consider(c: Candidate, id: RequestId, queued: set<SourceKey>) returns (r: Outcome)
      requires Ok() && Mirrored() && id !in issued && ValidOrigin(c.origin)
      requires c.key in queued <==> c.key in spool.rows.bySource
      modifies spool`rows, `queueState, `issued, `enqueued, `counters
      ensures Ok() && Mirrored() && Onward() && spool.Completed(r)
      ensures issued.Keys <= old(issued).Keys + {id}
      ensures if counters.enqueued == old(counters).enqueued then spool.rows == old(spool.rows)
              else r.Done? && Added(old(spool.rows), spool.rows, id, c, policy.digest) && counters.enqueued == old(counters).enqueued + 1
      ensures counters == old(counters).(excluded := counters.excluded, same := counters.same, waiting := counters.waiting,
                                         enqueued := counters.enqueued, quarantined := counters.quarantined)
      ensures r.Done? ==> Handled(spool.rows, c) && Counted(counters) == Counted(old(counters)) + 1
      ensures r.Done? && c.key !in old(spool.rows).bySource ==> Offered(spool.rows, c)
      ensures r.Done? && HeadOf(spool.rows, c.key).tombstone ==> counters.excluded == old(counters).excluded + 1
      ensures r.Done? && counters.waiting > old(counters).waiting ==> c.key in old(spool.rows).bySource
      ensures r.Done? && counters.quarantined > old(counters).quarantined ==> !c.fits
    {
      hide Safe;
      r := Done;
      var head := HeadOf(spool.rows, c.key);
      if head.tombstone {
        counters := counters.(excluded := counters.excluded + 1);
      } else if head.digest == Some(c.digest) {
        counters := counters.(same := counters.same + 1);
      } else if c.key in queued {
        counters := counters.(waiting := counters.waiting + 1);
      } else if !c.fits {
        counters := counters.(quarantined := counters.quarantined + 1);
      } else {
        r := Enqueue(id, c);
        if r.Done? { counters := counters.(enqueued := counters.enqueued + 1); }
      }
    }

    /** Each source has one candidate, each candidate an id of its own that is fresh. */
    predicate Offer(candidates: seq<Candidate>, ids: seq<RequestId>) reads `issued {
      && |ids| == |candidates| && DistinctKeys(candidates)
      && (forall i, j | 0 <= i < j < |ids| :: ids[i] != ids[j])
      && (forall i | 0 <= i < |ids| :: ids[i] !in issued)
      && (forall i | 0 <= i < |candidates| :: ValidOrigin(candidates[i].origin))
    }

    static lemma KnownAlready(rows: Rows, candidates: seq<Candidate>, ids: seq<RequestId>)
      requires |ids| == |candidates|
      ensures QueueGrew(rows, rows) && KnownOrigins(rows, rows, candidates, ids)
    {
    }

    /** The end of enqueueing: no candidates are left. */
    static lemma NoneOffered(rows: Rows)
      ensures QueueGrew(rows, rows) && AllHandled(rows, []) && AllOffered(rows, rows, []) && OnlyOffered(rows, rows, [])
      ensures KnownOrigins(rows, rows, [], [])
    {
      forall id | id in rows.origins ensures KnownOrigin(rows, rows, [], [], id) {
      }
    }

    /** What is newly queued has an id of a candidate and is made under this policy. */
    ghost predicate NewlyQueued(before: Rows, after: Rows, ids: seq<RequestId>) {
      forall id | id in after.pending ::
        (id in before.pending && after.pending[id] == before.pending[id])
        || (id in ids && after.pending[id].policyDigest == policy.digest)
    }

    lemma NothingNewlyQueued(rows: Rows, ids: seq<RequestId>)
      ensures NewlyQueued(rows, rows, ids)
    {
    }

    lemma AddedIsNewlyQueued(before: Rows, after: Rows, c: Candidate, ids: seq<RequestId>)
      requires ids != [] && (after == before || Added(before, after, ids[0], c, policy.digest))
      ensures NewlyQueued(before, after, ids)
    {
    }

    lemma NewlyQueuedOn(a: Rows, b: Rows, c: Rows, ids: seq<RequestId>)
      requires ids != [] && NewlyQueued(a, b, ids) && NewlyQueued(b, c, ids[1..])
      ensures NewlyQueued(a, c, ids)
    {
    }

    lemma NewlyQueuedIsCurrent(before: Rows, after: Rows, ids: seq<RequestId>)
      requires NewlyQueued(before, after, ids)
      ensures AllCurrent(before) ==> AllCurrent(after)
      ensures forall id | id in after.pending :: id in before.pending || id in ids
    {
    }

    /** Enqueues what has changed, each candidate in turn. */
    method EnqueueChanged(candidates: seq<Candidate>, ids: seq<RequestId>, queued: set<SourceKey>) returns (r: Outcome)
      requires Ok() && Mirrored() && Offer(candidates, ids)
      requires forall i | 0 <= i < |candidates| :: candidates[i].key in queued <==> candidates[i].key in spool.rows.bySource
      modifies spool`rows, `queueState, `issued, `enqueued, `counters
      ensures Ok() && Mirrored() && Onward() && spool.Completed(r)
      ensures QueueGrew(old(spool.rows), spool.rows) && KnownOrigins(old(spool.rows), spool.rows, candidates, ids)
      ensures NewlyQueued(old(spool.rows), spool.rows, ids)
      ensures r.Done? ==> AllHandled(spool.rows, candidates) && Counted(counters) == Counted(old(counters)) + |candidates|
      ensures r.Done? ==> AllOffered(old(spool.rows), spool.rows, candidates) && OnlyOffered(old(spool.rows), spool.rows, candidates)
      ensures r.Done? ==> counters.enqueued - old(counters).enqueued == |spool.rows.pending| - |old(spool.rows).pending|
      ensures counters == old(counters).(excluded := counters.excluded, same := counters.same, waiting := counters.waiting,
                                         enqueued := counters.enqueued, quarantined := counters.quarantined)
      decreases |candidates|
    {
      hide Safe, Extends, Mirrors, Queued, Offered, Handled, Grew, KnownOrigins, Counted, HeadOf, AllHandled, AllOffered, OnlyOffered, NewlyQueued, Added;
      r := Done;
      if candidates == [] {
        NoneOffered(spool.rows);
        KnownAlready(spool.rows, candidates, ids);
        NothingNewlyQueued(spool.rows, ids);
        ExtendsItself(World());
        return;
      }
      r := Consider(candidates[0], ids[0], queued);
      ghost var before := World();
      AddedIsNewlyQueued(old(spool.rows), spool.rows, candidates[0], ids);
      if counters.enqueued != old(counters).enqueued { AddedIs(old(spool.rows), spool.rows, ids[0], candidates[0]); }
      if !r.Done? {
        KnownAlready(spool.rows, candidates, ids);
        return;
      }
      r := EnqueueChanged(candidates[1..], ids[1..], queued);
      ExtendsIsTransitive(old(World()), before, World());
      OriginsAreKnown(old(spool.rows), before.spool, spool.rows, candidates, ids);
      NewlyQueuedOn(old(spool.rows), before.spool, spool.rows, ids);
      if r.Done? {
        HandledGrows(before.spool, spool.rows, candidates);
        OfferedGrows(old(spool.rows), before.spool, spool.rows, candidates);
      }
    }

    lemma SourcesAreIndexed()
      requires Ok() && Mirrored()
      ensures forall key :: key in (set id | id in queueState :: queueState[id].sourceKey) <==> key in spool.rows.bySource
    {
      var keys := set id | id in queueState :: queueState[id].sourceKey;
      forall key ensures key in keys <==> key in spool.rows.bySource {
        if key in keys {
          var id :| id in queueState && queueState[id].sourceKey == key;
          assert Spool.EntryOk(spool.rows, id);
        }
        if key in spool.rows.bySource {
          assert spool.rows.bySource[key] in queueState && queueState[spool.rows.bySource[key]].sourceKey == key;
        }
      }
    }

    // ---------------------------------------------------------- uploading

    /** A receipt was taken: the snapshot is acknowledged and the head moves on to it. */
    static predicate GotThrough(before: Rows, after: Rows, id: RequestId) {
      id in before.pending && after == Acked(before, id, before.pending[id].expectedRevision + 1)
    }

    /** A failure was noted: one attempt more, still waiting or stopped, and nothing else. */
    static predicate HeldBack(before: Rows, after: Rows, id: RequestId, nextAt: int, maxAttempts: int) {
      && id in before.pending && id in after.pending
      && after == Failed(before, id, (if after.pending[id].error.Some? then after.pending[id].error.value else ""), nextAt,
                         false, maxAttempts)
    }

    /** One attempt more is noted with its error and the time of the next; the upload waits or is stopped, and all else
        is as it was. */
    static predicate NotedFailure(before: Rows, after: Rows, id: RequestId, nextAt: int) {
      && id in before.pending && id in after.pending && after == before.(pending := before.pending[id := after.pending[id]])
      && SameUpload(before.pending[id], after.pending[id]) && after.pending[id].attempts == before.pending[id].attempts + 1
      && after.pending[id].nextAt == nextAt && after.pending[id].error.Some? && after.pending[id].status in {Waiting, Stopped}
    }

    /** The spool takes a receipt that has come back for a pending upload, unless its storage fails. */
    method Confirm(id: RequestId, revision: nat) returns (r: Outcome)
      requires Ok() && Mirrored() && id in spool.rows.pending && Accepted(id, revision) in answers
      modifies spool`rows, `queueState, `acked
      ensures Ok() && Mirrored() && Onward() && spool.Completed(r)
      ensures if r.Done? then GotThrough(old(spool.rows), spool.rows, id) else World() == old(World())
    {
      ghost var w := World();
      ReceiptIsForPending(w, id, revision);
      ghost var e := Event.Confirm(id, revision);
      StepOnward(w, e);
      ghost var payload := spool.rows.pending[id].payload;
      r := spool.Ack(id, revision);
      if r.Done? {
        queueState := queueState - {id};
        acked := Grown(acked, payload);
        assert World() == Next(w, e);
      } else {
        assert World() == w;
      }
    }

    method Fail(id: RequestId, failure: Failure, nextAt: int) returns (r: Outcome)
      requires Ok() && Mirrored() && id in spool.rows.pending && !failure.conflict
      modifies spool`rows, `queueState
      ensures Ok() && Mirrored() && Onward() && spool.Completed(r)
      ensures if r.Done? then HeldBack(old(spool.rows), spool.rows, id, nextAt, if failure.retryable then policy.maxAttempts else 1)
                              && spool.rows.pending[id].error == Some(failure.code)
              else World() == old(World())
    {
      ghost var w := World();
      var most := if failure.retryable then policy.maxAttempts else 1;
      ghost var e := Event.Fail(id, failure.code, nextAt, failure.conflict, most);
      StepOnward(w, e);
      var status: Status;
      r, status := spool.Fail(id, failure.code, nextAt, failure.conflict, most);
      if r.Done? {
        queueState := queueState[id := Mark(queueState[id].sourceKey, status)];
        assert World() == Next(w, e);
      } else {
        assert World() == w;
      }
    }

    /** How often a failed upload may be tried in all. */
    function Most(failure: Failure): int { if failure.retryable then policy.maxAttempts else 1 }

    /** What a reply means for the queue: acknowledged, or rescheduled as often as its kind of failure allows. A
        storage failure while the receipt is taken is a failed upload too. */
    method Conclude(id: RequestId, reply: Reply, nextAt: int) returns (r: Outcome, through: bool)
      requires Ok() && Mirrored() && id in spool.rows.pending
      requires reply.Received? ==> Accepted(id, reply.revision) in answers
      requires reply.Refused? ==> !reply.failure.conflict
      modifies spool`rows, `queueState, `acked
      ensures Ok() && Mirrored() && Onward() && spool.Completed(r)
      ensures r.Done? && through ==> reply.Received? && GotThrough(old(spool.rows), spool.rows, id)
      ensures r.Done? && !through ==>
                HeldBack(old(spool.rows), spool.rows, id, nextAt, if reply.Refused? then Most(reply.failure) else 1)
      ensures r.Done? && !through ==> NotedFailure(old(spool.rows), spool.rows, id, nextAt)
      ensures r.Done? && !through && reply.Refused? && reply.failure.retryable ==>
                (spool.rows.pending[id].status == Stopped <==> spool.rows.pending[id].attempts >= policy.maxAttempts)
      ensures r.Done? && !through && !(reply.Refused? && reply.failure.retryable) ==> spool.rows.pending[id].status == Stopped
      ensures r.Done? && reply.Refused? ==> !through && spool.rows.pending[id].error == Some(reply.failure.code)
      ensures !r.Done? ==> spool.rows == old(spool.rows)
      ensures spool.reliable && reply.Received? ==> through
    {
      hide Safe;
      through := false;
      if reply.Received? {
        r := Confirm(id, reply.revision);
        if r.Done? { return r, true; }
        r := Fail(id, Failure("upload-failed", false, false), nextAt);
      } else {
        r := Fail(id, reply.failure, nextAt);
      }
    }

    predicate Delayed(before: Rows, after: Rows, id: RequestId, nextAt: int) {
      HeldBack(before, after, id, nextAt, policy.maxAttempts) || HeldBack(before, after, id, nextAt, 1)
    }

    /** Without disturbance an upload gets through. */
    predicate Undisturbed() reads `clear, spool`reliable { clear && spool.reliable }

    /** One upload. */
    method Upload(id: RequestId, nextAt: int) returns (r: Outcome, through: bool)
      requires Ok() && Mirrored() && id in spool.rows.pending
      modifies spool`rows, `queueState, `server, `answers, `sent, `acked
      ensures Ok() && Mirrored() && Onward() && spool.Completed(r)
      ensures r.Done? ==> if through then GotThrough(old(spool.rows), spool.rows, id)
                          else Delayed(old(spool.rows), spool.rows, id, nextAt)
      ensures !r.Done? ==> spool.rows == old(spool.rows)
      ensures sent == old(sent) + {old(spool.rows).pending[id].payload}
      ensures Undisturbed() ==> r.Done? && through
    {
      hide Safe, Extends;
      var reply := Exchange(id);
      ghost var replied := World();
      r, through := Conclude(id, reply, nextAt);
      ExtendsIsTransitive(old(World()), replied, World());
    }

    /** What is due now and may leave the machine. */
    predicate Due(p: Pending, origin: Origin, now: int) {
      p.status == Waiting && p.nextAt <= now && Admitted(origin, policy)
    }

    ghost predicate IsDue(rows: Rows, id: RequestId, now: int) {
      id in rows.pending && id in rows.origins && Due(rows.pending[id], rows.origins[id].origin, now)
    }

    /** Of the queue, only the one upload has changed: it is gone, or only its schedule is different. */
    static ghost predicate OneTouched(before: Rows, after: Rows, id: RequestId) {
      && id in before.pending && after.pending - {id} == before.pending - {id}
      && (id in after.pending ==> SameUpload(before.pending[id], after.pending[id]))
      && QuietKept(before, after)
    }

    /** Of the queue, only the given uploads have changed. */
    static ghost predicate OnlyTouched(before: Rows, after: Rows, ids: set<RequestId>) {
      && after.pending.Keys <= before.pending.Keys && after.pending - ids == before.pending - ids
      && (forall id {:trigger SameUpload(before.pending[id], after.pending[id])} | id in after.pending ::
            SameUpload(before.pending[id], after.pending[id]))
      && QuietKept(before, after)
    }

    /** The upload has been tried once more: it is gone, or one attempt more is noted, and it waits for another only if
        the policy allows that many. */
    predicate Tried(before: Rows, after: Rows, id: RequestId) {
      id in before.pending &&
      (id in after.pending ==>
         && after.pending[id].attempts == before.pending[id].attempts + 1
         && (after.pending[id].status == Waiting ==> after.pending[id].attempts < policy.maxAttempts))
    }

    ghost predicate AllTried(before: Rows, after: Rows, ids: set<RequestId>) {
      forall id {:trigger Tried(before, after, id)} | id in ids :: Tried(before, after, id)
    }

    /** The upload got through, and its content is the last that its source has on the server. */
    static predicate Cleared(before: Rows, after: Rows, id: RequestId) {
      id in before.pending && Archived(after, before.pending[id].sourceKey, before.pending[id].sourceDigest)
    }

    static ghost predicate AllCleared(before: Rows, after: Rows, ids: set<RequestId>) {
      forall id {:trigger Cleared(before, after, id)} | id in ids :: Cleared(before, after, id)
    }

    /** The payloads of some of the queue. */
    static function Payloads(rows: Rows, ids: set<RequestId>): set<Request> {
      set id | id in ids && id in rows.pending :: rows.pending[id].payload
    }

    static lemma PayloadsOfOthers(a: Rows, b: Rows, id: RequestId, ids: set<RequestId>)
      requires OneTouched(a, b, id) && id in ids
      ensures {a.pending[id].payload} + Payloads(b, ids - {id}) <= Payloads(a, ids)
    {
      forall q | q in Payloads(b, ids - {id}) ensures q in Payloads(a, ids) {
        var other :| other in ids - {id} && other in b.pending && b.pending[other].payload == q;
        assert (b.pending - {id})[other] == (a.pending - {id})[other];
      }
    }

    lemma TriedOneByOne(a: Rows, b: Rows, c: Rows, id: RequestId, ids: set<RequestId>)
      requires OneTouched(a, b, id) && Tried(a, b, id) && id in ids
      requires OnlyTouched(b, c, ids - {id}) && AllTried(b, c, ids - {id})
      ensures AllTried(a, c, ids)
    {
      forall other | other in ids ensures Tried(a, c, other) {
        if other == id {
          if id in c.pending { assert (c.pending - (ids - {id}))[id] == (b.pending - (ids - {id}))[id]; }
        } else {
          assert Tried(b, c, other);
          assert (b.pending - {id})[other] == (a.pending - {id})[other];
        }
      }
    }

    static lemma ClearedOneByOne(a: Rows, b: Rows, c: Rows, id: RequestId, ids: set<RequestId>)
      requires OneTouched(a, b, id) && Cleared(a, b, id) && id in ids
      requires OnlyTouched(b, c, ids - {id}) && AllCleared(b, c, ids - {id})
      ensures AllCleared(a, c, ids)
    {
      forall other | other in ids ensures Cleared(a, c, other) {
        if other == id {
          assert Quiet(b, c, a.pending[id].sourceKey);
        } else {
          assert Cleared(b, c, other);
          assert (b.pending - {id})[other] == (a.pending - {id})[other];
        }
      }
    }

    static lemma TouchedOneByOne(a: Rows, b: Rows, c: Rows, id: RequestId, ids: set<RequestId>)
      requires OneTouched(a, b, id) && OnlyTouched(b, c, ids - {id}) && id in ids
      ensures OnlyTouched(a, c, ids)
    {
      assert b.pending.Keys <= a.pending.Keys by {
        forall other | other in b.pending ensures other in a.pending {
          if other != id { assert other in b.pending - {id}; }
        }
      }
      forall other | other in c.pending ensures SameUpload(a.pending[other], c.pending[other]) {
        assert SameUpload(b.pending[other], c.pending[other]);
        if other != id { assert (b.pending - {id})[other] == (a.pending - {id})[other]; }
      }
      assert a.pending - ids == (a.pending - {id}) - (ids - {id});
      assert c.pending - ids == (c.pending - (ids - {id})) - {id} == (b.pending - (ids - {id})) - {id};
      assert (b.pending - (ids - {id})) - {id} == (b.pending - {id}) - (ids - {id});
      QuietIsTransitive(a, b, c);
    }

    lemma ThroughTouchesOne(before: Rows, after: Rows, id: RequestId)
      requires GotThrough(before, after, id) && before.pending[id].sourceKey in before.bySource
      ensures OneTouched(before, after, id) && |after.pending| == |before.pending| - 1
      ensures Tried(before, after, id) && Cleared(before, after, id)
    {
      assert after.pending == before.pending - {id};
      OneFewer(before.pending, id);
    }

    static lemma OneFewer(pending: map<RequestId, Pending>, id: RequestId)
      requires id in pending
      ensures |pending - {id}| == |pending| - 1
      ensures (pending - {id}) - {id} == pending - {id}
    {
      assert (pending - {id}).Keys == pending.Keys - {id};
    }

    lemma DelayTouchesOne(before: Rows, after: Rows, id: RequestId, nextAt: int, maxAttempts: int)
      requires HeldBack(before, after, id, nextAt, maxAttempts) && maxAttempts in {1, policy.maxAttempts}
      ensures OneTouched(before, after, id) && |after.pending| == |before.pending| && Tried(before, after, id)
    {
      assert after.pending.Keys == before.pending.Keys;
      QuietWhenSame(before, after);
    }

    static lemma QuietWhenSame(before: Rows, after: Rows)
      requires after.heads == before.heads && after.bySource == before.bySource
      ensures QuietKept(before, after)
    {
    }

    /** Uploads one entry of the queue and counts it. */
    method UploadOne(id: RequestId, nextAt: int) returns (r: Outcome)
      requires Ok() && Mirrored() && id in spool.rows.pending
      modifies spool`rows, `queueState, `counters, `server, `answers, `sent, `acked
      ensures Ok() && Mirrored() && Onward() && spool.Completed(r)
      ensures OneTouched(old(spool.rows), spool.rows, id) && (r.Done? ==> Tried(old(spool.rows), spool.rows, id))
      ensures sent == old(sent) + {old(spool.rows).pending[id].payload}
      ensures r.Done? ==> counters.uploaded - old(counters).uploaded == |old(spool.rows).pending| - |spool.rows.pending|
      ensures r.Done? ==>
                counters.uploaded + counters.uploadFailures == old(counters).uploaded + old(counters).uploadFailures + 1
      ensures counters == old(counters).(uploaded := counters.uploaded, uploadFailures := counters.uploadFailures)
      ensures Undisturbed() ==> Cleared(old(spool.rows), spool.rows, id)
    {
      hide Safe, Extends, GotThrough, Delayed;
      PendingIsIndexed(World(), id);
      QuietWhenSame(spool.rows, spool.rows);
      var through: bool;
      r, through := Upload(id, nextAt);
      if r.Done? {
        Touched(old(spool.rows), spool.rows, id, nextAt, through);
        counters := if through then counters.(uploaded := counters.uploaded + 1)
                    else counters.(uploadFailures := counters.uploadFailures + 1);
      }
    }

    lemma Touched(before: Rows, after: Rows, id: RequestId, nextAt: int, through: bool)
      requires if through then GotThrough(before, after, id) else Delayed(before, after, id, nextAt)
      requires id in before.pending && before.pending[id].sourceKey in before.bySource
      ensures OneTouched(before, after, id) && Tried(before, after, id)
      ensures |after.pending| == if through then |before.pending| - 1 else |before.pending|
      ensures through ==> Cleared(before, after, id)
    {
      if through {
        ThroughTouchesOne(before, after, id);
      } else {
        DelayTouchesOne(before, after, id, nextAt, if HeldBack(before, after, id, nextAt, 1) then 1 else policy.maxAttempts);
      }
    }

    /** Uploads each of `due` once. The others in the queue are left alone, nothing is enqueued, and nothing else is
        sent. Undisturbed, each gets through. */
    method UploadAll(due: set<RequestId>, now: int) returns (r: Outcome)
      requires Ok() && Mirrored() && due <= spool.rows.pending.Keys
      modifies spool`rows, `queueState, `counters, `server, `answers, `sent, `acked
      ensures Ok() && Mirrored() && Onward() && spool.Completed(r)
      ensures OnlyTouched(old(spool.rows), spool.rows, due) && (r.Done? ==> AllTried(old(spool.rows), spool.rows, due))
      ensures sent <= old(sent) + Payloads(old(spool.rows), due)
      ensures r.Done? ==> counters.uploaded - old(counters).uploaded == |old(spool.rows).pending| - |spool.rows.pending|
      ensures r.Done? ==> counters.uploaded + counters.uploadFailures ==
                            old(counters).uploaded + old(counters).uploadFailures + |due|
      ensures counters == old(counters).(uploaded := counters.uploaded, uploadFailures := counters.uploadFailures)
      ensures Undisturbed() ==> AllCleared(old(spool.rows), spool.rows, due)
      decreases |due|
    {
      hide Safe, Mirrors, OneTouched, OnlyTouched, Tried, Cleared, AllTried, AllCleared, Payloads;
      r := Done;
      if due == {} {
        NoneTouched(spool.rows, due);
        return;
      }
      var id :| id in due;
      var backoff: int := *;
      r := UploadOne(id, now + backoff);
      ghost var before := World();
      PayloadsOfOthers(old(spool.rows), before.spool, id, due);
      if !r.Done? {
        NoneTouched(before.spool, due - {id});
        TouchedOneByOne(old(spool.rows), before.spool, before.spool, id, due);
        return;
      }
      OthersArePending(old(spool.rows), before.spool, id, due);
      r := UploadAll(due - {id}, now);
      TouchedOneByOne(old(spool.rows), before.spool, spool.rows, id, due);
      if r.Done? { TriedOneByOne(old(spool.rows), before.spool, spool.rows, id, due); }
      if Undisturbed() { ClearedOneByOne(old(spool.rows), before.spool, spool.rows, id, due); }
      ExtendsIsTransitive(old(World()), before, World());
    }

    lemma NoneTouched(rows: Rows, ids: set<RequestId>)
      ensures OnlyTouched(rows, rows, ids) && AllTried(rows, rows, {}) && AllCleared(rows, rows, {})
    {
    }

    static lemma OthersArePending(a: Rows, b: Rows, id: RequestId, ids: set<RequestId>)
      requires OneTouched(a, b, id) && ids <= a.pending.Keys
      ensures ids - {id} <= b.pending.Keys
    {
      forall other | other in ids - {id} ensures other in b.pending {
        assert other in a.pending - {id};
      }
    }

    // ---------------------------------------------------------- the whole pass

    static function WithStatus(pending: map<RequestId, Pending>, status: Status): set<RequestId> {
      set id | id in pending && pending[id].status == status
    }

    /** The counts that are reported add up to the queue, and no upload is in conflict. */
    ghost predicate CountsAreTrue() reads `counters, spool`rows {
      && counters.pending == |WithStatus(spool.rows.pending, Waiting)|
      && counters.stopped == |WithStatus(spool.rows.pending, Stopped)|
      && counters.conflicts == 0
      && counters.pending + counters.stopped == |spool.rows.pending|
    }

    static lemma StatusesPartition(pending: map<RequestId, Pending>)
      requires forall id | id in pending :: pending[id].status != Conflicting
      ensures |WithStatus(pending, Waiting)| + |WithStatus(pending, Stopped)| == |pending|
      ensures WithStatus(pending, Conflicting) == {}
    {
      assert WithStatus(pending, Waiting) + WithStatus(pending, Stopped) == pending.Keys;
    }

    lemma NoneConflicts()
      requires Ok()
      ensures forall id | id in spool.rows.pending :: spool.rows.pending[id].status != Conflicting
    {
      forall id | id in spool.rows.pending ensures spool.rows.pending[id].status != Conflicting {
        assert PendingOk(spool.rows.pending, id, enqueued, acked);
      }
    }

    /** How many marks of the record have the status: as many as entries of the queue. */
    method Count(status: Status) returns (n: nat)
      requires Mirrored()
      ensures n == |WithStatus(spool.rows.pending, status)|
    {
      var marked := set id | id in queueState && queueState[id].status == status;
      assert marked == WithStatus(spool.rows.pending, status);
      n := |marked|;
    }

    method CountQueue()
      requires Ok() && Mirrored()
      modifies `counters
      ensures Ok() && Mirrored() && World() == old(World()) && CountsAreTrue()
      ensures counters == old(counters).(pending := counters.pending, stopped := counters.stopped, conflicts := 0)
    {
      NoneConflicts();
      StatusesPartition(spool.rows.pending);
      var waiting := Count(Waiting);
      var stopped := Count(Stopped);
      var conflicts := Count(Conflicting);
      counters := counters.(pending := waiting, stopped := stopped, conflicts := conflicts);
    }

    /** The record is rebuilt from the spool at the start of a pass, also after one that was cut short. */
    method Begin()
      requires Ok()
      modifies `queueState, `counters
      ensures Ok() && Mirrored() && World() == old(World())
      ensures counters == Counters(0, 0, 0, 0, 0, 0, 0, 0, 0, 0)
    {
      counters := Counters(0, 0, 0, 0, 0, 0, 0, 0, 0, 0);
      queueState := map id | id in spool.rows.pending :: Mark(spool.rows.pending[id].sourceKey, spool.rows.pending[id].status);
    }

    /** What is due of the queue. */
    ghost function DueIn(rows: Rows, now: int): set<RequestId> { set id | id in rows.pending && IsDue(rows, id, now) }

    /** A request whose snapshot has an origin that the policy admits, and is due, neither stopped nor to be tried
        later, or is of a candidate. */
    predicate Permitted(rows: Rows, candidates: seq<Candidate>, ids: seq<RequestId>, now: int, q: Request)
      requires |ids| == |candidates|
    {
      || (&& q.requestId in rows.pending && rows.pending[q.requestId].payload == q
          && rows.pending[q.requestId].status == Waiting && rows.pending[q.requestId].nextAt <= now
          && q.requestId in rows.origins && Admitted(rows.origins[q.requestId].origin, policy))
      || exists i :: 0 <= i < |ids| && ids[i] == q.requestId && Admitted(candidates[i].origin, policy)
    }

    /** A candidate that nothing stands in the way of. */
    predicate Open(rows: Rows, c: Candidate) {
      c.key !in rows.bySource && !HeadOf(rows, c.key).tombstone && c.fits && Admitted(c.origin, policy)
    }

    ghost predicate AllArchived(before: Rows, after: Rows, candidates: seq<Candidate>) {
      forall i {:trigger Open(before, candidates[i])} | 0 <= i < |candidates| && Open(before, candidates[i]) ::
        Archived(after, candidates[i].key, candidates[i].digest)
    }

    /** What was due before candidates were queued is due after it. */
    lemma DueStaysDue(a: Rows, b: Rows, c: Rows, now: int)
      requires QueueGrew(a, b)
      ensures DueIn(a, now) <= DueIn(b, now)
      ensures AllTried(b, c, DueIn(b, now)) ==> AllTried(a, c, DueIn(a, now))
      ensures AllCleared(b, c, DueIn(b, now)) ==> AllCleared(a, c, DueIn(a, now))
    {
      if AllTried(b, c, DueIn(b, now)) {
        forall id | id in DueIn(a, now) ensures Tried(a, c, id) { assert Tried(b, c, id); }
      }
      if AllCleared(b, c, DueIn(b, now)) {
        forall id | id in DueIn(a, now) ensures Cleared(a, c, id) { assert Cleared(b, c, id); }
      }
    }

    /** A candidate that was queued, and whatever was due got through. */
    lemma QueuedAreArchived(a: Rows, b: Rows, c: Rows, candidates: seq<Candidate>, now: int)
      requires QueueGrew(a, b) && AllOffered(a, b, candidates) && QuietKept(b, c) && 0 <= now
      requires AllCleared(b, c, DueIn(b, now))
      ensures AllArchived(a, c, candidates)
    {
      forall i | 0 <= i < |candidates| && Open(a, candidates[i]) ensures Archived(c, candidates[i].key, candidates[i].digest) {
        var x := candidates[i];
        assert Offered(b, x);
        if Queued(b, x) {
          assert IsDue(b, b.bySource[x.key], now);
          assert Cleared(b, c, b.bySource[x.key]);
        } else {
          assert Quiet(b, c, x.key);
        }
      }
    }

    lemma OriginsArePending(w: World)
      requires Safe(w)
      ensures w.spool.origins.Keys == w.spool.pending.Keys
    {
    }

    lemma TouchedStaysCurrent(before: Rows, after: Rows, ids: set<RequestId>)
      requires OnlyTouched(before, after, ids)
      ensures AllCurrent(before) ==> AllCurrent(after)
      ensures after.pending.Keys <= before.pending.Keys
    {
      if AllCurrent(before) {
        forall id | id in after.pending ensures after.pending[id].policyDigest == policy.digest {
          assert SameUpload(before.pending[id], after.pending[id]);
        }
      }
    }

    /** What is due has an admitted origin, its own or its candidate's. */
    lemma DueIsPermitted(w: World, a: Rows, candidates: seq<Candidate>, ids: seq<RequestId>, now: int, q: Request)
      requires Safe(w) && |ids| == |candidates| && KnownOrigins(a, w.spool, candidates, ids)
      requires QueueGrew(a, w.spool) && a.origins.Keys == a.pending.Keys
      requires q in Payloads(w.spool, DueIn(w.spool, now))
      ensures Permitted(a, candidates, ids, now, q)
    {
      var id :| id in DueIn(w.spool, now) && w.spool.pending[id].payload == q;
      PendingIsIndexed(w, id);
      assert KnownOrigin(a, w.spool, candidates, ids, id);
    }

    /** What holds for the queue as it was cleaned holds for it as it was before. */
    lemma CleanedIsEnough(a: Rows, b: Rows, c: Rows, candidates: seq<Candidate>)
      requires QuietKept(a, b) && AllArchived(b, c, candidates)
      ensures AllArchived(a, c, candidates)
    {
      forall i | 0 <= i < |candidates| && Open(a, candidates[i]) ensures Archived(c, candidates[i].key, candidates[i].digest) {
        assert Quiet(a, b, candidates[i].key) && Open(b, candidates[i]);
      }
    }

    /** Due, and made under the policy of this pass. */
    ghost predicate Current(rows: Rows, id: RequestId, now: int) {
      IsDue(rows, id, now) && rows.pending[id].policyDigest == policy.digest
    }

    lemma CurrentStaysDue(v: World, w: World, c: Rows, now: int)
      requires Safe(w) && Kept(v.spool, w.spool)
      ensures AllTried(w.spool, c, DueIn(w.spool, now)) ==>
                forall id {:trigger Tried(v.spool, c, id)} | Current(v.spool, id, now) :: Tried(v.spool, c, id)
      ensures AllCleared(w.spool, c, DueIn(w.spool, now)) ==>
                forall id {:trigger Cleared(v.spool, c, id)} | Current(v.spool, id, now) :: Cleared(v.spool, c, id)
    {
      hide Safe;
      forall id | Current(v.spool, id, now) ensures id in DueIn(w.spool, now) { PendingIsIndexed(w, id); }
      if AllTried(w.spool, c, DueIn(w.spool, now)) {
        forall id | Current(v.spool, id, now) ensures Tried(v.spool, c, id) { assert Tried(w.spool, c, id); }
      }
      if AllCleared(w.spool, c, DueIn(w.spool, now)) {
        forall id | Current(v.spool, id, now) ensures Cleared(v.spool, c, id) { assert Cleared(w.spool, c, id); }
      }
    }

    lemma PermittedBefore(a: Rows, b: Rows, candidates: seq<Candidate>, ids: seq<RequestId>)
      requires |ids| == |candidates| && Grew(b.origins, a.origins) && Grew(b.pending, a.pending)
      ensures forall now, q | Permitted(b, candidates, ids, now, q) :: Permitted(a, candidates, ids, now, q)
    {
    }

    /** What is not due is not sent, and it stays as it is or is dropped. */
    ghost predicate LeftAlone(before: World, after: World, now: int) {
      forall id | id in before.spool.pending && (before.spool.pending[id].status != Waiting || now < before.spool.pending[id].nextAt) ::
        && (before.spool.pending[id].payload in after.sent ==> before.spool.pending[id].payload in before.sent)
        && (id in after.spool.pending ==> after.spool.pending[id] == before.spool.pending[id])
    }

    lemma NotDueIsNotSent(w: World, v: World, candidates: seq<Candidate>, ids: seq<RequestId>, now: int)
      requires Safe(w) && |ids| == |candidates| && (forall i | 0 <= i < |ids| :: ids[i] !in w.issued)
      requires forall q | q in v.sent && q !in w.sent :: Permitted(w.spool, candidates, ids, now, q)
      requires NotDueKept(w.spool, v.spool, now)
      ensures LeftAlone(w, v, now)
    {
      forall id | id in w.spool.pending && (w.spool.pending[id].status != Waiting || now < w.spool.pending[id].nextAt)
        ensures w.spool.pending[id].payload in v.sent ==> w.spool.pending[id].payload in w.sent
      {
        PendingIsIndexed(w, id);
        PendingIsIssued(w, id);
      }
    }

    static ghost predicate NotDueKept(before: Rows, after: Rows, now: int) {
      forall id | id in before.pending && (before.pending[id].status != Waiting || now < before.pending[id].nextAt) ::
        id in after.pending ==> after.pending[id] == before.pending[id]
    }

    lemma KeptLeavesAlone(v: World, w: World, now: int)
      requires Kept(v.spool, w.spool) && w.sent == v.sent
      ensures LeftAlone(v, w, now)
    {
    }

    lemma PendingIsIssued(w: World, id: RequestId)
      requires Safe(w) && id in w.spool.pending
      ensures id in w.issued
    {
      if id !in w.issued { IdIsNew(w, id); }
    }

    lemma NotDueIsKept(a: Rows, b: Rows, c: Rows, now: int)
      requires QueueGrew(a, b) && OnlyTouched(b, c, DueIn(b, now))
      ensures NotDueKept(a, c, now)
    {
      forall id | id in a.pending && (a.pending[id].status != Waiting || now < a.pending[id].nextAt)
        ensures id in c.pending ==> c.pending[id] == a.pending[id]
      {
        if id in c.pending { assert (c.pending - DueIn(b, now))[id] == (b.pending - DueIn(b, now))[id]; }
      }
    }

    lemma NotDueKeptBefore(a: Rows, b: Rows, c: Rows, now: int)
      requires Grew(b.pending, a.pending) && NotDueKept(b, c, now)
      requires forall id | id in c.pending && id in a.pending :: id in b.pending
      ensures NotDueKept(a, c, now)
    {
    }

    /** All of the queue was made under this policy. */
    ghost predicate AllCurrent(rows: Rows) { forall id | id in rows.pending :: rows.pending[id].policyDigest == policy.digest }

    /** One pass. It can be cut short by a storage failure anywhere; what it has done by then is kept, and the
        next pass starts from there. Undisturbed it archives everything that nothing stands in the way of. */
    method RunOnce(now: int, candidates: seq<Candidate>, ids: seq<RequestId>) returns (r: Outcome)
      requires Ok() && Offer(candidates, ids)
      modifies this, spool`rows
      ensures Ok() && Onward() && spool.Completed(r)
      ensures r.Done? ==> Mirrored() && CountsAreTrue()
      ensures r.Done? ==> |old(spool.rows).pending| + |candidates| ==
                            |spool.rows.pending| + counters.uploaded + counters.excluded + counters.same + counters.waiting
                            + counters.quarantined
      ensures forall q | q in sent && q !in old(sent) :: Permitted(old(spool.rows), candidates, ids, now, q)
      ensures LeftAlone(old(World()), World(), now) && (r.Done? ==> AllCurrent(spool.rows))
      ensures r.Done? ==> forall id {:trigger Tried(old(spool.rows), spool.rows, id)} | Current(old(spool.rows), id, now) ::
                Tried(old(spool.rows), spool.rows, id)
      ensures Undisturbed() ==> forall id {:trigger Cleared(old(spool.rows), spool.rows, id)} |
                Current(old(spool.rows), id, now) :: Cleared(old(spool.rows), spool.rows, id)
      ensures Undisturbed() && 0 <= now ==> AllArchived(old(spool.rows), spool.rows, candidates)
    {
      hide Safe, Tried, Cleared, Archived, IsDue, Extends, QuietKept, AllTried, AllCleared, AllArchived, Permitted, Grew, Current;
      Begin();
      r := DropStale();
      ghost var cleaned := World();
      if !r.Done? {
        KeptLeavesAlone(old(World()), World(), now);
        return;
      }
      r := Collect(now, candidates, ids);
      ExtendsIsTransitive(old(World()), cleaned, World());
      PermittedBefore(old(spool.rows), cleaned.spool, candidates, ids);
      forall id | id in spool.rows.pending && id in old(spool.rows).pending ensures id in cleaned.spool.pending {
        PendingIsIssued(old(World()), id);
      }
      NotDueKeptBefore(old(spool.rows), cleaned.spool, spool.rows, now);
      NotDueIsNotSent(old(World()), World(), candidates, ids, now);
      CurrentStaysDue(old(World()), cleaned, spool.rows, now);
      if AllArchived(cleaned.spool, spool.rows, candidates) {
        CleanedIsEnough(old(spool.rows), cleaned.spool, spool.rows, candidates);
      }
    }

    /** The part of a pass after the queue has been cleaned. */
    method Collect(now: int, candidates: seq<Candidate>, ids: seq<RequestId>) returns (r: Outcome)
      requires Ok() && Mirrored() && Offer(candidates, ids) && counters.enqueued == counters.uploaded == 0
      modifies this, spool`rows
      ensures Ok() && Onward() && spool.Completed(r)
      ensures r.Done? ==> Mirrored() && CountsAreTrue() && Counted(counters) == Counted(old(counters)) + |candidates|
      ensures r.Done? ==> |spool.rows.pending| + counters.uploaded == |old(spool.rows).pending| + counters.enqueued
      ensures forall q | q in sent && q !in old(sent) :: Permitted(old(spool.rows), candidates, ids, now, q)
      ensures NotDueKept(old(spool.rows), spool.rows, now)
      ensures forall id | id in spool.rows.pending :: id in old(spool.rows).pending || id in ids
      ensures AllCurrent(old(spool.rows)) ==> AllCurrent(spool.rows)
      ensures r.Done? ==> AllTried(old(spool.rows), spool.rows, DueIn(old(spool.rows), now))
      ensures Undisturbed() ==> AllCleared(old(spool.rows), spool.rows, DueIn(old(spool.rows), now))
      ensures Undisturbed() && 0 <= now ==> AllArchived(old(spool.rows), spool.rows, candidates)
    {
      hide Safe, AllTried, AllCleared, AllArchived, Permitted, IsDue, Extends, QuietKept, AllOffered, KnownOrigins, QueueGrew,
        OnlyTouched, NotDueKept, AllCurrent, NewlyQueued, AllHandled, OnlyOffered, CountsAreTrue, Mirrors;
      var queued := set id | id in queueState :: queueState[id].sourceKey;
      SourcesAreIndexed();
      r := EnqueueChanged(candidates, ids, queued);
      NewlyQueuedIsCurrent(old(spool.rows), spool.rows, ids);
      NoneTouched(spool.rows, DueIn(spool.rows, now));
      NotDueIsKept(old(spool.rows), spool.rows, spool.rows, now);
      if !r.Done? { return; }
      ghost var offered := World();
      r := UploadDue(now);
      ExtendsIsTransitive(old(World()), offered, World());
      NotDueIsKept(old(spool.rows), offered.spool, spool.rows, now);
      OriginsArePending(old(World()));
      OriginsArePending(offered);
      TouchedStaysCurrent(offered.spool, spool.rows, DueIn(offered.spool, now));
      forall q | q in sent && q !in old(sent) ensures Permitted(old(spool.rows), candidates, ids, now, q) {
        DueIsPermitted(offered, old(spool.rows), candidates, ids, now, q);
      }
      DueStaysDue(old(spool.rows), offered.spool, spool.rows, now);
      if Undisturbed() && 0 <= now {
        QueuedAreArchived(old(spool.rows), offered.spool, spool.rows, candidates, now);
      }
      if r.Done? { CountQueue(); }
    }

    /** Uploads everything that is due and may leave the machine. */
    method UploadDue(now: int) returns (r: Outcome)
      requires Ok() && Mirrored()
      modifies spool`rows, `queueState, `counters, `server, `answers, `sent, `acked
      ensures Ok() && Mirrored() && Onward() && spool.Completed(r)
      ensures OnlyTouched(old(spool.rows), spool.rows, DueIn(old(spool.rows), now))
      ensures sent <= old(sent) + Payloads(old(spool.rows), DueIn(old(spool.rows), now))
      ensures r.Done? ==> AllTried(old(spool.rows), spool.rows, DueIn(old(spool.rows), now))
      ensures Undisturbed() ==> AllCleared(old(spool.rows), spool.rows, DueIn(old(spool.rows), now))
      ensures r.Done? ==> counters.uploaded - old(counters).uploaded == |old(spool.rows).pending| - |spool.rows.pending|
      ensures counters == old(counters).(uploaded := counters.uploaded, uploadFailures := counters.uploadFailures)
    {
      var rows := spool.rows;
      var due := set id | id in rows.pending && id in rows.origins && Due(rows.pending[id], rows.origins[id].origin, now);
      assert due == DueIn(rows, now);
      r := UploadAll(due, now);
    }
  }
}
