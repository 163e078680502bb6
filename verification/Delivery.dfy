/** A collector and the server it uploads to, over a network that loses, delays and repeats requests and loses
    acknowledgements. The server compares and swaps its head and binds a receipt to each payload. */
module Delivery {
  import opened Wrappers
  import opened Spool

  type History = map<SourceKey, seq<Request>>

  function Of(h: History, key: SourceKey): seq<Request> { if key in h then h[key] else [] }

  function Grown(h: History, q: Request): History { h[q.sourceKey := Of(h, q.sourceKey) + [q]] }

  // ---------------------------------------------------------------- the server

  datatype Receipt = Receipt(payload: Fingerprint, revision: nat)

  datatype Server = Server(committed: History, receipts: map<RequestId, Receipt>)

  datatype Answer = Accepted(requestId: RequestId, revision: nat) | Conflict

  predicate Commits(server: Server, q: Request) {
    q.requestId !in server.receipts && |Of(server.committed, q.sourceKey)| == q.expectedRevision
  }

  /** One transaction: a known request gets its receipt again, a new one is committed if its head is current. */
  function Submitted(server: Server, q: Request): Server {
    if Commits(server, q)
    then Server(Grown(server.committed, q), server.receipts[q.requestId := Receipt(Hash(q), q.expectedRevision + 1)])
    else server
  }

  function AnswerTo(server: Server, q: Request): Answer {
    if q.requestId in server.receipts then
      if server.receipts[q.requestId].payload == Hash(q) then Accepted(q.requestId, server.receipts[q.requestId].revision)
      else Conflict
    else if Commits(server, q) then Accepted(q.requestId, q.expectedRevision + 1) else Conflict
  }

  // ---------------------------------------------------------------- the pair

  /** `sent`: every request ever put on the wire, any of which may still arrive, any number of times. The last
      three fields are history: the request behind each id, and per source what was enqueued and acknowledged. */
  datatype World = World(
    spool: Rows, server: Server, sent: set<Request>, answers: set<Answer>,
    issued: map<RequestId, Request>, enqueued: History, acked: History)

  datatype Event =
    | Enqueue(entry: Pending, origin: Origin)
    | Send(id: RequestId)
    | Deliver(q: Request)
    | Confirm(id: RequestId, revision: nat)
    | Fail(id: RequestId, error: string, nextAt: int, conflict: bool, maxAttempts: int)
    | Retry(id: RequestId)
    | Drop(id: RequestId, reason: string)

  const Initial := World(NoRows, Server(map[], map[]), {}, {}, map[], map[], map[])

  /** What a collector enqueues: an encoded snapshot under a request id never used before. */
  predicate FreshSnapshot(w: World, p: Pending) {
    && p.requestId !in w.issued && p.status == Waiting
    && p.payload == Request(p.requestId, p.sourceKey, p.expectedRevision, p.sourceDigest)
  }

  predicate Enabled(w: World, e: Event) {
    match e
    case Enqueue(p, origin) => FreshSnapshot(w, p) && EnqueueRefusal(w.spool, p, origin).None?
    case Send(id) => id in w.spool.pending
    case Deliver(q) => q in w.sent
    case Confirm(id, revision) => Accepted(id, revision) in w.answers && AckRefusal(w.spool, id, revision).None?
    case Fail(id, _, _, conflict, _) => id in w.spool.pending && (conflict ==> Conflict in w.answers)
    case Retry(id) => id in w.spool.pending
    case Drop(id, _) => id in w.spool.pending
  }

  function Next(w: World, e: Event): World
    requires Enabled(w, e)
  {
    match e
    case Enqueue(p, origin) =>
      w.(spool := Enqueued(w.spool, p, origin), issued := w.issued[p.requestId := p.payload],
         enqueued := Grown(w.enqueued, p.payload))
    case Send(id) => w.(sent := w.sent + {w.spool.pending[id].payload})
    case Deliver(q) => w.(server := Submitted(w.server, q), answers := w.answers + {AnswerTo(w.server, q)})
    case Confirm(id, revision) =>
      w.(spool := Acked(w.spool, id, revision), acked := Grown(w.acked, w.spool.pending[id].payload))
    case Fail(id, error, nextAt, conflict, maxAttempts) =>
      w.(spool := Failed(w.spool, id, error, nextAt, conflict, maxAttempts))
    case Retry(id) => w.(spool := Retried(w.spool, id))
    case Drop(id, reason) => w.(spool := DroppedFrom(w.spool, id, reason))
  }

  // ---------------------------------------------------------------- the invariant

  predicate EnqueuedOk(issued: map<RequestId, Request>, enqueued: History, key: SourceKey, i: nat)
    requires i < |Of(enqueued, key)|
  {
    var q := Of(enqueued, key)[i];
    q.sourceKey == key && q.expectedRevision == i && q.requestId in issued && issued[q.requestId] == q
  }

  /** Every snapshot is logged at the revision it expects, under an id of its own. */
  ghost predicate LogOk(issued: map<RequestId, Request>, enqueued: History) {
    forall key: SourceKey, i: nat {:trigger EnqueuedOk(issued, enqueued, key, i)} | i < |Of(enqueued, key)| ::
      EnqueuedOk(issued, enqueued, key, i)
  }

  predicate Holds(h: History, q: Request) {
    q.expectedRevision < |Of(h, q.sourceKey)| && Of(h, q.sourceKey)[q.expectedRevision] == q
  }

  predicate HasReceipt(server: Server, q: Request) {
    q.requestId in server.receipts && server.receipts[q.requestId] == Receipt(Hash(q), q.expectedRevision + 1)
  }

  predicate ReceiptOk(server: Server, id: RequestId)
    requires id in server.receipts
  {
    var q := server.receipts[id].payload.of;
    q.requestId == id && Holds(server.committed, q) && server.receipts[id].revision == q.expectedRevision + 1
  }

  predicate CommitOk(server: Server, key: SourceKey, i: nat)
    requires i < |Of(server.committed, key)|
  {
    HasReceipt(server, Of(server.committed, key)[i])
  }

  /** Receipts and commits belong together, one to one. */
  ghost predicate ServerOk(server: Server) {
    && (forall id {:trigger ReceiptOk(server, id)} | id in server.receipts :: ReceiptOk(server, id))
    && (forall key: SourceKey, i: nat {:trigger CommitOk(server, key, i)} | i < |Of(server.committed, key)| ::
          CommitOk(server, key, i))
  }

  predicate AnswerOk(server: Server, a: Answer) {
    a.Accepted? && a.requestId in server.receipts && server.receipts[a.requestId].revision == a.revision
  }

  /** One source: what was acknowledged is a prefix of what the server committed, which is a prefix of what was
      enqueued; at most one snapshot is between the ends. */
  predicate ChainOk(spool: Rows, committed: History, enqueued: History, acked: History, key: SourceKey) {
    && Of(acked, key) <= Of(committed, key) <= Of(enqueued, key) && |Of(enqueued, key)| <= |Of(acked, key)| + 1
    && HeadOf(spool, key).revision == |Of(acked, key)|
    && (Of(acked, key) != [] ==> HeadOf(spool, key).digest == Some(Of(acked, key)[|Of(acked, key)| - 1].digest))
    && (|Of(enqueued, key)| > |Of(acked, key)| && !HeadOf(spool, key).tombstone ==> key in spool.bySource)
  }

  ghost predicate ChainsOk(spool: Rows, committed: History, enqueued: History, acked: History) {
    forall key: SourceKey {:trigger ChainOk(spool, committed, enqueued, acked, key)} ::
      ChainOk(spool, committed, enqueued, acked, key)
  }

  /** A pending upload is the last snapshot enqueued for its source, and not acknowledged. */
  predicate PendingOk(pending: map<RequestId, Pending>, id: RequestId, enqueued: History, acked: History)
    requires id in pending
  {
    var p := pending[id];
    && p.payload == Request(id, p.sourceKey, p.expectedRevision, p.sourceDigest) && p.status != Conflicting
    && Of(enqueued, p.sourceKey) == Of(acked, p.sourceKey) + [p.payload]
  }

  ghost predicate QueueOk(pending: map<RequestId, Pending>, enqueued: History, acked: History) {
    forall id {:trigger PendingOk(pending, id, enqueued, acked)} | id in pending ::
      PendingOk(pending, id, enqueued, acked)
  }

  ghost predicate Safe(w: World) {
    && Inv(w.spool) && LogOk(w.issued, w.enqueued) && ServerOk(w.server)
    && ChainsOk(w.spool, w.server.committed, w.enqueued, w.acked)
    && QueueOk(w.spool.pending, w.enqueued, w.acked)
    && (forall q {:trigger Holds(w.enqueued, q)} | q in w.sent :: Holds(w.enqueued, q))
    && (forall a {:trigger AnswerOk(w.server, a)} | a in w.answers :: AnswerOk(w.server, a))
  }

  // ---------------------------------------------------------------- every step keeps it

  lemma EnqueueKeepsLog(w: World, p: Pending)
    requires LogOk(w.issued, w.enqueued) && FreshSnapshot(w, p) && p.expectedRevision == |Of(w.enqueued, p.sourceKey)|
    ensures LogOk(w.issued[p.requestId := p.payload], Grown(w.enqueued, p.payload))
  {
    var issued, enqueued := w.issued[p.requestId := p.payload], Grown(w.enqueued, p.payload);
    forall key: SourceKey, i: nat | i < |Of(enqueued, key)| ensures EnqueuedOk(issued, enqueued, key, i) {
      if i < |Of(w.enqueued, key)| { assert EnqueuedOk(w.issued, w.enqueued, key, i); }
    }
  }

  /** The new snapshot is the one between the ends of its source's history. */
  lemma EnqueueKeepsChains(w: World, p: Pending, origin: Origin)
    requires Safe(w) && Enabled(w, Enqueue(p, origin))
    ensures p.expectedRevision == |Of(w.enqueued, p.sourceKey)|
    ensures var v := Next(w, Enqueue(p, origin));
            && ChainsOk(v.spool, v.server.committed, v.enqueued, v.acked) && QueueOk(v.spool.pending, v.enqueued, v.acked)
  {
    var v := Next(w, Enqueue(p, origin));
    assert ChainOk(w.spool, w.server.committed, w.enqueued, w.acked, p.sourceKey);
    forall key: SourceKey ensures ChainOk(v.spool, v.server.committed, v.enqueued, v.acked, key) {
      assert ChainOk(w.spool, w.server.committed, w.enqueued, w.acked, key);
    }
    forall id | id in v.spool.pending ensures PendingOk(v.spool.pending, id, v.enqueued, v.acked) {
      if id != p.requestId {
        assert PendingOk(w.spool.pending, id, w.enqueued, w.acked) && Spool.EntryOk(w.spool, id);
      }
    }
  }

  lemma EnqueueIsSafe(w: World, p: Pending, origin: Origin)
    requires Safe(w) && Enabled(w, Enqueue(p, origin))
    ensures Safe(Next(w, Enqueue(p, origin)))
  {
    hide ChainsOk, QueueOk, ServerOk, LogOk, Inv;
    var v := Next(w, Enqueue(p, origin));
    EnqueueKeepsInv(w.spool, p, origin);
    EnqueueKeepsChains(w, p, origin);
    EnqueueKeepsLog(w, p);
    forall q | q in w.sent ensures Holds(v.enqueued, q) { assert Holds(w.enqueued, q); }
  }

  /** A request on the wire is committed already or is exactly what the head waits for: never a conflict. */
  lemma NeverAConflict(w: World, q: Request)
    requires Safe(w) && q in w.sent
    ensures AnswerTo(w.server, q) == Accepted(q.requestId, q.expectedRevision + 1)
    ensures Commits(w.server, q) <==> !Holds(w.server.committed, q)
    ensures Commits(w.server, q) ==> Grown(w.server.committed, q)[q.sourceKey] <= Of(w.enqueued, q.sourceKey)
  {
    var key, i := q.sourceKey, q.expectedRevision;
    assert Holds(w.enqueued, q) && ChainOk(w.spool, w.server.committed, w.enqueued, w.acked, key);
    assert EnqueuedOk(w.issued, w.enqueued, key, i);
    if q.requestId in w.server.receipts {
      var r := w.server.receipts[q.requestId].payload.of;
      assert ReceiptOk(w.server, q.requestId);
      assert ChainOk(w.spool, w.server.committed, w.enqueued, w.acked, r.sourceKey);
      assert EnqueuedOk(w.issued, w.enqueued, r.sourceKey, r.expectedRevision);
    } else {
      assert i < |Of(w.server.committed, key)| ==> CommitOk(w.server, key, i);
    }
  }

  lemma CommitKeepsServer(server: Server, q: Request)
    requires ServerOk(server)
    ensures ServerOk(Submitted(server, q))
    ensures forall a | AnswerOk(server, a) :: AnswerOk(Submitted(server, q), a)
  {
    var next := Submitted(server, q);
    forall id | id in next.receipts ensures ReceiptOk(next, id) {
      if id in server.receipts { assert ReceiptOk(server, id); }
    }
    forall key: SourceKey, i: nat | i < |Of(next.committed, key)| ensures CommitOk(next, key, i) {
      if i < |Of(server.committed, key)| { assert CommitOk(server, key, i); }
    }
  }

  lemma DeliverIsSafe(w: World, q: Request)
    requires Safe(w) && q in w.sent
    ensures Safe(Next(w, Deliver(q)))
  {
    var v := Next(w, Deliver(q));
    NeverAConflict(w, q);
    CommitKeepsServer(w.server, q);
    forall key: SourceKey ensures ChainOk(v.spool, v.server.committed, v.enqueued, v.acked, key) {
      assert ChainOk(w.spool, w.server.committed, w.enqueued, w.acked, key);
    }
    if q.requestId in w.server.receipts { assert ReceiptOk(w.server, q.requestId); }
  }

  /** A receipt for a pending upload can only be for its own snapshot, and the spool takes it. */
  lemma ReceiptIsForPending(w: World, id: RequestId, revision: nat)
    requires Safe(w) && id in w.spool.pending && Accepted(id, revision) in w.answers
    ensures AckRefusal(w.spool, id, revision).None? && Holds(w.server.committed, w.spool.pending[id].payload)
  {
    var p := w.spool.pending[id];
    assert PendingOk(w.spool.pending, id, w.enqueued, w.acked) && Spool.EntryOk(w.spool, id);
    assert AnswerOk(w.server, Accepted(id, revision)) && ReceiptOk(w.server, id);
    var q := w.server.receipts[id].payload.of;
    assert ChainOk(w.spool, w.server.committed, w.enqueued, w.acked, q.sourceKey);
    assert EnqueuedOk(w.issued, w.enqueued, q.sourceKey, q.expectedRevision);
    assert ChainOk(w.spool, w.server.committed, w.enqueued, w.acked, p.sourceKey);
    assert EnqueuedOk(w.issued, w.enqueued, p.sourceKey, p.expectedRevision);
  }

  lemma ConfirmIsSafe(w: World, id: RequestId, revision: nat)
    requires Safe(w) && Enabled(w, Confirm(id, revision))
    ensures Safe(Next(w, Confirm(id, revision)))
  {
    var v := Next(w, Confirm(id, revision));
    AckKeepsInv(w.spool, id, revision);
    ReceiptIsForPending(w, id, revision);
    ConfirmKeepsChains(w, id, revision);
    ConfirmKeepsQueue(w, id, revision);
  }

  lemma ConfirmKeepsChains(w: World, id: RequestId, revision: nat)
    requires Safe(w) && Enabled(w, Confirm(id, revision))
    ensures var v := Next(w, Confirm(id, revision)); ChainsOk(v.spool, v.server.committed, v.enqueued, v.acked)
  {
    var v := Next(w, Confirm(id, revision));
    ReceiptIsForPending(w, id, revision);
    assert PendingOk(w.spool.pending, id, w.enqueued, w.acked) && Spool.EntryOk(w.spool, id);
    forall key: SourceKey ensures ChainOk(v.spool, v.server.committed, v.enqueued, v.acked, key) {
      assert ChainOk(w.spool, w.server.committed, w.enqueued, w.acked, key);
    }
  }

  lemma ConfirmKeepsQueue(w: World, id: RequestId, revision: nat)
    requires Safe(w) && Enabled(w, Confirm(id, revision))
    ensures var v := Next(w, Confirm(id, revision)); QueueOk(v.spool.pending, v.enqueued, v.acked)
  {
    var v := Next(w, Confirm(id, revision));
    ReceiptIsForPending(w, id, revision);
    assert PendingOk(w.spool.pending, id, w.enqueued, w.acked) && Spool.EntryOk(w.spool, id);
    forall other | other in v.spool.pending ensures PendingOk(v.spool.pending, other, v.enqueued, v.acked) {
      assert PendingOk(w.spool.pending, other, w.enqueued, w.acked) && Spool.EntryOk(w.spool, other);
    }
  }

  lemma RescheduleIsSafe(w: World, id: RequestId, p: Pending)
    requires Safe(w) && id in w.spool.pending && SameUpload(w.spool.pending[id], p) && p.status != Conflicting
    ensures Safe(w.(spool := Rescheduled(w.spool, id, p)))
  {
    var v := w.(spool := Rescheduled(w.spool, id, p));
    RescheduleKeepsInv(w.spool, id, p);
    forall key: SourceKey ensures ChainOk(v.spool, v.server.committed, v.enqueued, v.acked, key) {
      assert ChainOk(w.spool, w.server.committed, w.enqueued, w.acked, key);
    }
    forall other | other in v.spool.pending ensures PendingOk(v.spool.pending, other, v.enqueued, v.acked) {
      assert PendingOk(w.spool.pending, other, w.enqueued, w.acked);
    }
  }

  lemma DropIsSafe(w: World, id: RequestId, reason: string)
    requires Safe(w) && id in w.spool.pending
    ensures Safe(Next(w, Drop(id, reason)))
  {
    var v := Next(w, Drop(id, reason));
    DropKeepsInv(w.spool, id, reason);
    assert Spool.EntryOk(w.spool, id);
    forall key: SourceKey ensures ChainOk(v.spool, v.server.committed, v.enqueued, v.acked, key) {
      assert ChainOk(w.spool, w.server.committed, w.enqueued, w.acked, key);
    }
    forall other | other in v.spool.pending ensures PendingOk(v.spool.pending, other, v.enqueued, v.acked) {
      assert PendingOk(w.spool.pending, other, w.enqueued, w.acked);
    }
  }

  lemma SendIsSafe(w: World, id: RequestId)
    requires Safe(w) && id in w.spool.pending
    ensures Safe(Next(w, Send(id)))
  {
    var p := w.spool.pending[id];
    assert PendingOk(w.spool.pending, id, w.enqueued, w.acked) && Spool.EntryOk(w.spool, id);
    assert ChainOk(w.spool, w.server.committed, w.enqueued, w.acked, p.sourceKey);
  }

  lemma StepIsSafe(w: World, e: Event)
    requires Safe(w) && Enabled(w, e)
    ensures Safe(Next(w, e))
  {
    match e
    case Enqueue(p, origin) => EnqueueIsSafe(w, p, origin);
    case Send(id) => SendIsSafe(w, id);
    case Deliver(q) => DeliverIsSafe(w, q);
    case Confirm(id, revision) => ConfirmIsSafe(w, id, revision);
    case Fail(id, error, nextAt, conflict, maxAttempts) =>
      assert Conflict in w.answers ==> AnswerOk(w.server, Conflict);
      RescheduleIsSafe(w, id, AfterFailure(w.spool.pending[id], error, nextAt, conflict, maxAttempts));
    case Retry(id) =>
      RescheduleIsSafe(w, id, w.spool.pending[id].(attempts := 0, nextAt := 0, status := Waiting, error := None));
    case Drop(id, reason) => DropIsSafe(w, id, reason);
  }

  // ---------------------------------------------------------------- whole runs

  predicate CanRun(w: World, script: seq<Event>)
    decreases |script|
  {
    script == [] || (Enabled(w, script[0]) && CanRun(Next(w, script[0]), script[1..]))
  }

  function After(w: World, script: seq<Event>): World
    requires CanRun(w, script)
    decreases |script|
  {
    if script == [] then w else After(Next(w, script[0]), script[1..])
  }

  /** Nothing enqueued, committed or acknowledged is ever reordered or taken back, no tombstone is cleared. */
  ghost predicate Extends(w: World, v: World) {
    && Later(w.spool, v.spool)
    && forall key: SourceKey {:trigger LogsExtend(w, v, key)} :: LogsExtend(w, v, key)
  }

  predicate LogsExtend(w: World, v: World, key: SourceKey) {
    && Of(w.enqueued, key) <= Of(v.enqueued, key)
    && Of(w.server.committed, key) <= Of(v.server.committed, key)
    && Of(w.acked, key) <= Of(v.acked, key)
  }

  lemma StepExtends(w: World, e: Event)
    requires Safe(w) && Enabled(w, e)
    ensures Extends(w, Next(w, e))
  {
    match e
    case Enqueue(p, origin) => EnqueueKeepsInv(w.spool, p, origin);
    case Confirm(id, revision) => AckKeepsInv(w.spool, id, revision);
    case Fail(id, error, nextAt, conflict, maxAttempts) =>
      RescheduleKeepsInv(w.spool, id, AfterFailure(w.spool.pending[id], error, nextAt, conflict, maxAttempts));
    case Retry(id) =>
      RescheduleKeepsInv(w.spool, id, w.spool.pending[id].(attempts := 0, nextAt := 0, status := Waiting, error := None));
    case Drop(id, reason) => DropKeepsInv(w.spool, id, reason);
    case _ =>
  }

  lemma ExtendsIsTransitive(a: World, b: World, c: World)
    requires Extends(a, b) && Extends(b, c)
    ensures Extends(a, c)
  {
    LaterIsTransitive(a.spool, b.spool, c.spool);
    forall key: SourceKey ensures LogsExtend(a, c, key) {
      assert LogsExtend(a, b, key) && LogsExtend(b, c, key);
    }
  }

  lemma {:induction false} RunIsSafe(w: World, script: seq<Event>)
    requires Safe(w) && CanRun(w, script)
    ensures Safe(After(w, script)) && Extends(w, After(w, script))
    decreases |script|
  {
    if script != [] {
      StepIsSafe(w, script[0]);
      StepExtends(w, script[0]);
      RunIsSafe(Next(w, script[0]), script[1..]);
      ExtendsIsTransitive(w, Next(w, script[0]), After(w, script));
    }
  }

  /** The main result, for every run from an empty collector and an empty server: each source's server history
      is what was acknowledged, or that plus the one pending snapshot; everything enqueued is committed at most
      once, in order; and no request of this collector is ever answered with a conflict. */
  lemma ExactlyOnceDelivery(script: seq<Event>)
    requires CanRun(Initial, script)
    ensures var w := After(Initial, script);
            && Safe(w)
            && (forall key: SourceKey | !HeadOf(w.spool, key).tombstone :: InStep(w, key))
            && (forall key: SourceKey :: Of(w.acked, key) <= Of(w.server.committed, key) <= Of(w.enqueued, key))
            && CommittedOnce(w) && Conflict !in w.answers
            && (forall id | id in w.spool.pending :: w.spool.pending[id].status != Conflicting)
  {
    var w := After(Initial, script);
    InitialIsSafe();
    RunIsSafe(Initial, script);
    forall key: SourceKey ensures Of(w.acked, key) <= Of(w.server.committed, key) <= Of(w.enqueued, key)
    {
      assert ChainOk(w.spool, w.server.committed, w.enqueued, w.acked, key);
    }
    forall key: SourceKey | !HeadOf(w.spool, key).tombstone ensures InStep(w, key) { SafeIsInStep(w, key); }
    SafeIsOnce(w);
    assert Conflict in w.answers ==> AnswerOk(w.server, Conflict);
    forall id | id in w.spool.pending ensures w.spool.pending[id].status != Conflicting {
      assert PendingOk(w.spool.pending, id, w.enqueued, w.acked);
    }
  }

  lemma InitialIsSafe()
    ensures Safe(Initial)
  {
  }

  /** The server is at the local head, or one ahead of it by exactly the pending snapshot. */
  predicate InStep(w: World, key: SourceKey) {
    var committed, head := Of(w.server.committed, key), HeadOf(w.spool, key);
    || |committed| == head.revision
    || (|committed| == head.revision + 1 && key in w.spool.bySource && w.spool.bySource[key] in w.spool.pending
        && committed[head.revision] == w.spool.pending[w.spool.bySource[key]].payload)
  }

  /** No two places of the server's history hold the same request. */
  ghost predicate CommittedOnce(w: World) {
    forall k1: SourceKey, i1: nat, k2: SourceKey, i2: nat
      | i1 < |Of(w.server.committed, k1)| && i2 < |Of(w.server.committed, k2)|
        && Of(w.server.committed, k1)[i1].requestId == Of(w.server.committed, k2)[i2].requestId ::
      k1 == k2 && i1 == i2
  }

  lemma SafeIsInStep(w: World, key: SourceKey)
    requires Safe(w) && !HeadOf(w.spool, key).tombstone
    ensures InStep(w, key)
  {
    assert ChainOk(w.spool, w.server.committed, w.enqueued, w.acked, key);
    if |Of(w.server.committed, key)| > HeadOf(w.spool, key).revision {
      var id := w.spool.bySource[key];
      assert PendingOk(w.spool.pending, id, w.enqueued, w.acked);
    }
  }

  lemma SafeIsOnce(w: World)
    requires Safe(w)
    ensures CommittedOnce(w)
  {
    forall k1: SourceKey, i1: nat, k2: SourceKey, i2: nat
      | i1 < |Of(w.server.committed, k1)| && i2 < |Of(w.server.committed, k2)|
        && Of(w.server.committed, k1)[i1].requestId == Of(w.server.committed, k2)[i2].requestId
      ensures k1 == k2 && i1 == i2
    {
      assert ChainOk(w.spool, w.server.committed, w.enqueued, w.acked, k1);
      assert ChainOk(w.spool, w.server.committed, w.enqueued, w.acked, k2);
      assert EnqueuedOk(w.issued, w.enqueued, k1, i1) && EnqueuedOk(w.issued, w.enqueued, k2, i2);
    }
  }

  lemma RunOneMore(w: World, e: Event, rest: seq<Event>)
    requires Enabled(w, e) && CanRun(Next(w, e), rest)
    ensures CanRun(w, [e] + rest) && After(w, [e] + rest) == After(Next(w, e), rest)
  {
    assert ([e] + rest)[1..] == rest;
  }

  /** From every reachable state a pending upload can still get through: sent, delivered and confirmed, it leaves
      server and collector with the same history for its source. */
  lemma PendingCanBeDelivered(w: World, id: RequestId)
    requires Safe(w) && id in w.spool.pending
    ensures var p := w.spool.pending[id];
            var script := [Send(id), Deliver(p.payload), Confirm(id, p.expectedRevision + 1)];
            && CanRun(w, script)
            && var v := After(w, script);
               Of(v.acked, p.sourceKey) == Of(v.server.committed, p.sourceKey) == Of(w.enqueued, p.sourceKey)
               && id !in v.spool.pending && HeadOf(v.spool, p.sourceKey) == Head(p.expectedRevision + 1, Some(p.sourceDigest), false)
  {
    hide Safe, CanRun, After;
    var p := w.spool.pending[id];
    var last := Confirm(id, p.expectedRevision + 1);
    SendIsSafe(w, id);
    var w1 := Next(w, Send(id));
    PayloadIsExpected(w, id);
    NeverAConflict(w1, p.payload);
    DeliverIsSafe(w1, p.payload);
    var w2 := Next(w1, Deliver(p.payload));
    ReceiptIsForPending(w2, id, p.expectedRevision + 1);
    ConfirmIsSafe(w2, id, p.expectedRevision + 1);
    var v := Next(w2, last);
    AllAcknowledged(w, v, id);
    NothingToRun(v);
    RunOneMore(w2, last, []);
    RunOneMore(w1, Deliver(p.payload), [last] + []);
    RunOneMore(w, Send(id), [Deliver(p.payload)] + ([last] + []));
    assert [Send(id)] + ([Deliver(p.payload)] + ([last] + [])) == [Send(id), Deliver(p.payload), last];
  }

  lemma NothingToRun(w: World)
    ensures CanRun(w, []) && After(w, []) == w
  {
  }

  lemma PayloadIsExpected(w: World, id: RequestId)
    requires Safe(w) && id in w.spool.pending
    ensures var p := w.spool.pending[id];
            p.payload.requestId == id && p.payload.sourceKey == p.sourceKey && p.payload.expectedRevision == p.expectedRevision
  {
    assert PendingOk(w.spool.pending, id, w.enqueued, w.acked);
  }

  /** Once the pending upload is acknowledged, so is everything enqueued for its source. */
  lemma AllAcknowledged(w: World, v: World, id: RequestId)
    requires Safe(w) && Safe(v) && id in w.spool.pending && v.enqueued == w.enqueued
    requires v.acked == Grown(w.acked, w.spool.pending[id].payload)
    ensures var key := w.spool.pending[id].sourceKey;
            Of(v.acked, key) == Of(v.server.committed, key) == Of(w.enqueued, key)
  {
    var p := w.spool.pending[id];
    assert PendingOk(w.spool.pending, id, w.enqueued, w.acked);
    assert ChainOk(v.spool, v.server.committed, v.enqueued, v.acked, p.sourceKey);
  }

  lemma PendingWasIssued(w: World, id: RequestId)
    requires Safe(w) && id in w.spool.pending
    ensures id in w.issued
  {
    var p := w.spool.pending[id];
    var i := |Of(w.acked, p.sourceKey)|;
    assert PendingOk(w.spool.pending, id, w.enqueued, w.acked);
    assert Of(w.enqueued, p.sourceKey)[i] == p.payload;
    assert EnqueuedOk(w.issued, w.enqueued, p.sourceKey, i);
  }

  /** An id never issued is not pending. */
  lemma IdIsNew(w: World, id: RequestId)
    requires Safe(w) && id !in w.issued
    ensures id !in w.spool.pending && id !in w.spool.origins
  {
    if id in w.spool.pending { PendingWasIssued(w, id); }
  }

  /** A source that was not given up: one never seen, or one whose head has no tombstone. */
  predicate Alive(rows: Rows, key: SourceKey) { key in rows.heads ==> !rows.heads[key].tombstone }

  /** The revision a snapshot must expect: none has been archived, or the head's. */
  function Revision(rows: Rows, key: SourceKey): nat { if key in rows.heads then rows.heads[key].revision else 0 }

  /** Between snapshots both sides have the same history of a source. */
  lemma NothingBetween(w: World, key: SourceKey)
    requires Safe(w) && Alive(w.spool, key) && key !in w.spool.bySource
    ensures Of(w.enqueued, key) == Of(w.server.committed, key)
  {
    assert ChainOk(w.spool, w.server.committed, w.enqueued, w.acked, key);
  }

  /** From every reachable state a new snapshot of any source that is not given up and has nothing pending can be
      archived, and then is the last of the server's history. */
  lemma SnapshotCanBeArchived(w: World, p: Pending, origin: Origin)
    requires Safe(w) && FreshSnapshot(w, p) && p.payloadDigest == Hash(p.payload) && ValidOrigin(origin)
    requires Alive(w.spool, p.sourceKey) && p.sourceKey !in w.spool.bySource
    requires p.expectedRevision == Revision(w.spool, p.sourceKey)
    ensures var id := p.requestId;
            var script := [Enqueue(p, origin), Send(id), Deliver(p.payload), Confirm(id, p.expectedRevision + 1)];
            && CanRun(w, script)
            && Of(After(w, script).server.committed, p.sourceKey) == Of(w.server.committed, p.sourceKey) + [p.payload]
            && HeadOf(After(w, script).spool, p.sourceKey).digest == Some(p.sourceDigest)
  {
    hide Safe, CanRun, After;
    var id, first := p.requestId, Enqueue(p, origin);
    var rest := [Send(id), Deliver(p.payload), Confirm(id, p.expectedRevision + 1)];
    IdIsNew(w, id);
    EnqueueIsSafe(w, p, origin);
    NothingBetween(w, p.sourceKey);
    PendingCanBeDelivered(Next(w, first), id);
    RunOneMore(w, first, rest);
    assert [first] + rest == [first, Send(id), Deliver(p.payload), Confirm(id, p.expectedRevision + 1)];
  }
}
