/** The collector's durable queue. Its tables change only inside transactions or single writes, any write may
    throw, and a transaction that throws leaves no trace. */
module Spool {
  import opened Wrappers

  type SourceKey = string
  type RequestId = string
  type RawDigest = string

  /** What an upload asks of the server; the payload a client sends is an encoding of this. */
  datatype Request = Request(requestId: RequestId, sourceKey: SourceKey, expectedRevision: nat, digest: RawDigest)

  /** An injective hash of a payload. */
  datatype Fingerprint = Fingerprint(of: Request)

  function Hash(payload: Request): Fingerprint { Fingerprint(payload) }

  datatype Status = Waiting | Stopped | Conflicting

  datatype Pending = Pending(
    requestId: RequestId, sourceKey: SourceKey, sourceDigest: RawDigest, payload: Request, payloadDigest: Fingerprint,
    expectedRevision: nat, policyDigest: string, attempts: nat, nextAt: int, status: Status, error: Option<string>)

  datatype Origin = Native | NamedYolo(name: string) | Explicit | Unknown

  datatype Bound = Bound(requestId: RequestId, payloadDigest: Fingerprint, sourceKey: SourceKey, origin: Origin)

  datatype Head = Head(revision: nat, digest: Option<RawDigest>, tombstone: bool)

  datatype Reporting = Reporting(sequence: nat, accepted: Option<nat>, acceptedAt: Option<int>, error: Option<string>)

  datatype Dropped = Dropped(requestId: RequestId, sourceKey: SourceKey, reason: string)

  /** The buckets of the key-value store. */
  datatype Rows = Rows(
    heads: map<SourceKey, Head>, pending: map<RequestId, Pending>, bySource: map<SourceKey, RequestId>,
    origins: map<RequestId, Bound>, audit: map<RequestId, Dropped>, reporting: Option<Reporting>)

  datatype Code =
    | PayloadDigestMismatch | SourceAlreadyPending | RequestAlreadyPending | OrphanedPendingOrigin
    | InvalidPendingOrigin | SourceHeadMismatch | RequestNotFound | ReceiptRevisionMismatch
    | ReportSequenceExhausted | InvalidReportAck | StorageFailed

  datatype Outcome = Done | Threw(code: Code)

  const NoRows := Rows(map[], map[], map[], map[], map[], None)
  const LastSequence: nat := 0x7FFF_FFFF_FFFF_FFFF

  function HeadOf(rows: Rows, key: SourceKey): Head {
    if key in rows.heads then rows.heads[key] else Head(0, None, false)
  }

  function ReportingOf(rows: Rows): Reporting {
    if rows.reporting.Some? then rows.reporting.value else Reporting(0, None, None, None)
  }

  predicate ProfileCharacter(c: char) {
    'A' <= c <= 'Z' || 'a' <= c <= 'z' || '0' <= c <= '9' || c in {'.', '_', '-'}
  }

  predicate ValidOrigin(o: Origin) {
    o.NamedYolo? ==> o.name != "" && o.name != "." && o.name != ".." && forall c | c in o.name :: ProfileCharacter(c)
  }

  // ---------------------------------------------------------------- what every operation keeps

  /** One pending upload: in both indexes, with its origin bound to it, waiting on the head it was made for. */
  predicate EntryOk(rows: Rows, id: RequestId)
    requires id in rows.pending
  {
    var p := rows.pending[id];
    && p.requestId == id && p.payloadDigest == Hash(p.payload)
    && p.sourceKey in rows.bySource && rows.bySource[p.sourceKey] == id
    && id in rows.origins && ValidOrigin(rows.origins[id].origin)
    && rows.origins[id] == Bound(id, p.payloadDigest, p.sourceKey, rows.origins[id].origin)
    && !HeadOf(rows, p.sourceKey).tombstone && p.expectedRevision == HeadOf(rows, p.sourceKey).revision
  }

  /** The two indexes of pending uploads are inverse maps, every origin belongs to one of them, and reports are
      accepted only up to what was issued. */
  ghost predicate Inv(rows: Rows) {
    && (forall id {:trigger EntryOk(rows, id)} | id in rows.pending :: EntryOk(rows, id))
    && (forall key | key in rows.bySource ::
          rows.bySource[key] in rows.pending && rows.pending[rows.bySource[key]].sourceKey == key)
    && rows.origins.Keys == rows.pending.Keys
    && (var r := ReportingOf(rows); r.sequence <= LastSequence && (r.accepted.Some? ==> r.accepted.value <= r.sequence))
  }

  /** From one state to a later one: no tombstone is cleared, no revision goes down, no issued or accepted report
      number is taken back, no dropped request is forgotten. */
  ghost predicate Later(a: Rows, b: Rows) {
    && (forall key: SourceKey {:trigger HeadLater(a, b, key)} :: HeadLater(a, b, key))
    && ReportingOf(a).sequence <= ReportingOf(b).sequence
    && (ReportingOf(a).accepted.Some? ==>
          ReportingOf(b).accepted.Some? && ReportingOf(a).accepted.value <= ReportingOf(b).accepted.value)
    && a.audit.Keys <= b.audit.Keys
  }

  predicate HeadLater(a: Rows, b: Rows, key: SourceKey) {
    && HeadOf(a, key).revision <= HeadOf(b, key).revision
    && (HeadOf(a, key).tombstone ==> HeadOf(b, key).tombstone && HeadOf(b, key).revision == HeadOf(a, key).revision)
  }

  lemma LaterIsTransitive(a: Rows, b: Rows, c: Rows)
    requires Later(a, b) && Later(b, c)
    ensures Later(a, c)
  {
    forall key: SourceKey ensures HeadLater(a, c, key) {
      assert HeadLater(a, b, key) && HeadLater(b, c, key);
    }
  }

  /** A source has at most one pending upload. */
  lemma OnePendingPerSource(rows: Rows, a: RequestId, b: RequestId)
    requires Inv(rows) && a in rows.pending && b in rows.pending
    requires rows.pending[a].sourceKey == rows.pending[b].sourceKey
    ensures a == b
  {
    assert EntryOk(rows, a) && EntryOk(rows, b);
  }

  // ---------------------------------------------------------------- the operations, on values

  function EnqueueRefusal(rows: Rows, entry: Pending, origin: Origin): Option<Code> {
    if Hash(entry.payload) != entry.payloadDigest then Some(PayloadDigestMismatch)
    else if entry.sourceKey in rows.bySource then Some(SourceAlreadyPending)
    else if entry.requestId in rows.pending then Some(RequestAlreadyPending)
    else if entry.requestId in rows.origins then Some(OrphanedPendingOrigin)
    else if !ValidOrigin(origin) then Some(InvalidPendingOrigin)
    else if HeadOf(rows, entry.sourceKey).tombstone || HeadOf(rows, entry.sourceKey).revision != entry.expectedRevision
    then Some(SourceHeadMismatch)
    else None
  }

  function Enqueued(rows: Rows, entry: Pending, origin: Origin): Rows {
    rows.(pending := rows.pending[entry.requestId := entry],
          bySource := rows.bySource[entry.sourceKey := entry.requestId],
          origins := rows.origins[entry.requestId := Bound(entry.requestId, entry.payloadDigest, entry.sourceKey, origin)])
  }

  lemma EnqueueKeepsInv(rows: Rows, entry: Pending, origin: Origin)
    requires Inv(rows) && EnqueueRefusal(rows, entry, origin).None?
    ensures Inv(Enqueued(rows, entry, origin)) && Later(rows, Enqueued(rows, entry, origin))
  {
    var next := Enqueued(rows, entry, origin);
    forall id | id in next.pending ensures EntryOk(next, id) {
      if id != entry.requestId { assert EntryOk(rows, id); }
    }
  }

  function Forgotten(rows: Rows, id: RequestId): Rows
    requires id in rows.pending
  {
    rows.(pending := rows.pending - {id}, origins := rows.origins - {id},
          bySource := rows.bySource - {rows.pending[id].sourceKey})
  }

  function AckRefusal(rows: Rows, id: RequestId, revision: nat): Option<Code> {
    if id !in rows.pending then Some(RequestNotFound)
    else if revision != rows.pending[id].expectedRevision + 1 then Some(ReceiptRevisionMismatch)
    else if HeadOf(rows, rows.pending[id].sourceKey).revision != rows.pending[id].expectedRevision
    then Some(SourceHeadMismatch)
    else None
  }

  function Acked(rows: Rows, id: RequestId, revision: nat): Rows
    requires id in rows.pending
  {
    var p := rows.pending[id];
    Forgotten(rows.(heads := rows.heads[p.sourceKey := Head(revision, Some(p.sourceDigest), false)]), id)
  }

  lemma AckKeepsInv(rows: Rows, id: RequestId, revision: nat)
    requires Inv(rows) && AckRefusal(rows, id, revision).None?
    ensures Inv(Acked(rows, id, revision)) && Later(rows, Acked(rows, id, revision))
  {
    var next := Acked(rows, id, revision);
    assert EntryOk(rows, id);
    forall other | other in next.pending ensures EntryOk(next, other) {
      assert EntryOk(rows, other);
    }
  }

  /** What failing and retrying leave alone. */
  predicate SameUpload(p: Pending, q: Pending) {
    && q.requestId == p.requestId && q.sourceKey == p.sourceKey && q.sourceDigest == p.sourceDigest
    && q.payload == p.payload && q.payloadDigest == p.payloadDigest && q.expectedRevision == p.expectedRevision
    && q.policyDigest == p.policyDigest
  }

  function Rescheduled(rows: Rows, id: RequestId, p: Pending): Rows { rows.(pending := rows.pending[id := p]) }

  lemma RescheduleKeepsInv(rows: Rows, id: RequestId, p: Pending)
    requires Inv(rows) && id in rows.pending && SameUpload(rows.pending[id], p)
    ensures Inv(Rescheduled(rows, id, p)) && Later(rows, Rescheduled(rows, id, p))
  {
    var next := Rescheduled(rows, id, p);
    assert EntryOk(rows, id);
    forall other | other in next.pending ensures EntryOk(next, other) {
      assert EntryOk(rows, other);
    }
    assert next.pending.Keys == rows.pending.Keys;
  }

  function StatusAfter(attempts: nat, conflict: bool, maxAttempts: int): Status {
    if conflict then Conflicting else if attempts >= maxAttempts then Stopped else Waiting
  }

  function AfterFailure(p: Pending, error: string, nextAt: int, conflict: bool, maxAttempts: int): Pending {
    p.(attempts := p.attempts + 1, error := Some(error), nextAt := nextAt,
       status := StatusAfter(p.attempts + 1, conflict, maxAttempts))
  }

  function Failed(rows: Rows, id: RequestId, error: string, nextAt: int, conflict: bool, maxAttempts: int): Rows
    requires id in rows.pending
  {
    Rescheduled(rows, id, AfterFailure(rows.pending[id], error, nextAt, conflict, maxAttempts))
  }

  function Retried(rows: Rows, id: RequestId): Rows
    requires id in rows.pending
  {
    Rescheduled(rows, id, rows.pending[id].(attempts := 0, nextAt := 0, status := Waiting, error := None))
  }

  function DroppedFrom(rows: Rows, id: RequestId, reason: string): Rows
    requires id in rows.pending
  {
    var key := rows.pending[id].sourceKey;
    Forgotten(rows.(heads := rows.heads[key := HeadOf(rows, key).(tombstone := true)],
                    audit := rows.audit[id := Dropped(id, key, reason)]), id)
  }

  lemma DropKeepsInv(rows: Rows, id: RequestId, reason: string)
    requires Inv(rows) && id in rows.pending
    ensures Inv(DroppedFrom(rows, id, reason)) && Later(rows, DroppedFrom(rows, id, reason))
  {
    var next := DroppedFrom(rows, id, reason);
    assert EntryOk(rows, id);
    forall other | other in next.pending ensures EntryOk(next, other) {
      assert EntryOk(rows, other);
    }
  }

  // ---------------------------------------------------------------- the spool

  class DurableSpool {
    var rows: Rows
    /** When set, writes of the key-value store do not throw. */
    var reliable: bool

    constructor (reliable: bool)
      ensures rows == NoRows && Inv(rows) && this.reliable == reliable
    {
      rows, this.reliable := NoRows, reliable;
    }

    /** Nothing but a throwing write can have gone wrong. */
    predicate Completed(r: Outcome) reads `reliable { r == Done || (r == Threw(StorageFailed) && !reliable) }

    /** One write of the key-value store; it can throw, and then has not happened. */
    method Store(next: Rows) returns (r: Outcome)
      modifies `rows
      ensures Completed(r)
      ensures rows == if r.Done? then next else old(rows)
    {
      var fails: bool := *;
      if fails && !reliable { return Threw(StorageFailed); }
      rows := next;
      return Done;
    }

    /** The end of a transaction: what it did stays, unless it threw. */
    method EndTransaction(before: Rows, r: Outcome)
      modifies `rows
      ensures rows == if r.Done? then old(rows) else before
    {
      if !r.Done? { rows := before; }
    }

    method Enqueue(entry: Pending, origin: Origin) returns (r: Outcome)
      requires Inv(rows)
      modifies `rows
      ensures Inv(rows) && Later(old(rows), rows)
      ensures rows == if r.Done? then Enqueued(old(rows), entry, origin) else old(rows)
      ensures r.Done? ==>
                && rows.pending == old(rows).pending[entry.requestId := entry]
                && rows.bySource == old(rows).bySource[entry.sourceKey := entry.requestId]
                && rows.origins.Keys == old(rows).origins.Keys + {entry.requestId}
                && rows.origins[entry.requestId].origin == origin
                && rows.heads == old(rows).heads && rows.audit == old(rows).audit && rows.reporting == old(rows).reporting
      ensures var refusal := EnqueueRefusal(old(rows), entry, origin);
              if refusal.Some? then r == Threw(refusal.value) else Completed(r)
    {
      var before := rows;
      r := EnqueueBody(entry, origin);
      EndTransaction(before, r);
      if r.Done? { EnqueueKeepsInv(before, entry, origin); }
    }

    method EnqueueBody(entry: Pending, origin: Origin) returns (r: Outcome)
      modifies `rows
      ensures r.Done? ==> rows == Enqueued(old(rows), entry, origin)
      ensures var refusal := EnqueueRefusal(old(rows), entry, origin);
              if refusal.Some? then r == Threw(refusal.value) else Completed(r)
    {
      if Hash(entry.payload) != entry.payloadDigest { return Threw(PayloadDigestMismatch); }
      if entry.sourceKey in rows.bySource { return Threw(SourceAlreadyPending); }
      if entry.requestId in rows.pending { return Threw(RequestAlreadyPending); }
      if entry.requestId in rows.origins { return Threw(OrphanedPendingOrigin); }
      if !ValidOrigin(origin) { return Threw(InvalidPendingOrigin); }
      var head := HeadOf(rows, entry.sourceKey);
      if head.tombstone || head.revision != entry.expectedRevision { return Threw(SourceHeadMismatch); }
      r := Store(rows.(pending := rows.pending[entry.requestId := entry]));
      if !r.Done? { return; }
      r := Store(rows.(bySource := rows.bySource[entry.sourceKey := entry.requestId]));
      if !r.Done? { return; }
      var bound := Bound(entry.requestId, entry.payloadDigest, entry.sourceKey, origin);
      r := Store(rows.(origins := rows.origins[entry.requestId := bound]));
    }

    method Ack(id: RequestId, revision: nat) returns (r: Outcome)
      requires Inv(rows)
      modifies `rows
      ensures Inv(rows) && Later(old(rows), rows)
      ensures if r.Done? then id in old(rows).pending && rows == Acked(old(rows), id, revision) else rows == old(rows)
      ensures r.Done? ==>
                var p := old(rows).pending[id];
                && revision == p.expectedRevision + 1 == HeadOf(old(rows), p.sourceKey).revision + 1
                && rows.heads == old(rows).heads[p.sourceKey := Head(revision, Some(p.sourceDigest), false)]
                && Removed(old(rows), rows, id) && rows.audit == old(rows).audit
      ensures var refusal := AckRefusal(old(rows), id, revision);
              if refusal.Some? then r == Threw(refusal.value) else Completed(r)
    {
      var before := rows;
      r := AckBody(id, revision);
      EndTransaction(before, r);
      if r.Done? { AckKeepsInv(before, id, revision); }
    }

    method AckBody(id: RequestId, revision: nat) returns (r: Outcome)
      modifies `rows
      ensures r.Done? ==> id in old(rows).pending && rows == Acked(old(rows), id, revision)
      ensures var refusal := AckRefusal(old(rows), id, revision);
              if refusal.Some? then r == Threw(refusal.value) else Completed(r)
    {
      if id !in rows.pending { return Threw(RequestNotFound); }
      var p := rows.pending[id];
      if revision != p.expectedRevision + 1 { return Threw(ReceiptRevisionMismatch); }
      if HeadOf(rows, p.sourceKey).revision != p.expectedRevision { return Threw(SourceHeadMismatch); }
      r := Store(rows.(heads := rows.heads[p.sourceKey := Head(revision, Some(p.sourceDigest), false)]));
      if !r.Done? { return; }
      r := Forget(id);
    }

    /** Of the queue exactly one upload is gone, with its origin and its place in the index of sources. */
    static predicate Removed(before: Rows, after: Rows, id: RequestId) {
      && id in before.pending && id !in after.pending && id !in after.origins
      && after.pending == before.pending - {id} && after.origins == before.origins - {id}
      && after.bySource == before.bySource - {before.pending[id].sourceKey} && after.reporting == before.reporting
    }

    /** The pending upload, its origin and its place in the index of sources are removed. */
    method Forget(id: RequestId) returns (r: Outcome)
      requires id in rows.pending
      modifies `rows
      ensures Completed(r)
      ensures r.Done? ==> rows == Forgotten(old(rows), id)
    {
      var key := rows.pending[id].sourceKey;
      r := Store(rows.(pending := rows.pending - {id}));
      if !r.Done? { return; }
      r := Store(rows.(origins := rows.origins - {id}));
      if !r.Done? { return; }
      r := Store(rows.(bySource := rows.bySource - {key}));
    }

    /** A failed upload is rescheduled, stopped, or marked as conflicting. */
    method Fail(id: RequestId, error: string, nextAt: int, conflict: bool, maxAttempts: int)
      returns (r: Outcome, status: Status)
      requires Inv(rows)
      modifies `rows
      ensures Inv(rows) && Later(old(rows), rows)
      ensures if r.Done? then id in old(rows).pending && rows == Failed(old(rows), id, error, nextAt, conflict, maxAttempts)
                && status == rows.pending[id].status
              else rows == old(rows)
      ensures r.Done? ==>
                var p := old(rows).pending[id];
                rows == old(rows).(pending := old(rows).pending[id :=
                  p.(attempts := p.attempts + 1, error := Some(error), nextAt := nextAt, status := status)])
      ensures r.Done? ==> (status == Conflicting <==> conflict)
      ensures r.Done? && !conflict ==> (status == Stopped <==> rows.pending[id].attempts >= maxAttempts)
      ensures if id !in old(rows).pending then r == Threw(RequestNotFound) else Completed(r)
    {
      status := Waiting;
      if id !in rows.pending { return Threw(RequestNotFound), status; }
      var p := rows.pending[id];
      var attempts := p.attempts + 1;
      status := if conflict then Conflicting else if attempts >= maxAttempts then Stopped else Waiting;
      var next := p.(attempts := attempts, error := Some(error), nextAt := nextAt, status := status);
      assert next == AfterFailure(p, error, nextAt, conflict, maxAttempts);
      RescheduleKeepsInv(rows, id, next);
      r := Store(Rescheduled(rows, id, next));
    }

    method Retry(id: RequestId) returns (r: Outcome)
      requires Inv(rows)
      modifies `rows
      ensures Inv(rows) && Later(old(rows), rows)
      ensures if r.Done? then id in old(rows).pending && rows == Retried(old(rows), id) else rows == old(rows)
      ensures r.Done? ==>
                var p := old(rows).pending[id];
                rows == old(rows).(pending := old(rows).pending[id := p.(attempts := 0, nextAt := 0, status := Waiting, error := None)])
      ensures if id !in old(rows).pending then r == Threw(RequestNotFound) else Completed(r)
    {
      if id !in rows.pending { return Threw(RequestNotFound); }
      var next := rows.pending[id].(attempts := 0, nextAt := 0, status := Waiting, error := None);
      RescheduleKeepsInv(rows, id, next);
      r := Store(Rescheduled(rows, id, next));
    }

    /** Gives an upload up; its source will never be uploaded again. */
    method Drop(id: RequestId, reason: string) returns (r: Outcome)
      requires Inv(rows)
      modifies `rows
      ensures Inv(rows) && Later(old(rows), rows)
      ensures if r.Done? then id in old(rows).pending && rows == DroppedFrom(old(rows), id, reason) else rows == old(rows)
      ensures r.Done? ==>
                var key := old(rows).pending[id].sourceKey;
                && rows.heads == old(rows).heads[key := HeadOf(old(rows), key).(tombstone := true)]
                && Removed(old(rows), rows, id) && rows.audit == old(rows).audit[id := Dropped(id, key, reason)]
      ensures if id !in old(rows).pending then r == Threw(RequestNotFound) else Completed(r)
    {
      var before := rows;
      r := DropBody(id, reason);
      EndTransaction(before, r);
      if r.Done? { DropKeepsInv(before, id, reason); }
    }

    method DropBody(id: RequestId, reason: string) returns (r: Outcome)
      modifies `rows
      ensures r.Done? ==> id in old(rows).pending && rows == DroppedFrom(old(rows), id, reason)
      ensures if id !in old(rows).pending then r == Threw(RequestNotFound) else Completed(r)
    {
      if id !in rows.pending { return Threw(RequestNotFound); }
      var key := rows.pending[id].sourceKey;
      r := Store(rows.(heads := rows.heads[key := HeadOf(rows, key).(tombstone := true)]));
      if !r.Done? { return; }
      r := Forget(id);
      if !r.Done? { return; }
      r := Store(rows.(audit := rows.audit[id := Dropped(id, key, reason)]));
    }

    /** The origin an upload was enqueued with; never another one's. */
    method PendingOrigin(id: RequestId) returns (r: Outcome, origin: Origin)
      requires Inv(rows)
      ensures if id in rows.pending then r == Done && id in rows.origins && origin == rows.origins[id].origin
              else r == Threw(RequestNotFound)
    {
      origin := Unknown;
      if id !in rows.pending { return Threw(RequestNotFound), origin; }
      var p := rows.pending[id];
      assert EntryOk(rows, id);
      if p.requestId != id { return Threw(InvalidPendingOrigin), origin; }
      if p.requestId !in rows.origins { return Done, origin; }
      var bound := rows.origins[p.requestId];
      if bound.requestId != p.requestId || bound.payloadDigest != p.payloadDigest || bound.sourceKey != p.sourceKey
        || !ValidOrigin(bound.origin) {
        return Threw(InvalidPendingOrigin), origin;
      }
      return Done, bound.origin;
    }

    /** A report number never issued before. */
    method NextReportSequence() returns (r: Outcome, next: nat)
      requires Inv(rows)
      modifies `rows
      ensures Inv(rows) && Later(old(rows), rows) && rows == old(rows).(reporting := rows.reporting)
      ensures r.Done? ==> next == ReportingOf(old(rows)).sequence + 1 == ReportingOf(rows).sequence <= LastSequence
      ensures !r.Done? ==> rows == old(rows)
      ensures if ReportingOf(old(rows)).sequence == LastSequence then r == Threw(ReportSequenceExhausted)
              else Completed(r)
    {
      var state := ReportingOf(rows);
      next := state.sequence + 1;
      if next > LastSequence { return Threw(ReportSequenceExhausted), next; }
      r := Store(rows.(reporting := Some(state.(sequence := next))));
      if r.Done? { SameEntries(old(rows), rows); }
    }

    /** Only a report that was issued and is newer than the last accepted one is accepted. */
    method ReportAccepted(sequence: nat, at: int) returns (r: Outcome)
      requires Inv(rows)
      modifies `rows
      ensures Inv(rows) && Later(old(rows), rows) && rows == old(rows).(reporting := rows.reporting)
      ensures r.Done? ==> ReportingOf(rows).accepted == Some(sequence)
      ensures !r.Done? ==> rows == old(rows)
      ensures var was := ReportingOf(old(rows));
              if sequence <= was.sequence && (if was.accepted.Some? then was.accepted.value else 0) < sequence
              then Completed(r) else r == Threw(InvalidReportAck)
    {
      var state := ReportingOf(rows);
      if sequence > state.sequence || sequence <= (if state.accepted.Some? then state.accepted.value else 0) {
        return Threw(InvalidReportAck);
      }
      r := Store(rows.(reporting := Some(state.(accepted := Some(sequence), acceptedAt := Some(at), error := None))));
      if r.Done? { SameEntries(old(rows), rows); }
    }
  }

  lemma SameEntries(a: Rows, b: Rows)
    requires Inv(a) && b == a.(reporting := b.reporting)
    ensures forall id | id in b.pending :: EntryOk(b, id)
  {
    forall id | id in b.pending ensures EntryOk(b, id) { assert EntryOk(a, id); }
  }
}
