// The `cmd_outbox` table: one row per durable command, kept in rowid order. Every function
// here is the effect of one SQL statement or one transaction of `db/cmd_outbox.rs`.
module CmdOutbox {
  import opened Wrappers
  import opened Seqs

  const CMD_MAX_PER_DEVICE: nat := 1000
  const CMD_DEFAULT_TTL_MS: int := 7 * 24 * 60 * 60 * 1000
  const PAYLOAD_CAP: nat := 65536
  const I64_MAX: int := 0x7FFF_FFFF_FFFF_FFFF

  /** A version-4 UUID. */
  type CmdId = nat

  /** A SQLite rowid as this schema hands them out. */
  type RowId = n: int | n >= 1 witness 1

  datatype AckResult = Accepted | Rejected | Failed | Done

  datatype Row = Row(
    id: RowId, cmdId: CmdId, device: int, topic: string, payload: string,
    enqueuedAt: int, expiresAt: int,
    deliveredAt: Option<int>, ackAt: Option<int>,
    ackResult: Option<AckResult>, ackDetail: Option<string>, attempts: nat)

  type Table = seq<Row>

  datatype Status = Pending | Delivered | Acked | Expired

  datatype StatusFilter = AnyStatus | OnlyPending | OnlyDelivered | OnlyAcked

  datatype EnqueueError = PayloadTooLarge | OutboxFull | ConstraintViolated

  // ---- Row predicates, one per WHERE clause -------------------------------------------------

  function Unacked(device: int): Row -> bool {
    (r: Row) => r.device == device && r.ackAt.None?
  }

  function PendingAt(now: int): Row -> bool {
    (r: Row) => r.deliveredAt.None? && r.expiresAt > now
  }

  function Cancellable(c: CmdId): Row -> bool {
    (r: Row) => r.cmdId == c && r.deliveredAt.None?
  }

  function OwnedBy(device: int): Row -> bool {
    (r: Row) => r.device == device
  }

  function Listed(device: int, f: StatusFilter): Row -> bool {
    (r: Row) => r.device == device &&
         match f
         case AnyStatus => true
         case OnlyPending => r.deliveredAt.None?
         case OnlyDelivered => r.deliveredAt.Some? && r.ackAt.None?
         case OnlyAcked => r.ackAt.Some?
  }

  function Below(cursor: Option<int>): Row -> bool {
    (r: Row) => cursor.Some? ==> r.id < cursor.value
  }

  function DeriveStatus(r: Row, now: int): Status {
    if r.ackAt.Some? then Acked
    else if r.deliveredAt.Some? then Delivered
    else if r.expiresAt <= now then Expired
    else Pending
  }

  function Ids(t: Table): set<CmdId> {
    set r: Row | r in t :: r.cmdId
  }

  function UnackedIds(t: Table, device: int): set<CmdId> {
    set r: Row | r in t && Unacked(device)(r) :: r.cmdId
  }

  // ---- Statements and transactions -----------------------------------------------------------

  /** SQLite gives an `INTEGER PRIMARY KEY` without AUTOINCREMENT the largest rowid plus one. */
  function NextRowId(t: Table): RowId {
    if t == [] then 1 else t[|t| - 1].id + 1
  }

  function Fresh(t: Table, c: CmdId, device: int, topic: string, payload: string,
                 enqueuedAt: int, expiresAt: int): Row {
    Row(NextRowId(t), c, device, topic, payload, enqueuedAt, expiresAt, None, None, None, None, 0)
  }

  function Enqueue(t: Table, devices: set<int>, c: CmdId, device: int, topic: string,
                   payload: string, enqueuedAt: int, expiresAt: int): Result<Table, EnqueueError>
  {
    if |payload| > PAYLOAD_CAP then Err(PayloadTooLarge)
    else if |Filter(Unacked(device), t)| >= CMD_MAX_PER_DEVICE then Err(OutboxFull)
    else if c in Ids(t) || device !in devices then Err(ConstraintViolated)
    else Ok(t + [Fresh(t, c, device, topic, payload, enqueuedAt, expiresAt)])
  }

  function ListPending(t: Table, now: int): seq<Row> {
    Filter(PendingAt(now), t)
  }

  function MarkRow(r: Row, c: CmdId, now: int): Row {
    if r.cmdId == c && r.deliveredAt.None?
    then r.(deliveredAt := Some(now), attempts := r.attempts + 1)
    else r
  }

  function MarkDelivered(t: Table, c: CmdId, now: int): (t': Table)
    ensures |t'| == |t|
    ensures forall i :: 0 <= i < |t| ==> t'[i] == MarkRow(t[i], c, now)
  {
    seq(|t|, i requires 0 <= i < |t| => MarkRow(t[i], c, now))
  }

  function AckRow(r: Row, c: CmdId, result: AckResult, detail: Option<string>, now: int): Row {
    if r.cmdId != c then r
    else r.(ackAt := Some(now), ackResult := Some(result), ackDetail := detail,
            deliveredAt := if r.deliveredAt.Some? then r.deliveredAt else Some(now))
  }

  function RecordAck(t: Table, c: CmdId, result: AckResult, detail: Option<string>, now: int): (t': Table)
    ensures |t'| == |t|
    ensures forall i :: 0 <= i < |t| ==> t'[i] == AckRow(t[i], c, result, detail, now)
  {
    seq(|t|, i requires 0 <= i < |t| => AckRow(t[i], c, result, detail, now))
  }

  predicate CancelHits(t: Table, c: CmdId) {
    exists r :: r in t && Cancellable(c)(r)
  }

  function Cancel(t: Table, c: CmdId): Table {
    Filter(Not(Cancellable(c)), t)
  }

  /** `ON DELETE CASCADE` from `devices`. */
  function Cascade(t: Table, device: int): Table {
    Filter(Not(OwnedBy(device)), t)
  }

  function Clamp(limit: int): nat {
    if limit < 1 then 1 else if limit > 1000 then 1000 else limit
  }

  function Take<T>(s: seq<T>, n: nat): seq<T> {
    if |s| <= n then s else s[..n]
  }

  function ListByDevice(t: Table, device: int, f: StatusFilter, cursor: Option<int>, limit: int): seq<Row> {
    Take(Rev(Filter(Below(cursor), Filter(Listed(device, f), t))), Clamp(limit))
  }

  function PendingDepth(t: Table): map<int, nat> {
    map d | d in (set r: Row | r in t && r.ackAt.None? :: r.device) :: |Filter(Unacked(d), t)|
  }

  function Lookup(t: Table, c: CmdId): Option<Row> {
    if exists r :: r in t && r.cmdId == c then Some(RowOf(t, c)) else None
  }

  function RowOf(t: Table, c: CmdId): (r: Row)
    requires exists r :: r in t && r.cmdId == c
    ensures r in t && r.cmdId == c
  {
    if t[0].cmdId == c then t[0] else
      assert forall r :: r in t <==> r == t[0] || r in t[1..];
      RowOf(t[1..], c)
  }

  // ---- What every reachable table satisfies ---------------------------------------------------

  predicate Sorted(t: seq<Row>) {
    forall i, j :: 0 <= i < j < |t| ==> t[i].id < t[j].id
  }

  predicate UniqueCmds(t: seq<Row>) {
    forall i, j :: 0 <= i < j < |t| ==> t[i].cmdId != t[j].cmdId
  }

  /** The part of the row invariant that a single row can state. */
  predicate RowOk(r: Row) {
    && (r.ackAt.Some? ==> r.deliveredAt.Some?)
    && r.attempts <= 1
    && (r.attempts == 1 ==> r.deliveredAt.Some?)
    && (r.attempts == 0 && r.deliveredAt.Some? ==> r.ackAt.Some?)
    && (r.ackAt.Some? <==> r.ackResult.Some?)
  }

  ghost predicate TableOk(t: Table) {
    && Sorted(t)
    && UniqueCmds(t)
    && (forall r :: r in t ==> RowOk(r))
    && (forall d :: |Filter(Unacked(d), t)| <= CMD_MAX_PER_DEVICE)
  }

  lemma {:induction false} FilterSorted(p: Row -> bool, t: seq<Row>)
    requires Sorted(t)
    ensures Sorted(Filter(p, t))
  {
    if t != [] {
      var rest := Filter(p, t[1..]);
      FilterSorted(p, t[1..]);
      FilterMember(p, t[1..]);
      forall i | 0 <= i < |rest| ensures t[0].id < rest[i].id {
        assert rest[i] in t[1..];
      }
    }
  }

  lemma {:induction false} FilterUnique(p: Row -> bool, t: seq<Row>)
    requires UniqueCmds(t)
    ensures UniqueCmds(Filter(p, t))
  {
    if t != [] {
      var rest := Filter(p, t[1..]);
      FilterUnique(p, t[1..]);
      FilterMember(p, t[1..]);
      forall i | 0 <= i < |rest| ensures t[0].cmdId != rest[i].cmdId {
        assert rest[i] in t[1..];
      }
    }
  }

  lemma SortedUnique(t: seq<Row>, a: Row, b: Row)
    requires a in t && b in t
    ensures Sorted(t) && a.id == b.id ==> a == b
    ensures UniqueCmds(t) && a.cmdId == b.cmdId ==> a == b
  {
    var i :| 0 <= i < |t| && t[i] == a;
    var j :| 0 <= j < |t| && t[j] == b;
  }

  /** Distinct command ids make counting rows and counting commands the same thing. */
  lemma {:induction false} CountIsCard(t: seq<Row>)
    requires UniqueCmds(t)
    ensures |t| == |Ids(t)|
  {
    if t != [] {
      IdsCons(t);
      IdsHeadUnique(t);
      assert UniqueCmds(t[1..]);
      hide Ids, UniqueCmds;
      CountIsCard(t[1..]);
    }
  }

  lemma IdsCons(t: seq<Row>)
    requires t != []
    ensures Ids(t) == {t[0].cmdId} + Ids(t[1..])
  {
    assert forall r :: r in t <==> r == t[0] || r in t[1..];
  }

  lemma IdsHeadUnique(t: seq<Row>)
    requires t != [] && UniqueCmds(t)
    ensures t[0].cmdId !in Ids(t[1..])
  {
    forall r | r in t[1..] ensures r.cmdId != t[0].cmdId {
      var i :| 0 <= i < |t| - 1 && t[1..][i] == r;
      assert t[i + 1] == r;
    }
  }

  lemma UnackedCount(t: Table, d: int)
    requires UniqueCmds(t)
    ensures |Filter(Unacked(d), t)| == |UnackedIds(t, d)|
  {
    FilterUnique(Unacked(d), t);
    FilterMember(Unacked(d), t);
    CountIsCard(Filter(Unacked(d), t));
    assert Ids(Filter(Unacked(d), t)) == UnackedIds(t, d);
  }

  // ---- Each statement keeps the table invariant ----------------------------------------------

  lemma EnqueueKeeps(t: Table, devices: set<int>, c: CmdId, device: int, topic: string,
                     payload: string, enqueuedAt: int, expiresAt: int)
    requires TableOk(t)
    requires Enqueue(t, devices, c, device, topic, payload, enqueuedAt, expiresAt).Ok?
    ensures TableOk(Enqueue(t, devices, c, device, topic, payload, enqueuedAt, expiresAt).value)
  {
    hide Sorted, UniqueCmds, RowOk;
    var row := Fresh(t, c, device, topic, payload, enqueuedAt, expiresAt);
    assert RowOk(row) by { FreshRowOk(t, c, device, topic, payload, enqueuedAt, expiresAt); }
    AppendOrder(t, row);
    forall d ensures |Filter(Unacked(d), t + [row])| <= CMD_MAX_PER_DEVICE {
      FilterAppend(Unacked(d), t, [row]);
      FilterOne(Unacked(d), row);
    }
  }

  lemma FreshRowOk(t: Table, c: CmdId, device: int, topic: string, payload: string, enqueuedAt: int, expiresAt: int)
    ensures RowOk(Fresh(t, c, device, topic, payload, enqueuedAt, expiresAt))
  {
  }

  lemma AppendOrder(t: Table, row: Row)
    requires Sorted(t) && UniqueCmds(t) && row.id == NextRowId(t) && row.cmdId !in Ids(t)
    ensures Sorted(t + [row]) && UniqueCmds(t + [row])
  {
    assert forall i :: 0 <= i < |t| ==> t[i] in t;
  }

  lemma MarkKeeps(t: Table, c: CmdId, now: int)
    requires TableOk(t)
    ensures TableOk(MarkDelivered(t, c, now))
  {
    var t' := MarkDelivered(t, c, now);
    forall d ensures |Filter(Unacked(d), t')| <= CMD_MAX_PER_DEVICE {
      FilterPointwise(Unacked(d), t, t');
    }
    forall r | r in t' ensures RowOk(r) {
      var i :| 0 <= i < |t'| && t'[i] == r;
      assert t[i] in t;
    }
  }

  lemma AckOrder(t: Table, c: CmdId, result: AckResult, detail: Option<string>, now: int)
    requires Sorted(t) && UniqueCmds(t)
    ensures Sorted(RecordAck(t, c, result, detail, now)) && UniqueCmds(RecordAck(t, c, result, detail, now))
  {
  }

  lemma AckKeeps(t: Table, c: CmdId, result: AckResult, detail: Option<string>, now: int)
    requires TableOk(t)
    ensures TableOk(RecordAck(t, c, result, detail, now))
  {
    hide Sorted, UniqueCmds, RowOk, RecordAck, Filter;
    var t' := RecordAck(t, c, result, detail, now);
    AckOrder(t, c, result, detail, now);
    forall d ensures |Filter(Unacked(d), t')| <= CMD_MAX_PER_DEVICE {
      FilterPointwise(Unacked(d), t, t');
    }
    forall r | r in t' ensures RowOk(r) {
      var i :| 0 <= i < |t'| && t'[i] == r;
      assert t[i] in t;
      AckRowOk(t[i], c, result, detail, now);
    }
  }

  lemma AckRowOk(r: Row, c: CmdId, result: AckResult, detail: Option<string>, now: int)
    requires RowOk(r)
    ensures RowOk(AckRow(r, c, result, detail, now))
  {
  }

  /** The two times of an acked row are in order exactly when the row was undelivered or its delivery
      time is not above the ack's own clock reading. */
  lemma AckInOrderIff(t: Table, c: CmdId, result: AckResult, detail: Option<string>, now: int, i: nat)
    requires i < |t| && t[i].cmdId == c
    ensures var r := RecordAck(t, c, result, detail, now)[i];
      && r.ackAt == Some(now) && r.deliveredAt.Some?
      && (r.deliveredAt.value <= now <==> t[i].deliveredAt.None? || t[i].deliveredAt.value <= now)
  {
  }

  lemma DeleteKeeps(t: Table, p: Row -> bool)
    requires TableOk(t)
    ensures TableOk(Filter(p, t))
  {
    FilterSorted(p, t);
    FilterUnique(p, t);
    FilterMember(p, t);
    forall d ensures |Filter(Unacked(d), Filter(p, t))| <= CMD_MAX_PER_DEVICE {
      FilterTwice(Unacked(d), p, t);
    }
  }

  // ---- Status agreement ------------------------------------------------------------------------

  /** The pusher's query returns exactly the rows whose derived status is "pending", oldest first. */
  lemma PendingAgreesWithStatus(t: Table, now: int)
    requires TableOk(t)
    ensures Sorted(ListPending(t, now))
    ensures forall r :: r in ListPending(t, now) <==> r in t && DeriveStatus(r, now) == Pending
  {
    FilterSorted(PendingAt(now), t);
    FilterMember(PendingAt(now), t);
    assert forall r :: r in t ==> RowOk(r);
  }

  /** On one device the three status filters select disjoint rows that together are all rows. */
  lemma FiltersPartition(t: Table, device: int, now: int, r: Row)
    requires TableOk(t) && r in t && r.device == device
    ensures Listed(device, OnlyPending)(r) <==> DeriveStatus(r, now) in {Pending, Expired}
    ensures Listed(device, OnlyDelivered)(r) <==> DeriveStatus(r, now) == Delivered
    ensures Listed(device, OnlyAcked)(r) <==> DeriveStatus(r, now) == Acked
    ensures multiset{Listed(device, OnlyPending)(r), Listed(device, OnlyDelivered)(r), Listed(device, OnlyAcked)(r)}
         == multiset{true, false, false}
  {
    assert RowOk(r);
  }

  lemma {:induction false} PartitionCount(t: Table, device: int)
    requires forall r :: r in t ==> RowOk(r)
    ensures multiset(Filter(OwnedBy(device), t))
         == multiset(Filter(Listed(device, OnlyPending), t))
          + multiset(Filter(Listed(device, OnlyDelivered), t))
          + multiset(Filter(Listed(device, OnlyAcked), t))
  {
    if t != [] {
      PartitionCount(t[1..], device);
      assert RowOk(t[0]);
    }
  }

  /** A row of the device that the filter asks for, column by column, below the cursor. */
  predicate AskedFor(r: Row, device: int, f: StatusFilter, cursor: Option<int>) {
    && r.device == device
    && (match f
        case AnyStatus => true
        case OnlyPending => r.deliveredAt.None?
        case OnlyDelivered => r.deliveredAt.Some? && r.ackAt.None?
        case OnlyAcked => r.ackAt.Some?)
    && (match cursor case None => true case Some(c) => r.id < c)
  }

  /** A listing page is newest first, holds only rows asked for, between one and a thousand as the limit says,
      and leaves none out that is newer than its last row. */
  lemma ListingIsNewestFirst(t: Table, device: int, f: StatusFilter, cursor: Option<int>, limit: int)
    requires Sorted(t)
    ensures var page := ListByDevice(t, device, f, cursor, limit);
      var most := if limit < 1 then 1 else if limit > 1000 then 1000 else limit;
      && |page| <= most
      && (forall i, j :: 0 <= i < j < |page| ==> page[i].id > page[j].id)
      && (forall r :: r in page ==> r in t && AskedFor(r, device, f, cursor))
      && (forall r :: r in t && AskedFor(r, device, f, cursor) && r !in page ==>
            |page| == most && forall q :: q in page ==> r.id < q.id)
  {
    var hits := Filter(Listed(device, f), t);
    var rows := Filter(Below(cursor), hits);
    FilterSorted(Listed(device, f), t);
    FilterSorted(Below(cursor), hits);
    FilterMember(Listed(device, f), t);
    FilterMember(Below(cursor), hits);
    PageOfSorted(rows, Clamp(limit));
  }

  /** The first `n` rows of a reversed sorted sequence are its newest rows. */
  lemma PageOfSorted(rows: seq<Row>, n: nat)
    requires Sorted(rows)
    ensures var page := Take(Rev(rows), n);
      && |page| <= n
      && (forall i, j :: 0 <= i < j < |page| ==> page[i].id > page[j].id)
      && (forall r :: r in page ==> r in rows)
      && (forall r :: r in rows && r !in page ==> |page| == n && forall q :: q in page ==> r.id < q.id)
  {
    var page := Take(Rev(rows), n);
    assert forall i :: 0 <= i < |page| ==> page[i] == rows[|rows| - 1 - i];
    forall k | 0 <= k < |rows| && |rows| - 1 - k < |page| ensures rows[k] in page {
      assert page[|rows| - 1 - k] == rows[k];
    }
    forall r | r in rows && r !in page
      ensures |page| == n && forall q :: q in page ==> r.id < q.id
    {
      var k :| 0 <= k < |rows| && rows[k] == r;
    }
  }

  // ---- Row ids ----------------------------------------------------------------------------------

  lemma NextRowIdAbove(t: Table)
    requires Sorted(t)
    ensures forall r :: r in t ==> r.id < NextRowId(t)
  {
    forall r | r in t ensures r.id < NextRowId(t) {
      var i :| 0 <= i < |t| && t[i] == r;
    }
  }
}
