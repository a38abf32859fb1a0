// The pusher, the REST handlers and the ack fan-in as the program runs them: loops and handlers
// over one shared store. Between any two awaits the rest of the system may take any steps; each
// method is proved to be a run of the transition system, so every invariant of it applies.
module CmdPusher {
  import opened Wrappers
  import opened Seqs
  import Outbox = CmdOutbox
  import opened CmdDelivery
  import opened CmdInvariants
  import opened CmdSafety

  type Row = Outbox.Row
  type CmdId = Outbox.CmdId

  /** `tokio::sync::Notify`: at most one stored permit. */
  class CmdNotifier {
    var permit: bool

    constructor ()
      ensures !permit
    {
      permit := false;
    }

    method NotifyOne()
      modifies this
      ensures permit
    {
      permit := true;
    }

    method TakePermit() returns (taken: bool)
      modifies this
      ensures taken == old(permit) && !permit
    {
      taken := permit;
      permit := false;
    }
  }

  /** The tables behind the connection pool. */
  class CmdStore {
    var devices: set<int>
    var table: Outbox.Table

    constructor ()
      ensures devices == {} && table == []
    {
      devices, table := {}, [];
    }

    method Enqueue(c: CmdId, device: int, topic: string, payload: string, enqueuedAt: int, expiresAt: int)
      returns (r: Result<Outbox.RowId, Outbox.EnqueueError>)
      modifies this`table
      ensures match Outbox.Enqueue(old(table), devices, c, device, topic, payload, enqueuedAt, expiresAt)
        case Ok(t') => table == t' && r == Ok(Outbox.NextRowId(old(table)))
        case Err(e) => table == old(table) && r == Err(e)
    {
      if |payload| > Outbox.PAYLOAD_CAP { return Err(Outbox.PayloadTooLarge); }
      var count := CountUnacked(device);
      if count >= Outbox.CMD_MAX_PER_DEVICE { return Err(Outbox.OutboxFull); }
      if device !in devices || c in Outbox.Ids(table) { return Err(Outbox.ConstraintViolated); }
      var id := Outbox.NextRowId(table);
      table := table + [Outbox.Fresh(table, c, device, topic, payload, enqueuedAt, expiresAt)];
      r := Ok(id);
    }

    /** SELECT COUNT(*) … WHERE device_id = ? AND ack_at IS NULL, as a scan. */
    method CountUnacked(device: int) returns (n: nat)
      ensures n == |Filter(Outbox.Unacked(device), table)|
    {
      n := 0;
      for i := 0 to |table|
        invariant n == |Filter(Outbox.Unacked(device), table[..i])|
      {
        FilterAppend(Outbox.Unacked(device), table[..i], [table[i]]);
        assert table[..i + 1] == table[..i] + [table[i]];
        if Outbox.Unacked(device)(table[i]) { n := n + 1; }
      }
      assert table[..|table|] == table;
    }

    /** SELECT … WHERE delivered_at IS NULL AND expires_at > ? ORDER BY id ASC, as a scan. */
    method ListPending(now: int) returns (rows: seq<Row>)
      ensures rows == Outbox.ListPending(table, now)
    {
      rows := [];
      for i := 0 to |table|
        invariant rows == Filter(Outbox.PendingAt(now), table[..i])
      {
        FilterAppend(Outbox.PendingAt(now), table[..i], [table[i]]);
        assert table[..i + 1] == table[..i] + [table[i]];
        if Outbox.PendingAt(now)(table[i]) { rows := rows + [table[i]]; }
      }
      assert table[..|table|] == table;
    }

    /** UPDATE … WHERE cmd_id = ? AND delivered_at IS NULL, as a scan. What a row already held of its
        delivery and ack stays; afterwards every row of the command is delivered. */
    method MarkDelivered(c: CmdId, at: int)
      modifies this`table
      ensures table == Outbox.MarkDelivered(old(table), c, at)
      ensures forall i :: 0 <= i < |table| ==>
                Evolved(old(table)[i], table[i]) && (table[i].cmdId == c ==> table[i].deliveredAt.Some?)
    {
      var rows := [];
      for i := 0 to |table|
        invariant |rows| == i && forall k :: 0 <= k < i ==> rows[k] == Outbox.MarkRow(table[k], c, at)
      {
        var r := table[i];
        if r.cmdId == c {
          if r.deliveredAt.None? {
            r := r.(deliveredAt := Some(at), attempts := r.attempts + 1);
          }
        }
        rows := rows + [r];
      }
      table := rows;
    }

    /** UPDATE … WHERE cmd_id = ?, as a scan, with the COALESCE on `delivered_at`. The last ack's time,
        result and detail are what the command's row holds; a delivery time it had stays. */
    method RecordAck(c: CmdId, result: Outbox.AckResult, detail: Option<string>, at: int) returns (hit: bool)
      modifies this`table
      ensures table == Outbox.RecordAck(old(table), c, result, detail, at)
      ensures hit <==> c in Outbox.Ids(old(table))
      ensures forall i :: 0 <= i < |table| ==>
                && Evolved(old(table)[i], table[i])
                && (table[i].cmdId == c ==>
                      table[i].ackAt == Some(at) && table[i].ackResult == Some(result) && table[i].deliveredAt.Some?)
    {
      var rows := [];
      hit := false;
      for i := 0 to |table|
        invariant |rows| == i && forall k :: 0 <= k < i ==> rows[k] == Outbox.AckRow(table[k], c, result, detail, at)
        invariant hit <==> exists k :: 0 <= k < i && table[k].cmdId == c
      {
        var r := table[i];
        if r.cmdId == c {
          hit := true;
          var delivered := if r.deliveredAt.Some? then r.deliveredAt else Some(at);
          r := r.(ackAt := Some(at), ackResult := Some(result), ackDetail := detail, deliveredAt := delivered);
        }
        rows := rows + [r];
      }
      InIdsIff(table, c);
      table := rows;
    }

    /** DELETE … WHERE cmd_id = ? AND delivered_at IS NULL, as a scan. A delivered row survives; an
        undelivered row of the command does not. */
    method Cancel(c: CmdId) returns (deleted: bool)
      modifies this`table
      ensures table == Outbox.Cancel(old(table), c)
      ensures deleted <==> Outbox.CancelHits(old(table), c)
      ensures forall r :: r in table <==> r in old(table) && (r.cmdId == c ==> r.deliveredAt.Some?)
    {
      var rows := [];
      deleted := false;
      for i := 0 to |table|
        invariant table == old(table) && rows == Filter(Not(Outbox.Cancellable(c)), table[..i])
        invariant deleted <==> exists k :: 0 <= k < i && Outbox.Cancellable(c)(table[k])
      {
        FilterAppend(Not(Outbox.Cancellable(c)), table[..i], [table[i]]);
        assert table[..i + 1] == table[..i] + [table[i]];
        var r := table[i];
        if r.cmdId == c && r.deliveredAt.None? { deleted := true; } else { rows := rows + [r]; }
      }
      assert table[..|table|] == table;
      FilterMember(Not(Outbox.Cancellable(c)), table);
      HitsIff(table, c);
      table := rows;
    }
  }

  lemma InIdsIff(t: Outbox.Table, c: CmdId)
    ensures c in Outbox.Ids(t) <==> exists k :: 0 <= k < |t| && t[k].cmdId == c
  {
    if k :| 0 <= k < |t| && t[k].cmdId == c {
      assert t[k] in t;
    }
  }

  lemma HitsIff(t: Outbox.Table, c: CmdId)
    ensures Outbox.CancelHits(t, c) <==> exists k :: 0 <= k < |t| && Outbox.Cancellable(c)(t[k])
  {
    if k :| 0 <= k < |t| && Outbox.Cancellable(c)(t[k]) {
      assert t[k] in t;
    }
  }

  datatype LookupOutcome = Found | LookupFailed | LookupPanicked

  datatype MarkOutcome = Marked | MarkFailed | MarkPanicked

  /** What the world does around one row of a drain. The mark's clock is read after `beforeClock`. */
  datatype RowPlan = RowPlan(
    beforeLookup: seq<Label>, lookup: LookupOutcome,
    beforePut: seq<Label>, putOk: bool,
    beforeClock: seq<Label>, beforeMark: seq<Label>, mark: MarkOutcome)

  datatype CancelReply = NoContent | NotFound

  /** Steps of everyone but the pusher. */
  predicate FromOutside(l: Label) {
    l.Tick? || l.CreateDevice? || l.DeleteDevice? || l.Send? || l.Notify? || l.Ack? || l.CancelCmd?
  }

  /** Steps of the pusher. */
  predicate FromPusher(l: Label) {
    !FromOutside(l) && l != Restart
  }

  predicate AllOutside(ls: seq<Label>) {
    forall l :: l in ls ==> FromOutside(l)
  }

  /** Anything at all except the end of the process. */
  predicate NoRestart(ls: seq<Label>) {
    Restart !in ls
  }

  predicate PlanOk(p: RowPlan) {
    AllOutside(p.beforeLookup) && AllOutside(p.beforePut) && AllOutside(p.beforeClock) && AllOutside(p.beforeMark)
  }

  /** A cancel that deletes nothing leaves the table as it is. */
  lemma MissIsNoOp(t: Outbox.Table)
    ensures forall c :: !Outbox.CancelHits(t, c) ==> Outbox.Cancel(t, c) == t
  {
    forall c | !Outbox.CancelHits(t, c) ensures Outbox.Cancel(t, c) == t {
      FilterAll(Not(Outbox.Cancellable(c)), t);
    }
  }

  lemma ClockRead(s: State)
    requires s.pusher.Starting?
    ensures Apply(s, ReadClock) == s.(pusher := Clocked(s.now))
  {
  }

  lemma SnapshotTaken(s: State, ok: bool)
    requires s.pusher.Clocked?
    ensures Apply(s, Snapshot(ok)) == s.(
              pusher := if ok then Sending(Outbox.ListPending(s.table, s.pusher.t)) else Parked,
              missed := {}, snapshotFailed := !ok)
  {
    hide Outbox.ListPending;
  }

  /** No failure is on record that was not before. */
  predicate NoNewFault(s: State, s': State) {
    s'.skips == s.skips && s'.markFailed == s.markFailed
  }

  lemma LookedUp(s: State, ok: bool)
    requires s.pusher.Sending? && s.pusher.todo != []
    ensures var s', row, rest := Apply(s, FindDevice(ok)), s.pusher.todo[0], s.pusher.todo[1..];
      && s'.pusher == (if ok && row.device in s.devices then Routed(row, rest) else Sending(rest))
      && s'.published == s.published && s.missed <= s'.missed && s'.table == s.table && s'.devices == s.devices
      && s'.markFailed == s.markFailed && s'.skips == (if ok then s.skips else s.skips + 1)
      && (s'.pusher.Sending? ==> row.cmdId in s'.missed)
      && (s'.pusher.Routed? ==> s'.missed == s.missed)
  {
  }

  lemma PutTaken(s: State, ok: bool)
    requires s.pusher.Routed?
    ensures var s', row := Apply(s, Put(ok)), s.pusher.row;
      && s'.pusher == (if ok then Marking(row, s.pusher.rest) else Sending(s.pusher.rest))
      && s'.published == (if ok then s.published + [row.cmdId] else s.published)
      && s.missed <= s'.missed && (!ok ==> row.cmdId in s'.missed) && (ok ==> s'.missed == s.missed)
      && s'.table == s.table && s'.devices == s.devices
      && s'.markFailed == s.markFailed && s'.skips == (if ok then s.skips else s.skips + 1)
  {
  }

  lemma MarkTaken(s: State, ok: bool, at: int)
    requires s.pusher.Marking? && at <= s.now
    ensures var s', c := Apply(s, Mark(ok, at)), s.pusher.row.cmdId;
      && s'.pusher == Sending(s.pusher.rest) && s'.published == s.published && s.missed <= s'.missed
      && s'.devices == s.devices && s'.skips == s.skips && s'.now == s.now && (ok ==> s'.missed == s.missed)
      && s'.markFailed == (if ok then s.markFailed else s.markFailed + [c])
      && (ok ==> Delivered(s'.table, c) && MarkedAt(s.table, s'.table, c, at))
      && (!ok ==> s'.table == s.table)
  {
    hide Outbox.CancelHits;
  }

  // ---- what marking leaves behind ---------------------------------------------------------------------

  /** No row of `c` is waiting for delivery. */
  predicate Delivered(t: Outbox.Table, c: CmdId) {
    forall r :: r in t && r.cmdId == c ==> r.deliveredAt.Some?
  }

  /** The undelivered rows of `c` were given this delivery time and one attempt more; no other row changed. */
  predicate MarkedAt(t: Outbox.Table, t': Outbox.Table, c: CmdId, at: int) {
    && |t'| == |t|
    && forall i :: 0 <= i < |t| ==>
         t'[i] == if t[i].cmdId == c && t[i].deliveredAt.None?
                  then t[i].(deliveredAt := Some(at), attempts := t[i].attempts + 1) else t[i]
  }

  /** A row that nobody has acked is as the pusher last left it. */
  lemma OutsideKeepsUnacked(s: State, l: Label, r': Row)
    requires FromOutside(l) && r' in Apply(s, l).table && r'.cmdId in s.born && r'.ackAt.None?
    ensures r' in s.table
  {
    hide Outbox.ListPending, Outbox.MarkDelivered, Outbox.CancelHits, Outbox.Ids;
    match l {
      case DeleteDevice(d) => FilterMember(Not(Outbox.OwnedBy(d)), s.table);
      case CancelCmd(c) => FilterMember(Not(Outbox.Cancellable(c)), s.table);
      case Send(_, _, _, _, _, _) => SendEvolves(s, l, r');
      case Ack(_, _, _) =>
        var t' := Apply(s, l).table;
        var i :| 0 <= i < |t'| && t'[i] == r';
      case _ =>
    }
  }

  lemma {:induction false} OutsideRunKeepsUnacked(s: State, ls: seq<Label>, r': Row)
    requires AllOutside(ls) && r' in Run(s, ls).table && r'.cmdId in s.born && r'.ackAt.None?
    ensures r' in s.table
    decreases |ls|
  {
    hide Apply;
    if ls != [] {
      var n := |ls| - 1;
      BornGrowsRun(s, ls[..n]);
      assert ls[n] in ls && forall l :: l in ls[..n] ==> l in ls;
      OutsideKeepsUnacked(Run(s, ls[..n]), ls[n], r');
      OutsideRunKeepsUnacked(s, ls[..n], r');
    }
  }

  /** Once delivered, whatever happens. */
  lemma {:induction false} DeliveredStays(s: State, ls: seq<Label>, c: CmdId)
    requires c in s.born && Delivered(s.table, c)
    ensures Delivered(Run(s, ls).table, c)
    decreases |ls|
  {
    hide Apply;
    if ls != [] {
      var n := |ls| - 1;
      var mid := Run(s, ls[..n]);
      DeliveredStays(s, ls[..n], c);
      BornGrowsRun(s, ls[..n]);
      forall r' | r' in Run(s, ls).table && r'.cmdId == c ensures r'.deliveredAt.Some? {
        StepEvolves(mid, ls[n], r');
        var r :| r in mid.table && Evolved(r, r');
      }
    }
  }

  /** A row of a known command still describes it. */
  lemma {:induction false} SameCmdStays(s: State, ls: seq<Label>, r': Row)
    requires r' in Run(s, ls).table && r'.cmdId in s.born
    ensures exists r :: r in s.table && SameCmd(r, r')
    decreases |ls|
  {
    hide Apply;
    if ls == [] {
      assert SameCmd(r', r');
    } else {
      var n := |ls| - 1;
      BornGrowsRun(s, ls[..n]);
      StepEvolves(Run(s, ls[..n]), ls[n], r');
      var q :| q in Run(s, ls[..n]).table && Evolved(q, r');
      SameCmdStays(s, ls[..n], q);
      var r :| r in s.table && SameCmd(r, q);
      assert SameCmd(r, r');
    }
  }

  lemma DrainEnds(s: State, l: Label)
    requires l == Finish || l == Abort
    requires s.pusher.Sending? || s.pusher.Marking?
    requires l == Finish ==> s.pusher == Sending([])
    requires l == Abort ==> s.pusher != Sending([])
    ensures var s' := Apply(s, l);
      s'.pusher == Parked && s'.published == s.published && s.missed <= s'.missed
  {
    hide Outbox.Ids;
  }

  lemma AbortFails(s: State)
    requires s.pusher.Marking?
    ensures var s' := Apply(s, Abort);
      s'.markFailed == s.markFailed + [s.pusher.row.cmdId] && s'.devices == s.devices
  {
    hide Outbox.Ids;
  }

  lemma FinishIsQuiet(s: State)
    requires s.pusher == Sending([])
    ensures Apply(s, Finish) == s.(pusher := Parked)
  {
  }

  /** What a successful mark within `lo..hi` may have done to an un-acked row of `c`. */
  predicate MarkedSince(t: Outbox.Table, t': Outbox.Table, c: CmdId, lo: int, hi: int) {
    forall r' :: r' in t' && r'.cmdId == c && r'.ackAt.None? ==>
      r'.deliveredAt.Some? &&
      (r' in t || (lo <= r'.deliveredAt.value <= hi &&
                   exists r :: r in t && r.deliveredAt.None? &&
                     r' == r.(deliveredAt := r'.deliveredAt, attempts := r.attempts + 1)))
  }

  /** Un-acked rows of `c` are rows of the earlier table. */
  predicate UnackedFrom(t: Outbox.Table, t': Outbox.Table, c: CmdId) {
    forall r' :: r' in t' && r'.cmdId == c && r'.ackAt.None? ==> r' in t
  }

  lemma FromMember(t: Outbox.Table, t': Outbox.Table, c: CmdId, r: Row)
    requires UnackedFrom(t, t', c) && r in t' && r.cmdId == c && r.ackAt.None?
    ensures r in t
  {
  }

  lemma UnackedKept(s: State, acts: seq<Label>, t': Outbox.Table, c: CmdId)
    requires AllOutside(acts) && c in s.born && t' == Run(s, acts).table
    ensures UnackedFrom(s.table, t', c)
  {
    forall r' | r' in t' && r'.cmdId == c && r'.ackAt.None? ensures r' in s.table {
      OutsideRunKeepsUnacked(s, acts, r');
    }
  }

  lemma MarkSettles(s: State, acts: seq<Label>, mid: State, t': Outbox.Table, c: CmdId, at: int)
    requires AllOutside(acts) && c in s.born && mid == Run(s, acts) && s.now <= at <= mid.now
    requires MarkedAt(mid.table, t', c, at) && Delivered(t', c)
    ensures MarkedSince(s.table, t', c, s.now, mid.now)
  {
    hide Run, UnackedFrom;
    UnackedKept(s, acts, mid.table, c);
    forall r' | r' in t' && r'.cmdId == c && r'.ackAt.None?
      ensures r'.deliveredAt.Some?
      ensures r' in s.table || (s.now <= r'.deliveredAt.value <= mid.now &&
                exists r :: r in s.table && r.deliveredAt.None? &&
                  r' == r.(deliveredAt := r'.deliveredAt, attempts := r.attempts + 1))
    {
      var i :| 0 <= i < |t'| && t'[i] == r';
      var r := mid.table[i];
      assert r in mid.table && r.cmdId == c && r.ackAt.None?;
      FromMember(s.table, mid.table, c, r);
    }
  }

  /** What marking did since a later table it did since an earlier one. */
  lemma MarkedEarlier(t0: Outbox.Table, t1: Outbox.Table, t2: Outbox.Table, t: Outbox.Table, c: CmdId, lo: int,
                      mid: int, hi: int)
    requires UnackedFrom(t0, t1, c) && UnackedFrom(t1, t2, c) && lo <= mid
    requires exists from :: mid <= from && MarkedSince(t2, t, c, from, hi)
    ensures MarkedSince(t0, t, c, lo, hi)
  {
    var from :| mid <= from && MarkedSince(t2, t, c, from, hi);
    forall r' | r' in t && r'.cmdId == c && r'.ackAt.None?
      ensures r'.deliveredAt.Some?
      ensures r' in t0 || (lo <= r'.deliveredAt.value <= hi &&
                exists r :: r in t0 && r.deliveredAt.None? &&
                  r' == r.(deliveredAt := r'.deliveredAt, attempts := r.attempts + 1))
    {
      if r' !in t2 {
        var r :| r in t2 && r.deliveredAt.None? && r' == r.(deliveredAt := r'.deliveredAt, attempts := r.attempts + 1);
        assert r.cmdId == c && r.ackAt.None? && r in t1 && r in t0;
      }
    }
  }

  lemma HeldAreBorn(s: State, rows: seq<Row>)
    requires Inv(s) && s.pusher == Sending(rows)
    ensures forall r :: r in rows ==> r.cmdId in s.born
  {
    hide BirthsOk, InBirthOrder, Registered, ViewOf, RowsAgree, Accounted, Mentioned, PusherOk;
  }

  lemma HeldFirst(s: State, row: Row, rest: seq<Row>)
    requires Inv(s) && s.pusher == Sending([row] + rest)
    ensures row.cmdId in s.born
  {
    hide Inv;
    HeldAreBorn(s, [row] + rest);
    assert row in [row] + rest;
  }

  lemma HeldIsKnown(s: State, row: Row, rest: seq<Row>)
    requires Inv(s) && s.pusher == Marking(row, rest)
    ensures row.cmdId in s.born
  {
    hide BirthsOk, InBirthOrder, Registered, ViewOf, RowsAgree, Accounted, Mentioned, PusherOk;
    assert row in InFlight(s.pusher);
  }

  lemma KnownStays(m0: State, seg0: seq<Label>, seg: seq<Label>, c: CmdId)
    requires seg0 <= seg && c in Run(m0, seg0).born
    ensures c in Run(m0, seg).born
  {
    hide Run;
    RunAppend(m0, seg0, seg[|seg0|..]);
    assert seg0 + seg[|seg0|..] == seg;
    BornGrowsRun(Run(m0, seg0), seg[|seg0|..]);
  }

  /** The row's command goes on the wire. */
  predicate GoesOut(p: RowPlan, row: Row, s: State) {
    p.lookup == Found && row.device in Run(s, p.beforeLookup).devices && p.putOk
  }

  /** Nothing fails in any of the plans. */
  predicate Smooth(plans: seq<RowPlan>) {
    forall p :: p in plans ==> p.lookup == Found && p.putOk && p.mark == Marked
  }

  predicate KeepsDevice(p: RowPlan, d: int) {
    DeleteDevice(d) !in p.beforeLookup + p.beforePut + p.beforeClock + p.beforeMark
  }

  /** No device of these rows is deleted while the plans run. */
  predicate KeepDevices(plans: seq<RowPlan>, rows: seq<Row>) {
    forall p, r :: p in plans && r in rows ==> KeepsDevice(p, r.device)
  }

  function CmdIds(rows: seq<Row>): (cs: seq<CmdId>)
    ensures |cs| == |rows| && forall i :: 0 <= i < |rows| ==> cs[i] == rows[i].cmdId
  {
    seq(|rows|, i requires 0 <= i < |rows| => rows[i].cmdId)
  }

  lemma NoIds()
    ensures CmdIds([]) == []
  {
  }

  lemma IdsSnoc(rows: seq<Row>, i: nat)
    requires i < |rows|
    ensures CmdIds(rows[..i + 1]) == CmdIds(rows[..i]) + [rows[i].cmdId]
  {
  }

  /** The rows pending at an instant, in rowid order. */
  ghost predicate PendingRows(t: Outbox.Table, now: int, rows: seq<Row>) {
    && Outbox.Sorted(rows)
    && forall r :: r in rows <==> r in t && r.deliveredAt.None? && r.expiresAt > now
  }

  lemma PendingMeans(s: State, t: int)
    requires Inv(s)
    ensures PendingRows(s.table, t, Outbox.ListPending(s.table, t))
    ensures Registered(s.devices, Outbox.ListPending(s.table, t))
  {
    hide BirthsOk, InBirthOrder, OwnersOk, ViewOf, RowsAgree, Accounted, Mentioned, PusherOk;
    FilterMember(Outbox.PendingAt(t), s.table);
    Outbox.FilterSorted(Outbox.PendingAt(t), s.table);
  }

  /** A row that went out was marked as its plan says, and its device lookup and put left nothing behind. */
  predicate RowDone(plan: RowPlan, row: Row, s: State, s': State) {
    && s'.markFailed == s.markFailed + (if plan.mark == Marked then [] else [row.cmdId])
    && (plan.mark == Marked ==>
          && Delivered(s'.table, row.cmdId) && NoNewFault(s, s') && s'.missed == s.missed
          && MarkedSince(s.table, s'.table, row.cmdId, s.now, s'.now))
    && forall d :: d in s.devices && KeepsDevice(plan, d) ==> d in s'.devices
  }

  lemma RowIsDone(plan: RowPlan, row: Row, s0: State, s1: State, s2: State, s: State)
    requires PlanOk(plan) && row.cmdId in s0.born && row.cmdId in s1.born && s0.now <= s1.now <= s2.now
    requires s1.table == Run(s0, plan.beforeLookup).table && s2.table == Run(s1, plan.beforePut).table
    requires NoNewFault(s0, s1) && NoNewFault(s1, s2) && s1.missed == s0.missed && s2.missed == s1.missed
    requires s.markFailed == s2.markFailed + if plan.mark == Marked then [] else [row.cmdId]
    requires plan.mark == Marked ==>
      && Delivered(s.table, row.cmdId) && NoNewFault(s2, s) && s.missed == s2.missed
      && MarkedSince(s2.table, s.table, row.cmdId, s2.now, s.now)
    requires forall d :: d in s0.devices && DeleteDevice(d) !in plan.beforeLookup ==> d in s1.devices
    requires forall d :: d in s1.devices && DeleteDevice(d) !in plan.beforePut ==> d in s2.devices
    requires forall d :: d in s2.devices && DeleteDevice(d) !in plan.beforeClock + plan.beforeMark ==> d in s.devices
    ensures RowDone(plan, row, s0, s)
  {
    hide Run, Delivered, MarkedSince;
    UnackedKept(s0, plan.beforeLookup, s1.table, row.cmdId);
    UnackedKept(s1, plan.beforePut, s2.table, row.cmdId);
    if plan.mark == Marked { MarkedEarlier(s0.table, s1.table, s2.table, s.table, row.cmdId, s0.now, s2.now, s.now); }
    forall d | d in s0.devices && KeepsDevice(plan, d) ensures d in s.devices {
    }
  }

  /** The first `n` listed rows went on the wire in order and are delivered, without a failure. */
  predicate AllSent(listed: seq<Row>, n: nat, s0: State, s: State)
    requires n <= |listed|
  {
    && s.published == s0.published + CmdIds(listed[..n]) && NoNewFault(s0, s) && s.missed == s0.missed
    && Registered(s.devices, listed)
    && forall k :: 0 <= k < n ==> Delivered(s.table, listed[k].cmdId)
  }

  lemma AllSentMeans(listed: seq<Row>, s0: State, s: State)
    requires AllSent(listed, |listed|, s0, s)
    ensures s.published == s0.published + CmdIds(listed) && NoNewFault(s0, s) && s.missed == s0.missed
    ensures forall r :: r in listed ==> Delivered(s.table, r.cmdId)
  {
    assert listed[..|listed|] == listed;
  }

  lemma NoneSent(listed: seq<Row>, s: State)
    requires Registered(s.devices, listed)
    ensures AllSent(listed, 0, s, s)
  {
    assert CmdIds(listed[..0]) == [];
  }

  lemma SentAndDone(listed: seq<Row>, s0: State, s: State)
    requires AllSent(listed, |listed|, s0, s) && s.pusher == Sending([])
    ensures AllSent(listed, |listed|, s0, Apply(s, Finish))
  {
    hide Apply, Registered, Delivered;
    FinishIsQuiet(s);
  }

  lemma SmoothRow(plans: seq<RowPlan>, plan: RowPlan, i: nat, listed: seq<Row>, s0: State, s: State)
    requires Smooth(plans) && KeepDevices(plans, listed) && i < |listed| && AllSent(listed, i, s0, s)
    requires forall p :: p in plans ==> PlanOk(p)
    requires plan == if i < |plans| then plans[i] else RowPlan([], Found, [], true, [], [], Marked)
    ensures plan.lookup == Found && plan.putOk && plan.mark == Marked && GoesOut(plan, listed[i], s)
    ensures forall r :: r in listed ==> KeepsDevice(plan, r.device)
  {
    assert i < |plans| ==> plan in plans;
    assert listed[i] in listed;
    OutsideKeepsDevice(s, plan.beforeLookup, listed[i].device);
  }

  lemma OneMoreSent(plans: seq<RowPlan>, plan: RowPlan, listed: seq<Row>, i: nat, s0: State, m0: State,
                    seg0: seq<Label>, seg: seq<Label>, seg': seq<Label>)
    requires i < |listed| && seg0 <= seg <= seg' && s0 == Run(m0, seg0)
    requires forall r :: r in listed ==> r.cmdId in s0.born
    requires forall r :: r in listed ==> KeepsDevice(plan, r.device)
    requires plan.mark == Marked && AllSent(listed, i, s0, Run(m0, seg))
    requires RowDone(plan, listed[i], Run(m0, seg), Run(m0, seg'))
    requires Run(m0, seg').published == Run(m0, seg).published + [listed[i].cmdId]
    ensures AllSent(listed, i + 1, s0, Run(m0, seg'))
  {
    hide Run, Delivered, MarkedSince, KeepsDevice;
    IdsSnoc(listed, i);
    EarlierStayDelivered(m0, seg0, seg, seg', listed, i, s0.born);
    StillRegistered(plan, listed, Run(m0, seg).devices, Run(m0, seg').devices);
  }

  lemma {:induction false} OutsideKeepsDevice(s: State, acts: seq<Label>, d: int)
    requires AllOutside(acts) && DeleteDevice(d) !in acts && d in s.devices
    ensures d in Run(s, acts).devices
    decreases |acts|
  {
    hide Apply;
    if acts != [] {
      var n := |acts| - 1;
      assert acts[n] in acts && forall l :: l in acts[..n] ==> l in acts;
      OutsideKeepsDevice(s, acts[..n], d);
      StepKeepsDevice(Run(s, acts[..n]), acts[n], d);
    }
  }

  lemma StepKeepsDevice(s: State, l: Label, d: int)
    requires l != DeleteDevice(d) && d in s.devices
    ensures d in Apply(s, l).devices
  {
    hide Outbox.ListPending, Outbox.MarkDelivered, Outbox.CancelHits, Outbox.Ids;
  }

  lemma StillRegistered(plan: RowPlan, rows: seq<Row>, devices: set<int>, devices': set<int>)
    requires Registered(devices, rows) && forall r :: r in rows ==> KeepsDevice(plan, r.device)
    requires forall d :: d in devices && KeepsDevice(plan, d) ==> d in devices'
    ensures Registered(devices', rows)
  {
    hide KeepsDevice;
  }

  /** Rows delivered before one more was processed still are. */
  lemma EarlierStayDelivered(m0: State, seg0: seq<Label>, seg: seq<Label>, seg': seq<Label>, rows: seq<Row>, i: nat,
                             born: map<CmdId, Birth>)
    requires seg0 <= seg <= seg' && i <= |rows| && born == Run(m0, seg0).born
    requires forall r :: r in rows ==> r.cmdId in born
    requires forall k :: 0 <= k < i ==> Delivered(Run(m0, seg).table, rows[k].cmdId)
    ensures forall k :: 0 <= k < i ==> Delivered(Run(m0, seg').table, rows[k].cmdId)
  {
    hide Run, Delivered;
    RunAppend(m0, seg, seg'[|seg|..]);
    assert seg + seg'[|seg|..] == seg';
    forall k | 0 <= k < i ensures Delivered(Run(m0, seg').table, rows[k].cmdId) {
      assert rows[k] in rows;
      KnownStays(m0, seg0, seg, rows[k].cmdId);
      DeliveredStays(Run(m0, seg), seg'[|seg|..], rows[k].cmdId);
    }
  }

  /** The reply to a send with a topic, from its payload and what the history says of the device. */
  predicate ReplyIs(r: SendReply, s: State, device: int, payload: string) {
    var full, known := |Outstanding(s, device)| >= 1000, device in s.devices;
    && (r == Refused(Outbox.PayloadTooLarge) <==> |payload| > 65536)
    && (r == Refused(Outbox.OutboxFull) <==> |payload| <= 65536 && full)
    && (r == Refused(Outbox.ConstraintViolated) <==> |payload| <= 65536 && !full && !known)
    && (r == Accepted <==> |payload| <= 65536 && !full && known)
  }

  /** The row holds what was sent: a missing TTL is a week, one below a millisecond is a millisecond, and
      the expiry stops at the last i64 instant. */
  predicate StoresSend(q: Row, send: Label)
    requires send.Send?
  {
    && q.cmdId == send.c && q.device == send.device && q.topic == send.topic && q.payload == send.payload
    && q.enqueuedAt == send.at && ExpiresAt(send.at, send.ttl, q.expiresAt)
  }

  /** One row more, at the end, un-acked and undelivered, with a rowid above all others. */
  predicate Appended(t: Outbox.Table, t': Outbox.Table, send: Label)
    requires send.Send?
  {
    && |t'| == |t| + 1 && t'[..|t|] == t
    && var q := t'[|t|];
       && StoresSend(q, send) && q.attempts == 0
       && q.deliveredAt.None? && q.ackAt.None? && q.ackResult.None? && q.ackDetail.None?
       && forall r :: r in t ==> r.id < q.id
  }

  /** What the count and the constraint check see, from the history. */
  lemma HistorySeen(s: State, c: CmdId, device: int)
    requires Inv(s) && c !in s.born
    ensures |Filter(Outbox.Unacked(device), s.table)| == |Outstanding(s, device)|
    ensures c !in Outbox.Ids(s.table) && Outbox.Sorted(s.table)
    ensures forall q :: q in s.table ==> q.cmdId != c
  {
    OutstandingIsUnacked(s, device);
    Outbox.UnackedCount(s.table, device);
    hide Filter, RowsAgree, BirthsOk, InBirthOrder, Registered, ViewOf, Mentioned, PusherOk, Outstanding;
  }

  lemma EnqueueReplies(s: State, c: CmdId, device: int, topic: string, payload: string, at: int, ttl: Option<int>)
    requires Inv(s) && c !in s.born
    ensures var e := Outbox.Enqueue(s.table, s.devices, c, device, topic, payload, at, ExpiryOf(at, ttl));
      ReplyIs(if e.Ok? then Accepted else Refused(e.error), s, device, payload)
  {
    hide Inv, Filter, Outstanding, ExpiryOf;
    HistorySeen(s, c, device);
  }

  lemma SendIsStep(s: State, c: CmdId, device: int, topic: string, payload: string, at: int, ttl: Option<int>)
    requires c !in s.born && topic != "" && at <= s.now
    ensures var s' := Apply(s, Send(c, device, topic, payload, at, ttl));
      match Outbox.Enqueue(s.table, s.devices, c, device, topic, payload, at, ExpiryOf(at, ttl))
      case Err(_) => s' == s
      case Ok(t') =>
        && s' == s.(table := t', born := s'.born, births := s.births + 1, unnotified := s.unnotified + {c})
        && s'.born.Keys == s.born.Keys + {c}
  {
    hide Outbox.Enqueue, ExpiryOf, Outbox.NextRowId;
  }

  lemma EnqueueAppends(t: Outbox.Table, devices: set<int>, c: CmdId, device: int, topic: string, payload: string,
                       at: int, ttl: Option<int>)
    requires Outbox.Sorted(t) && forall q :: q in t ==> q.cmdId != c
    ensures var e := Outbox.Enqueue(t, devices, c, device, topic, payload, at, ExpiryOf(at, ttl));
      var send := Send(c, device, topic, payload, at, ttl);
      e.Ok? ==> Appended(t, e.value, send) && forall q :: q in e.value && q.cmdId == c ==> StoresSend(q, send)
  {
    Outbox.NextRowIdAbove(t);
    ExpiryIsAsked(at, ttl);
    hide Filter, ExpiryOf;
  }

  lemma CommitFacts(s: State, c: CmdId, device: int, topic: string, payload: string, at: int, ttl: Option<int>)
    requires Inv(s) && c !in s.born && topic != "" && at <= s.now
    ensures var send := Send(c, device, topic, payload, at, ttl);
      match Outbox.Enqueue(s.table, s.devices, c, device, topic, payload, at, ExpiryOf(at, ttl))
      case Err(e) => ReplyIs(Refused(e), s, device, payload)
      case Ok(t') =>
        && ReplyIs(Accepted, s, device, payload) && Appended(s.table, t', send)
        && (forall q :: q in t' && q.cmdId == c ==> StoresSend(q, send))
        && Inv(Apply(s, send)) && Apply(s, send).born.Keys == s.born.Keys + {c}
        && Apply(s, send) ==
           s.(table := t', born := Apply(s, send).born, births := s.births + 1, unnotified := s.unnotified + {c})
  {
    hide Inv, Apply, ReplyIs, Appended, StoresSend, Outbox.Enqueue, ExpiryOf;
    EnqueueReplies(s, c, device, topic, payload, at, ttl);
    HistorySeen(s, c, device);
    EnqueueAppends(s.table, s.devices, c, device, topic, payload, at, ttl);
    SendIsStep(s, c, device, topic, payload, at, ttl);
    StepInv(s, Send(c, device, topic, payload, at, ttl));
  }

  lemma StoresSendStays(s: State, ls: seq<Label>, send: Label)
    requires send.Send? && send.c in s.born
    requires forall q :: q in s.table && q.cmdId == send.c ==> StoresSend(q, send)
    ensures forall q :: q in Run(s, ls).table && q.cmdId == send.c ==> StoresSend(q, send)
  {
    hide Run;
    forall q | q in Run(s, ls).table && q.cmdId == send.c ensures StoresSend(q, send) {
      SameCmdStays(s, ls, q);
      var r :| r in s.table && SameCmd(r, q);
    }
  }

  class Gateway {
    const store: CmdStore
    const notifier: CmdNotifier
    var now: int
    var wire: seq<CmdId>     // what `session.put` accepted, in order
    var uuids: set<CmdId>    // command ids of committed sends; a new v4 UUID is none of them
    var senders: set<CmdId>  // handlers between their commit and their notify
    var pusher: Pusher       // where the pusher stands, with its locals
    ghost var model: State

    ghost predicate Valid()
      reads this, store, notifier
    {
      && Inv(model)
      && model.table == store.table && model.devices == store.devices
      && model.permit == notifier.permit && model.now == now && model.published == wire
      && model.born.Keys == uuids && model.unnotified == senders && model.pusher == pusher
    }

    constructor ()
      ensures Valid() && model == Init() && fresh(store) && fresh(notifier)
    {
      store := new CmdStore();
      notifier := new CmdNotifier();
      now, wire, uuids, senders, pusher, model := 0, [], {}, {}, Starting, Init();
      new;
      InitInv();
    }

    /** One step of a sender, an operator, a device, the ack fan-in or the clock. */
    method OutsideStep(l: Label)
      requires Valid() && FromOutside(l)
      modifies this, store, notifier
      ensures Valid() && model == Apply(old(model), l)
      ensures pusher == old(pusher) && wire == old(wire) && old(now) <= now
      ensures model.missed == old(model.missed) && NoNewFault(old(model), model)
      ensures forall d :: d in old(model).devices && l != DeleteDevice(d) ==> d in model.devices
    {
      hide Inv;
      StepInv(model, l);
      ghost var before := model;
      model := Apply(model, l);
      MissIsNoOp(before.table);
      match l {
        case Tick(dt) => now := now + dt;
        case CreateDevice(d) => store.devices := store.devices + {d};
        case DeleteDevice(d) =>
          store.devices := store.devices - {d};
          store.table := Outbox.Cascade(store.table, d);
        case Send(c, d, topic, payload, at, ttl) =>
          if topic != "" && at <= now && c !in uuids {
            var r := store.Enqueue(c, d, topic, payload, at, ExpiryOf(at, ttl));
            if r.Ok? {
              uuids, senders := uuids + {c}, senders + {c};
            }
          }
        case Notify(c) =>
          if c in senders {
            senders := senders - {c};
            notifier.NotifyOne();
          }
        case Ack(key, body, at) =>
          if key.Some? && body.Some? && body.value.cmdId == key.value && at <= now {
            var hit := store.RecordAck(key.value, body.value.result, body.value.detail, at);
          }
        case CancelCmd(c) =>
          var deleted := store.Cancel(c);
      }
    }

    /** One step of the pusher: what it does to the shared fields between two awaits. */
    method PusherStep(l: Label)
      requires Valid() && FromPusher(l)
      modifies this, store, notifier
      ensures Valid() && model == Apply(old(model), l)
    {
      hide Inv, Outbox.ListPending, Outbox.MarkDelivered, Outbox.CancelHits, Outbox.Ids;
      StepInv(model, l);
      model := Apply(model, l);
      match (l, pusher) {
        case (Wake, Parked) =>
          var taken := notifier.TakePermit();
          if taken { pusher := Starting; }
        case (Timeout, Parked) => pusher := Starting;
        case (ReadClock, Starting) => pusher := Clocked(now);
        case (Snapshot(ok), Clocked(t)) =>
          var rows := store.ListPending(t);
          pusher := if ok then Sending(rows) else Parked;
        case (FindDevice(ok), Sending(todo)) =>
          if todo != [] {
            pusher := if ok && todo[0].device in store.devices then Routed(todo[0], todo[1..]) else Sending(todo[1..]);
          }
        case (Put(ok), Routed(row, rest)) =>
          if ok { wire := wire + [row.cmdId]; }
          pusher := if ok then Marking(row, rest) else Sending(rest);
        case (Mark(ok, at), Marking(row, rest)) =>
          if ok && at <= now { store.MarkDelivered(row.cmdId, at); }
          if !ok || at <= now { pusher := Sending(rest); }
        case (Finish, Sending(todo)) => if todo == [] { pusher := Parked; }
        case (Abort, Sending(todo)) => if todo != [] { pusher := Parked; }
        case (Abort, Marking(_, _)) => pusher := Parked;
        case _ =>
      }
    }

    /** Any steps at all, of anyone. */
    method Interfere(acts: seq<Label>)
      requires Valid() && NoRestart(acts)
      modifies this, store, notifier
      ensures Valid() && model == Run(old(model), acts)
    {
      hide Inv, Apply;
      for i := 0 to |acts|
        invariant Valid() && model == Run(old(model), acts[..i])
      {
        assert acts[..i + 1] == acts[..i] + [acts[i]];
        RunSnoc(old(model), acts[..i], acts[i]);
        if FromOutside(acts[i]) { OutsideStep(acts[i]); } else { PusherStep(acts[i]); }
      }
      assert acts[..|acts|] == acts;
    }

    /** The process dies and is started again over the same database. */
    method CrashAndRestart()
      requires Valid()
      modifies this, notifier
      ensures Valid() && model == Apply(old(model), Restart)
      ensures pusher == Starting && store.table == old(store.table) && wire == old(wire)
    {
      hide Inv;
      StepInv(model, Restart);
      model := Apply(model, Restart);
      notifier.permit := false;
      senders, pusher := {}, Starting;
    }

    /** While the pusher waits: any steps of everyone else. */
    method Pause(acts: seq<Label>, ghost m0: State, ghost seg: seq<Label>) returns (ghost seg': seq<Label>)
      requires Valid() && AllOutside(acts) && model == Run(m0, seg)
      modifies this, store, notifier
      ensures Valid() && seg' == seg + acts && model == Run(m0, seg') && model == Run(old(model), acts)
      ensures pusher == old(pusher) && wire == old(wire) && model.missed == old(model.missed) && old(now) <= now
      ensures NoNewFault(old(model), model)
      ensures forall d :: d in old(model).devices && DeleteDevice(d) !in acts ==> d in model.devices
    {
      hide Inv, Apply;
      assert seg + acts[..0] == seg;
      for i := 0 to |acts|
        invariant Valid() && model == Run(m0, seg + acts[..i])
        invariant pusher == old(pusher) && wire == old(wire) && model.missed == old(model.missed) && old(now) <= now
        invariant NoNewFault(old(model), model)
        invariant forall d :: d in old(model).devices && DeleteDevice(d) !in acts ==> d in model.devices
      {
        assert seg + acts[..i + 1] == seg + acts[..i] + [acts[i]];
        RunSnoc(m0, seg + acts[..i], acts[i]);
        OutsideStep(acts[i]);
      }
      assert acts[..|acts|] == acts;
      seg' := seg + acts;
      RunAppend(m0, seg, acts);
    }

    /** The pusher's next step, recorded in its trace. */
    method Advance(l: Label, ghost m0: State, ghost seg: seq<Label>) returns (ghost seg': seq<Label>)
      requires Valid() && FromPusher(l) && model == Run(m0, seg)
      modifies this, store, notifier
      ensures Valid() && model == Apply(old(model), l) && seg' == seg + [l] && model == Run(m0, seg')
      ensures old(now) <= now
    {
      hide Inv, Apply;
      RunSnoc(m0, seg, l);
      ClockStep(model, l);
      PusherStep(l);
      seg' := seg + [l];
    }

    /** Device lookup for one row. */
    method FindDeviceOf(row: Row, ghost rest: seq<Row>, plan: RowPlan, ghost m0: State, ghost seg0: seq<Label>)
      returns (found: bool, ghost seg: seq<Label>)
      requires Valid() && pusher == Sending([row] + rest) && PlanOk(plan) && model == Run(m0, seg0)
      requires plan.lookup != LookupPanicked
      modifies this, store, notifier
      ensures Valid() && model == Run(m0, seg) && wire == old(wire) && old(model.missed) <= model.missed
      ensures seg == seg0 + plan.beforeLookup + [FindDevice(plan.lookup == Found)]
      ensures pusher == if found then Routed(row, rest) else Sending(rest)
      ensures found <==> plan.lookup == Found && row.device in Run(old(model), plan.beforeLookup).devices
      ensures if found then model.missed == old(model.missed) else row.cmdId in model.missed
      ensures model.table == Run(old(model), plan.beforeLookup).table && old(now) <= now
      ensures plan.lookup == Found ==> NoNewFault(old(model), model)
      ensures forall d :: d in old(model).devices && DeleteDevice(d) !in plan.beforeLookup ==> d in model.devices
    {
      hide Inv, Run, Apply;
      assert ([row] + rest)[1..] == rest;
      seg := Pause(plan.beforeLookup, m0, seg0);
      LookedUp(model, plan.lookup == Found);
      seg := Advance(FindDevice(plan.lookup == Found), m0, seg);
      found := pusher.Routed?;
    }

    /** `session.put` for one row. */
    method PutRow(row: Row, ghost rest: seq<Row>, plan: RowPlan, ghost m0: State, ghost seg0: seq<Label>)
      returns (sent: bool, ghost seg: seq<Label>)
      requires Valid() && pusher == Routed(row, rest) && PlanOk(plan) && model == Run(m0, seg0)
      modifies this, store, notifier
      ensures Valid() && model == Run(m0, seg) && old(model.missed) <= model.missed
      ensures seg == seg0 + plan.beforePut + [Put(plan.putOk)]
      ensures pusher == if sent then Marking(row, rest) else Sending(rest)
      ensures sent == plan.putOk && wire == if sent then old(wire) + [row.cmdId] else old(wire)
      ensures if sent then model.missed == old(model.missed) else row.cmdId in model.missed
      ensures model.table == Run(old(model), plan.beforePut).table && old(now) <= now
      ensures plan.putOk ==> NoNewFault(old(model), model)
      ensures forall d :: d in old(model).devices && DeleteDevice(d) !in plan.beforePut ==> d in model.devices
    {
      hide Inv, Run, Apply;
      seg := Pause(plan.beforePut, m0, seg0);
      sent := plan.putOk;
      PutTaken(model, sent);
      seg := Advance(Put(sent), m0, seg);
    }

    /** The UPDATE of the mark, which succeeds or fails. */
    method TakeMark(row: Row, ghost rest: seq<Row>, ok: bool, at: int, ghost m0: State, ghost seg0: seq<Label>)
      returns (ghost seg: seq<Label>)
      requires Valid() && pusher == Marking(row, rest) && at <= now && model == Run(m0, seg0)
      modifies this, store, notifier
      ensures Valid() && model == Run(m0, seg) && seg == seg0 + [Mark(ok, at)]
      ensures pusher == Sending(rest) && wire == old(wire) && now == old(now)
      ensures if ok then MarkedAt(old(store.table), store.table, row.cmdId, at) else store.table == old(store.table)
      ensures ok ==> Delivered(store.table, row.cmdId)
      ensures if ok then model.missed == old(model.missed) else old(model.missed) <= model.missed
      ensures model.skips == old(model.skips) && model.devices == old(model.devices)
      ensures model.markFailed == old(model.markFailed) + if ok then [] else [row.cmdId]
    {
      hide Inv, Run, Apply, MarkedAt, Delivered;
      MarkTaken(model, ok, at);
      seg := Advance(Mark(ok, at), m0, seg0);
    }

    /** The mark for one published row, with its clock read before the statement waits for the database;
        a storage error is ignored, a panic ends the drain. A mark that succeeds leaves the command's row, if
        it is still there, delivered: a row nobody has acked holds the delivery time it had or this mark's own. */
    method MarkSent(row: Row, ghost rest: seq<Row>, plan: RowPlan, ghost m0: State, ghost seg0: seq<Label>)
      returns (ghost seg: seq<Label>)
      requires Valid() && pusher == Marking(row, rest) && PlanOk(plan) && model == Run(m0, seg0)
      modifies this, store, notifier
      ensures Valid() && model == Run(m0, seg) && seg0 <= seg
      ensures pusher == (if plan.mark == MarkPanicked then Parked else Sending(rest)) && wire == old(wire)
      ensures old(model.missed) <= model.missed && old(now) <= now
      ensures plan.mark == Marked ==>
        && Delivered(store.table, row.cmdId) && NoNewFault(old(model), model) && model.missed == old(model.missed)
        && MarkedSince(old(store.table), store.table, row.cmdId, old(now), now)
      ensures model.markFailed == old(model.markFailed) + if plan.mark == Marked then [] else [row.cmdId]
      ensures forall d :: d in old(model).devices && DeleteDevice(d) !in plan.beforeClock + plan.beforeMark ==>
                d in model.devices
    {
      hide Inv, Run, Apply, Delivered, MarkedAt, MarkedSince;
      HeldIsKnown(model, row, rest);
      ghost var s0 := model;
      seg := Pause(plan.beforeClock, m0, seg0);
      var at := now;
      seg := Pause(plan.beforeMark, m0, seg);
      RunAppend(s0, plan.beforeClock, plan.beforeMark);
      ghost var mid := model;
      if plan.mark == MarkPanicked {
        DrainEnds(model, Abort);
        AbortFails(model);
        seg := Advance(Abort, m0, seg);
      } else {
        seg := TakeMark(row, rest, plan.mark == Marked, at, m0, seg);
        if plan.mark == Marked {
          MarkSettles(s0, plan.beforeClock + plan.beforeMark, mid, model.table, row.cmdId, at);
        }
      }
    }

    /** One iteration of the per-row loop. The command goes on the wire exactly when its device is looked up
        and still registered and the put is accepted; it is then marked as the plan says. */
    method ProcessRow(row: Row, ghost rest: seq<Row>, plan: RowPlan, ghost m0: State, ghost seg0: seq<Label>)
      returns (panicked: bool, ghost seg: seq<Label>)
      requires Valid() && pusher == Sending([row] + rest) && PlanOk(plan) && model == Run(m0, seg0)
      modifies this, store, notifier
      ensures Valid() && model == Run(m0, seg) && seg0 <= seg
      ensures pusher == (if panicked then Parked else Sending(rest))
      ensures wire == old(wire) + if GoesOut(plan, row, old(model)) then [row.cmdId] else []
      ensures panicked <==>
        plan.lookup == LookupPanicked || (GoesOut(plan, row, old(model)) && plan.mark == MarkPanicked)
      ensures GoesOut(plan, row, old(model)) ==> RowDone(plan, row, old(model), model)
      ensures !panicked && wire == old(wire) ==> row.cmdId in model.missed
      ensures old(model.missed) <= model.missed
    {
      hide Inv, Run, Apply, RowDone, Delivered, MarkedSince;
      if plan.lookup == LookupPanicked {
        seg := Pause(plan.beforeLookup, m0, seg0);
        DrainEnds(model, Abort);
        seg := Advance(Abort, m0, seg);
        return true, seg;
      }
      HeldFirst(model, row, rest);
      ghost var s0 := model;
      var found, sent;
      found, seg := FindDeviceOf(row, rest, plan, m0, seg0);
      if !found { return false, seg; }
      ghost var s1 := model;
      KnownStays(m0, seg0, seg, row.cmdId);
      sent, seg := PutRow(row, rest, plan, m0, seg);
      if !sent { return false, seg; }
      ghost var s2 := model;
      seg := MarkSent(row, rest, plan, m0, seg);
      RowIsDone(plan, row, s0, s1, s2, model);
      panicked := plan.mark == MarkPanicked;
    }

    /** One pass over the pending rows. Returns false when the pass was cut short; `trace` is the run
        of the transition system that the pass is. Rows published are rows listed, in list order. If nothing
        fails and no listed device goes away, every listed row is published, in order, and left delivered. */
    method DrainPending(beforeList: seq<Label>, listOk: bool, plans: seq<RowPlan>)
      returns (ok: bool, listed: seq<Row>, ghost trace: seq<Label>)
      requires Valid() && pusher == Starting
      requires AllOutside(beforeList) && forall p :: p in plans ==> PlanOk(p)
      modifies this, store, notifier
      ensures Valid() && pusher == Parked && model == Run(old(model), trace)
      ensures [ReadClock] + beforeList + [Snapshot(listOk)] <= trace
      ensures if listOk then PendingRows(Run(old(model), [ReadClock] + beforeList).table, old(now), listed)
              else !ok && listed == [] && wire == old(wire)
      ensures old(wire) <= wire && InListOrder(wire[|old(wire)|..], listed)
      ensures ok ==> forall r :: r in listed ==> r.cmdId in wire[|old(wire)|..] || r.cmdId in model.missed
      ensures listOk && Smooth(plans) && KeepDevices(plans, listed) ==>
        && ok && wire == old(wire) + CmdIds(listed) && model.missed == {} && NoNewFault(old(model), model)
        && forall r :: r in listed ==> Delivered(store.table, r.cmdId)
    {
      hide Inv, Run, Apply, PendingRows, Smooth, KeepDevices, Delivered, Registered, InListOrder;
      ghost var m0 := model;
      listed := [];
      RunNone(m0);
      ClockRead(model);
      trace := Advance(ReadClock, m0, []);
      assert [] + [ReadClock] == [ReadClock];
      trace := Pause(beforeList, m0, trace);
      ghost var before := model;
      SnapshotTaken(model, listOk);
      trace := Advance(Snapshot(listOk), m0, trace);
      if !listOk {
        NothingSettled({});
        assert wire[|old(wire)|..] == [];
        return false, listed, trace;
      }
      listed := pusher.todo;
      PendingMeans(before, old(now));
      ghost var start := model;
      ok, trace := SendAll(listed, plans, m0, trace);
      if Smooth(plans) && KeepDevices(plans, listed) { AllSentMeans(listed, start, model); }
    }

    method SendAll(listed: seq<Row>, plans: seq<RowPlan>, ghost m0: State, ghost trace0: seq<Label>)
      returns (ok: bool, ghost trace: seq<Label>)
      requires Valid() && pusher == Sending(listed) && model == Run(m0, trace0)
      requires forall p :: p in plans ==> PlanOk(p)
      modifies this, store, notifier
      ensures Valid() && pusher == Parked && model == Run(m0, trace) && trace0 <= trace
      ensures old(wire) <= wire && InListOrder(wire[|old(wire)|..], listed)
      ensures ok ==> forall r :: r in listed ==> r.cmdId in wire[|old(wire)|..] || r.cmdId in model.missed
      ensures Smooth(plans) && KeepDevices(plans, listed) && Registered(old(model).devices, listed) ==>
        ok && AllSent(listed, |listed|, old(model), model)
    {
      hide Inv, Run, Apply, InListOrder, Settled, Smooth, KeepDevices, Registered, GoesOut, AllSent, RowDone;
      trace := trace0;
      ghost var s0 := model;
      ghost var smooth := Smooth(plans) && KeepDevices(plans, listed) && Registered(s0.devices, listed);
      HeldAreBorn(model, listed);
      assert wire[|old(wire)|..] == [] && listed[..0] == [] && listed[0..] == listed;
      NothingSettled(model.missed);
      if smooth { NoneSent(listed, s0); }
      for i := 0 to |listed|
        invariant Valid() && pusher == Sending(listed[i..]) && model == Run(m0, trace) && trace0 <= trace
        invariant old(wire) <= wire && InListOrder(wire[|old(wire)|..], listed[..i])
        invariant Settled(listed[..i], wire[|old(wire)|..], model.missed)
        invariant smooth ==> AllSent(listed, i, s0, model)
      {
        ghost var before, seg := model, trace;
        assert listed[i..] == [listed[i]] + listed[i + 1..];
        var plan := if i < |plans| then plans[i] else RowPlan([], Found, [], true, [], [], Marked);
        if smooth { SmoothRow(plans, plan, i, listed, s0, model); }
        var panicked;
        panicked, trace := ProcessRow(listed[i], listed[i + 1..], plan, m0, trace);
        RowSent(old(wire), before.published, wire, listed, i);
        if panicked {
          OrderWidens(wire[|old(wire)|..], listed, i + 1);
          return false, trace;
        }
        RowSettled(old(wire), before.published, wire, listed, i, before.missed, model.missed);
        if smooth { OneMoreSent(plans, plan, listed, i, s0, m0, trace0, seg, trace); }
      }
      assert listed[..|listed|] == listed && listed[|listed|..] == [];
      ghost var last := model;
      DrainEnds(model, Finish);
      trace := Advance(Finish, m0, trace);
      if smooth { SentAndDone(listed, s0, last); }
      SettledMeans(listed, wire[|old(wire)|..], last.missed);
      ok := true;
    }

    /** The select between the notify permit and the 30 s timer: when both are ready either may win, and
        the pusher stays parked when neither is. */
    method AwaitWork(acts: seq<Label>, timer: bool, timerFirst: bool, ghost m0: State, ghost trace0: seq<Label>)
      returns (woken: bool, ghost trace: seq<Label>)
      requires Valid() && pusher == Parked && model == Run(m0, trace0) && AllOutside(acts)
      modifies this, store, notifier
      ensures Valid() && model == Run(m0, trace) && trace0 <= trace && wire == old(wire)
      ensures pusher == if woken then Starting else Parked
      ensures var permitted := Run(old(model), acts).permit;
        && (woken <==> permitted || timer)
        && (model.permit <==> permitted && timer && timerFirst)
        && model.table == Run(old(model), acts).table
    {
      hide Inv, Run, Apply;
      trace := Pause(acts, m0, trace0);
      Wakes(model);
      if timer && (timerFirst || !notifier.permit) {
        trace := Advance(Timeout, m0, trace);
        woken := true;
      } else if notifier.permit {
        trace := Advance(Wake, m0, trace);
        woken := true;
      } else {
        woken := false;
      }
    }

    /** The pusher task, for as many rounds as the environment keeps waking it: each round lists the table
        once, at the place in the trace that `starts` gives, and only a select that neither a permit nor the
        timer ends stops the rounds. */
    method PusherTask(rounds: seq<Round>) returns (ghost trace: seq<Label>, ghost starts: seq<nat>)
      requires Valid() && pusher == Starting
      requires forall d :: d in rounds ==> RoundOk(d)
      modifies this, store, notifier
      ensures Valid() && model == Run(old(model), trace) && old(wire) <= wire
      ensures |starts| <= |rounds| && Drains(trace, rounds, starts)
      ensures |starts| < |rounds| ==>
        starts != [] && pusher == Parked && !model.permit && !rounds[|starts| - 1].timer
    {
      hide Inv, Run, Apply, Drains;
      ghost var m0 := model;
      RunNone(m0);
      trace, starts := [], [];
      NoDrains(rounds);
      for i := 0 to |rounds|
        invariant Valid() && pusher == Starting && model == Run(m0, trace) && old(wire) <= wire
        invariant |starts| == i && Drains(trace, rounds, starts)
      {
        var ok, listed, woken;
        ghost var part, was := [], trace;
        var d := rounds[i];
        assert d in rounds && RoundOk(d);
        ok, listed, part := DrainPending(d.beforeList, d.listOk, d.plans);
        RunAppend(m0, trace, part);
        trace := trace + part;
        woken, trace := AwaitWork(d.whileParked, d.timer, d.timerFirst, m0, trace);
        OneMoreDrain(was, part, trace, rounds, starts);
        starts := starts + [|was|];
        if !woken { return; }
      }
    }

    /** `POST …/cmd/:topic` after its authorisation checks: read the clock, commit the row, notify. Anyone,
        the pusher included, may do anything before the commit and between commit and notify. Which reply is
        given is decided by the inputs and the history up to the commit. */
    method SendHandler(c: CmdId, device: int, topic: string, payload: string, ttl: Option<int>,
                       before: seq<Label>, between: seq<Label>)
      returns (r: SendReply)
      requires Valid() && c !in uuids && NoRestart(before) && NoRestart(between)
      requires (forall l :: l in before && l.Send? ==> l.c != c) && Notify(c) !in between
      modifies this, store, notifier
      ensures Valid()
      ensures r == BadTopic <==> topic == ""
      ensures r == BadTopic ==> model == old(model)
      ensures topic != "" ==> ReplyIs(r, Run(old(model), before), device, payload)
      ensures r.Refused? ==> model == Run(old(model), before)
      ensures r.Accepted? ==>
        && model == Run(old(model),
                        before + [Send(c, device, topic, payload, old(now), ttl)] + between + [Notify(c)])
        && model.permit && c in model.born
      ensures r.Accepted? ==> var send := Send(c, device, topic, payload, old(now), ttl);
        Appended(Run(old(model), before).table, Run(old(model), before + [send]).table, send)
      ensures r.Accepted? ==> forall q :: q in store.table && q.cmdId == c ==>
        StoresSend(q, Send(c, device, topic, payload, old(now), ttl))
    {
      hide Inv, Run, Apply, ReplyIs, Appended, StoresSend;
      if topic == "" { return BadTopic; }
      ghost var m0, send := model, Send(c, device, topic, payload, now, ttl);
      var at := now;
      Interfere(before);
      StaysUnborn(m0, before, c);
      ClockKept(m0, before);
      r := CommitSend(c, device, topic, payload, at, ttl);
      if r == Accepted {
        RunSnoc(m0, before, send);
        FinishSend(c, between, send, m0, before + [send]);
      }
    }

    /** The enqueue transaction of a send whose clock was read at `at`. */
    method CommitSend(c: CmdId, device: int, topic: string, payload: string, at: int, ttl: Option<int>)
      returns (r: SendReply)
      requires Valid() && c !in model.born && topic != "" && at <= now
      modifies this, store
      ensures Valid() && r != BadTopic && ReplyIs(r, old(model), device, payload)
      ensures var send := Send(c, device, topic, payload, at, ttl);
        if r == Accepted
        then model == Apply(old(model), send) && Appended(old(store.table), store.table, send) &&
             c in model.born && c in model.unnotified &&
             forall q :: q in store.table && q.cmdId == c ==> StoresSend(q, send)
        else model == old(model)
    {
      hide Inv, Apply, Run, ReplyIs, Appended, StoresSend, Outbox.Enqueue, ExpiryOf;
      CommitFacts(model, c, device, topic, payload, at, ttl);
      ghost var send := Send(c, device, topic, payload, at, ttl);
      var row := store.Enqueue(c, device, topic, payload, at, ExpiryOf(at, ttl));
      if row.Err? { return Refused(row.error); }
      uuids, senders := uuids + {c}, senders + {c};
      model := Apply(model, send);
      r := Accepted;
    }

    /** From the commit on: anything by anyone, then notify. */
    method FinishSend(c: CmdId, between: seq<Label>, ghost send: Label, ghost m0: State, ghost sofar: seq<Label>)
      requires Valid() && NoRestart(between) && Notify(c) !in between && send.Send? && send.c == c
      requires model == Run(m0, sofar) && c in model.born && c in model.unnotified
      requires forall q :: q in model.table && q.cmdId == c ==> StoresSend(q, send)
      modifies this, store, notifier
      ensures Valid() && model == Run(m0, sofar + between + [Notify(c)]) && model.permit && c in model.born
      ensures forall q :: q in store.table && q.cmdId == c ==> StoresSend(q, send)
    {
      hide Inv, Run, Apply, StoresSend;
      ghost var m1 := model;
      Interfere(between);
      RunAppend(m0, sofar, between);
      StaysUnnotified(m1, between, c);
      StoresSendStays(m1, between, send);
      OutsideStep(Notify(c));
      RunSnoc(m0, sofar + between, Notify(c));
      NotifyStores(Run(m1, between), c);
    }

    /** `DELETE /v1/cmd/:cmd_id` after its authorisation checks: look the row up, then cancel it, with
        anything in between, such as the pusher publishing and marking the row. The reply is decided by
        the row at the instant of the DELETE. */
    method CancelHandler(c: CmdId, between: seq<Label>) returns (r: CancelReply)
      requires Valid() && NoRestart(between)
      modifies this, store, notifier
      ensures Valid()
      ensures c !in Outbox.Ids(old(store.table)) ==> r == NotFound && model == old(model)
      ensures c in Outbox.Ids(old(store.table)) ==>
        && model == Run(old(model), between + [CancelCmd(c)])
        && (r == NoContent <==> Outbox.CancelHits(Run(old(model), between).table, c))
      ensures r == NoContent ==> c in model.cancelled
    {
      hide Inv, Run;
      if c !in Outbox.Ids(store.table) { return NotFound; }
      ghost var m0 := model;
      Interfere(between);
      MissIsNoOp(model.table);
      var deleted := store.Cancel(c);
      StepInv(model, CancelCmd(c));
      model := Apply(model, CancelCmd(c));
      RunSnoc(m0, between, CancelCmd(c));
      r := if deleted then NoContent else NotFound;
    }
  }

  datatype Round = Round(beforeList: seq<Label>, listOk: bool, plans: seq<RowPlan>,
                         whileParked: seq<Label>, timer: bool, timerFirst: bool)

  /** Round `k` begins at `starts[k]`: the clock is read, others act, and the table is listed. */
  predicate Drains(trace: seq<Label>, rounds: seq<Round>, starts: seq<nat>) {
    && |starts| <= |rounds|
    && (forall k :: 0 <= k < |starts| - 1 ==> starts[k] < starts[k + 1])
    && forall k :: 0 <= k < |starts| ==> starts[k] < |trace| && BeginsAt(trace, starts[k], rounds[k])
  }

  predicate BeginsAt(trace: seq<Label>, at: nat, d: Round)
    requires at <= |trace|
  {
    [ReadClock] + d.beforeList + [Snapshot(d.listOk)] <= trace[at..]
  }

  lemma NoDrains(rounds: seq<Round>)
    ensures Drains([], rounds, [])
  {
  }

  lemma OneMoreDrain(was: seq<Label>, part: seq<Label>, trace: seq<Label>, rounds: seq<Round>, starts: seq<nat>)
    requires Drains(was, rounds, starts) && |starts| < |rounds| && was + part <= trace
    requires [ReadClock] + rounds[|starts|].beforeList + [Snapshot(rounds[|starts|].listOk)] <= part
    ensures Drains(trace, rounds, starts + [|was|])
  {
    var d := rounds[|starts|];
    assert trace[|was|..|was| + |part|] == part;
    assert BeginsAt(trace, |was|, d) by {
      assert forall j :: 0 <= j < |part| ==> trace[|was|..][j] == part[j];
    }
    forall k | 0 <= k < |starts| ensures BeginsAt(trace, starts[k], rounds[k]) {
      var n := |[ReadClock] + rounds[k].beforeList + [Snapshot(rounds[k].listOk)]|;
      assert BeginsAt(was, starts[k], rounds[k]);
      assert forall j :: 0 <= j < n ==> trace[starts[k]..][j] == was[starts[k]..][j];
    }
  }

  lemma Wakes(s: State)
    requires s.pusher == Parked
    ensures Apply(s, Timeout) == s.(pusher := Starting)
    ensures s.permit ==> Apply(s, Wake) == s.(permit := false, pusher := Starting)
  {
  }

  datatype SendReply = Accepted | BadTopic | Refused(error: Outbox.EnqueueError)

  predicate RoundOk(d: Round) {
    AllOutside(d.beforeList) && AllOutside(d.whileParked) && forall p :: p in d.plans ==> PlanOk(p)
  }

  lemma {:induction false} StaysUnnotified(s: State, ls: seq<Label>, c: CmdId)
    requires c in s.unnotified && c in s.born && Notify(c) !in ls && NoRestart(ls)
    ensures c in Run(s, ls).unnotified && c in Run(s, ls).born
    decreases |ls|
  {
    hide Apply;
    if ls != [] {
      StaysUnnotified(s, ls[..|ls| - 1], c);
      assert ls[|ls| - 1] in ls;
      StepUnnotified(Run(s, ls[..|ls| - 1]), ls[|ls| - 1], c);
    }
  }

  lemma StepUnnotified(s: State, l: Label, c: CmdId)
    requires c in s.unnotified && c in s.born && l != Notify(c) && l != Restart
    ensures c in Apply(s, l).unnotified && c in Apply(s, l).born
  {
    hide Outbox.ListPending, Outbox.MarkDelivered, Outbox.Cascade, Outbox.CancelHits, Outbox.Cancel, Outbox.Ids, Outbox.RecordAck;
  }

  /** A command nobody has sent stays unborn. */
  lemma {:induction false} StaysUnborn(s: State, ls: seq<Label>, c: CmdId)
    requires c !in s.born && forall l :: l in ls && l.Send? ==> l.c != c
    ensures c !in Run(s, ls).born
    decreases |ls|
  {
    hide Apply;
    if ls != [] {
      StaysUnborn(s, ls[..|ls| - 1], c);
      assert ls[|ls| - 1] in ls;
      StepUnborn(Run(s, ls[..|ls| - 1]), ls[|ls| - 1], c);
    }
  }

  lemma StepUnborn(s: State, l: Label, c: CmdId)
    requires c !in s.born && (l.Send? ==> l.c != c)
    ensures c !in Apply(s, l).born
  {
    hide Outbox.ListPending, Outbox.MarkDelivered, Outbox.Cascade, Outbox.CancelHits, Outbox.Cancel, Outbox.Ids, Outbox.RecordAck;
  }

  lemma {:induction false} ClockKept(s: State, ls: seq<Label>)
    ensures Run(s, ls).now >= s.now
    decreases |ls|
  {
    hide Apply;
    if ls != [] {
      ClockKept(s, ls[..|ls| - 1]);
      ClockStep(Run(s, ls[..|ls| - 1]), ls[|ls| - 1]);
    }
  }

  lemma ClockStep(s: State, l: Label)
    ensures Apply(s, l).now >= s.now
  {
    hide Outbox.ListPending, Outbox.MarkDelivered, Outbox.Cascade, Outbox.CancelHits, Outbox.Cancel, Outbox.Ids, Outbox.RecordAck;
  }

  lemma NotifyStores(s: State, c: CmdId)
    requires c in s.unnotified
    ensures Apply(s, Notify(c)).permit && Apply(s, Notify(c)).born == s.born && Apply(s, Notify(c)).table == s.table
  {
  }

  /** `cs` is a subsequence of the command ids of `rows`. */
  ghost predicate InListOrder(cs: seq<CmdId>, rows: seq<Row>)
    decreases |rows|
  {
    cs == [] ||
    (rows != [] &&
     (InListOrder(cs, rows[..|rows| - 1]) ||
      (cs[|cs| - 1] == rows[|rows| - 1].cmdId && InListOrder(cs[..|cs| - 1], rows[..|rows| - 1]))))
  }

  /** Every row of `rows` was published or counted as missed. */
  predicate Settled(rows: seq<Row>, cs: seq<CmdId>, missed: set<CmdId>) {
    forall i :: 0 <= i < |rows| ==> rows[i].cmdId in cs || rows[i].cmdId in missed
  }

  lemma NothingSettled(missed: set<CmdId>)
    ensures Settled([], [], missed) && InListOrder([], [])
  {
  }

  lemma SettledMeans(rows: seq<Row>, cs: seq<CmdId>, missed: set<CmdId>)
    requires Settled(rows, cs, missed)
    ensures forall r :: r in rows ==> r.cmdId in cs || r.cmdId in missed
  {
  }

  lemma RowSent(w0: seq<CmdId>, w: seq<CmdId>, w': seq<CmdId>, listed: seq<Row>, i: nat)
    requires i < |listed| && w0 <= w && (w' == w || w' == w + [listed[i].cmdId])
    requires InListOrder(w[|w0|..], listed[..i])
    ensures w0 <= w' && InListOrder(w'[|w0|..], listed[..i + 1])
  {
    hide InListOrder;
    OrderGrows(w[|w0|..], listed[..i], listed[i]);
    assert listed[..i + 1] == listed[..i] + [listed[i]];
    assert w' != w ==> w'[|w0|..] == w[|w0|..] + [listed[i].cmdId];
  }

  lemma RowSettled(w0: seq<CmdId>, w: seq<CmdId>, w': seq<CmdId>, listed: seq<Row>, i: nat,
                   missed: set<CmdId>, missed': set<CmdId>)
    requires i < |listed| && w0 <= w && (w' == w || w' == w + [listed[i].cmdId]) && missed <= missed'
    requires w' == w ==> listed[i].cmdId in missed'
    requires Settled(listed[..i], w[|w0|..], missed)
    ensures w0 <= w' && Settled(listed[..i + 1], w'[|w0|..], missed')
  {
    var cs, cs' := w[|w0|..], w'[|w0|..];
    assert w' != w ==> cs' == cs + [listed[i].cmdId];
    forall k | 0 <= k < i + 1 ensures listed[k].cmdId in cs' || listed[k].cmdId in missed' {
      if k < i { assert listed[..i][k] == listed[k]; }
    }
  }

  lemma OrderGrows(cs: seq<CmdId>, rows: seq<Row>, row: Row)
    requires InListOrder(cs, rows)
    ensures InListOrder(cs, rows + [row]) && InListOrder(cs + [row.cmdId], rows + [row])
  {
    assert (rows + [row])[..|rows|] == rows;
    assert (cs + [row.cmdId])[..|cs|] == cs;
  }

  lemma {:induction false} OrderWidens(cs: seq<CmdId>, rows: seq<Row>, n: nat)
    requires n <= |rows| && InListOrder(cs, rows[..n])
    ensures InListOrder(cs, rows)
    decreases |rows| - n
  {
    if n == |rows| {
      assert rows[..n] == rows;
    } else {
      OrderGrows(cs, rows[..n], rows[n]);
      assert rows[..n + 1] == rows[..n] + [rows[n]];
      OrderWidens(cs, rows, n + 1);
    }
  }
}
