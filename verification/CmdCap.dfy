// The cap on a device's outbox: what the code refuses, what the comment above it describes, and
// exactly where the two part.
module CmdCap {
  import opened Wrappers
  import opened Seqs
  import opened CmdOutbox
  import opened CmdDelivery
  import opened CmdInvariants
  import opened CmdSafety

  predicate CodeRefuses(t: Table, devices: set<int>, c: CmdId, device: int, topic: string, payload: string,
                        at: int, expiresAt: int) {
    Enqueue(t, devices, c, device, topic, payload, at, expiresAt) == Err(OutboxFull)
  }

  /** A row of the device not yet delivered: what `pending` means to the pusher's query. */
  function Undelivered(device: int): Row -> bool {
    (r: Row) => r.device == device && r.deliveredAt.None?
  }

  /** The first row that counts as pending has reached its expiry. */
  predicate OldestExpired(t: Table, pending: Row -> bool, now: int) {
    var rows := Filter(pending, t);
    rows != [] && rows[0].expiresAt <= now
  }

  /** As the comment has it: full, and the oldest pending row not yet past its expiry. The comment does not
      say whether pending means un-acked, as the count it goes with, or undelivered; `pending` is either. */
  predicate CommentRefuses(t: Table, device: int, pending: Row -> bool, now: int) {
    |Filter(Unacked(device), t)| >= CMD_MAX_PER_DEVICE && !OldestExpired(t, pending, now)
  }

  lemma OutstandingCount(s: State, device: int)
    requires Inv(s)
    ensures |Filter(Unacked(device), s.table)| == |Outstanding(s, device)|
  {
    hide BirthsOk, InBirthOrder, Registered, ViewOf, Mentioned, PusherOk;
    OutstandingIsUnacked(s, device);
    UnackedCount(s.table, device);
  }

  /** A send whose payload fits is refused as full exactly when 1000 commands of the device, counted
      from the history alone, are outstanding. */
  lemma RefusedAsFullIff(ls: seq<Label>, c: CmdId, device: int, topic: string, payload: string, at: int, expiresAt: int)
    requires |payload| <= PAYLOAD_CAP
    ensures var s := Run(Init(), ls);
      CodeRefuses(s.table, s.devices, c, device, topic, payload, at, expiresAt) <==>
        |Outstanding(s, device)| >= CMD_MAX_PER_DEVICE
  {
    hide Inv, Filter, Run, Outstanding;
    var s := Run(Init(), ls);
    ReachableInv(ls);
    OutstandingCount(s, device);
  }

  /** Code and comment disagree exactly when the outbox is full and its oldest pending row has expired,
      whatever is meant by pending: the code still refuses. */
  lemma CommentDiffersIff(ls: seq<Label>, c: CmdId, device: int, topic: string, payload: string, at: int,
                          expiresAt: int, pending: Row -> bool)
    requires |payload| <= PAYLOAD_CAP
    ensures var s := Run(Init(), ls);
      CodeRefuses(s.table, s.devices, c, device, topic, payload, at, expiresAt) !=
        CommentRefuses(s.table, device, pending, s.now) <==>
      |Outstanding(s, device)| >= CMD_MAX_PER_DEVICE && OldestExpired(s.table, pending, s.now)
  {
    hide Inv, Filter, Run, Outstanding, CodeRefuses, OldestExpired;
    var s := Run(Init(), ls);
    ReachableInv(ls);
    OutstandingCount(s, device);
    RefusedAsFullIff(ls, c, device, topic, payload, at, expiresAt);
  }

  // ---- An outbox full of expired rows ----------------------------------------------------------------

  function Nth(i: nat): Row {
    Row(i + 1, i + 1, 7, "reboot", "", 0, 1, None, None, None, None, 0)
  }

  function Rows(n: nat): (t: Table)
    ensures |t| == n && forall i :: 0 <= i < n ==> t[i] == Nth(i)
  {
    seq(n, i requires 0 <= i => Nth(i))
  }

  function Births(n: nat): (m: map<CmdId, Birth>)
    ensures forall c :: c in m <==> 1 <= c <= n
    ensures forall c :: c in m ==> m[c] == Birth(c - 1, 7, c)
  {
    if n == 0 then map[] else Births(n - 1)[n := Birth(n - 1, 7, n)]
  }

  function UpTo(n: nat): set<CmdId> {
    if n == 0 then {} else UpTo(n - 1) + {n}
  }

  /** After `n` sends to device 7 that expire within a millisecond. */
  function Filled(n: nat, now: int): State {
    Init().(devices := {7}, table := Rows(n), now := now, born := Births(n), births := n,
            unnotified := UpTo(n))
  }

  function NthSend(n: nat): Label { Send(n + 1, 7, "reboot", "", 0, Some(1)) }

  lemma AllUnacked(n: nat)
    ensures Filter(Unacked(7), Rows(n)) == Rows(n) && Filter(Undelivered(7), Rows(n)) == Rows(n)
  {
    forall r | r in Rows(n) ensures Unacked(7)(r) && Undelivered(7)(r) {
      var i :| 0 <= i < n && Rows(n)[i] == r;
    }
    FilterAll(Unacked(7), Rows(n));
    FilterAll(Undelivered(7), Rows(n));
  }

  lemma EnqueueFills(n: nat)
    requires n < CMD_MAX_PER_DEVICE
    ensures Enqueue(Rows(n), {7}, n + 1, 7, "reboot", "", 0, 1) == Ok(Rows(n + 1))
    ensures NextRowId(Rows(n)) == n + 1
  {
    var t := Rows(n);
    AllUnacked(n);
    hide Filter;
    forall r | r in t ensures r.cmdId != n + 1 {
      var i :| 0 <= i < n && t[i] == r;
    }
    assert Fresh(t, n + 1, 7, "reboot", "", 0, 1) == Nth(n);
    assert Rows(n + 1) == t + [Nth(n)];
  }

  lemma SendFills(n: nat)
    requires n < CMD_MAX_PER_DEVICE
    ensures Apply(Filled(n, 0), NthSend(n)) == Filled(n + 1, 0)
  {
    hide Enqueue, Rows, NextRowId;
    EnqueueFills(n);
    assert ExpiryOf(0, Some(1)) == 1;
  }

  lemma {:induction false} FillOutbox(n: nat) returns (ls: seq<Label>)
    requires n <= CMD_MAX_PER_DEVICE
    ensures Run(Init(), ls) == Filled(n, 0)
  {
    hide Run, Apply;
    if n == 0 {
      ls := [CreateDevice(7)];
      RunCons(Init(), CreateDevice(7), []);
      RunNone(Apply(Init(), CreateDevice(7)));
      assert ls == [CreateDevice(7)] + [];
      NothingFilled();
    } else {
      ls := FillOutbox(n - 1);
      SendFills(n - 1);
      RunSnoc(Init(), ls, NthSend(n - 1));
      ls := ls + [NthSend(n - 1)];
    }
  }

  lemma NothingFilled()
    ensures Apply(Init(), CreateDevice(7)) == Filled(0, 0)
  {
    assert Births(0) == map[] && Rows(0) == [];
  }

  lemma RowsExpired(n: nat)
    ensures forall r :: r in Rows(n) ==> DeriveStatus(r, 1) == Expired
  {
    forall r | r in Rows(n) ensures DeriveStatus(r, 1) == Expired {
      var i :| 0 <= i < n && Rows(n)[i] == r;
    }
  }

  lemma RowsRefuse(c: CmdId, topic: string, payload: string, expiresAt: int)
    requires |payload| <= PAYLOAD_CAP
    ensures CodeRefuses(Rows(CMD_MAX_PER_DEVICE), {7}, c, 7, topic, payload, 1, expiresAt)
    ensures !CommentRefuses(Rows(CMD_MAX_PER_DEVICE), 7, Unacked(7), 1)
    ensures !CommentRefuses(Rows(CMD_MAX_PER_DEVICE), 7, Undelivered(7), 1)
  {
    AllUnacked(CMD_MAX_PER_DEVICE);
    hide Filter;
    assert Rows(CMD_MAX_PER_DEVICE)[0] == Nth(0);
  }

  lemma TickFilled(n: nat)
    ensures Apply(Filled(n, 0), Tick(1)) == Filled(n, 1)
  {
    hide Rows, Births, UpTo;
  }

  /** A reachable outbox of 1000 rows, every one expired, into which the code still refuses to enqueue
      and the comment, read either way, would not. */
  lemma FullOfExpired(c: CmdId, topic: string, payload: string, expiresAt: int) returns (ls: seq<Label>)
    requires |payload| <= PAYLOAD_CAP
    ensures var s := Run(Init(), ls);
      && |s.table| == CMD_MAX_PER_DEVICE && (forall r :: r in s.table ==> DeriveStatus(r, s.now) == Expired)
      && CodeRefuses(s.table, s.devices, c, 7, topic, payload, s.now, expiresAt)
      && !CommentRefuses(s.table, 7, Unacked(7), s.now) && !CommentRefuses(s.table, 7, Undelivered(7), s.now)
  {
    hide Run, Apply, Rows, CodeRefuses, CommentRefuses;
    ls := FillOutbox(CMD_MAX_PER_DEVICE);
    RunSnoc(Init(), ls, Tick(1));
    TickFilled(CMD_MAX_PER_DEVICE);
    ls := ls + [Tick(1)];
    RowsExpired(CMD_MAX_PER_DEVICE);
    RowsRefuse(c, topic, payload, expiresAt);
    assert |Rows(CMD_MAX_PER_DEVICE)| == CMD_MAX_PER_DEVICE;
  }
}
