// When a command can still go out, and when it never will again. The documentation promises
// redelivery until an ack is seen; this is the exact condition the code meets instead.
module CmdRedelivery {
  import opened Wrappers
  import opened Seqs
  import opened CmdOutbox
  import opened CmdDelivery
  import opened CmdInvariants
  import opened CmdSafety
  import opened CmdOrder
  import opened CmdCancel

  /** Neither in the drain's hands nor pending in the table. */
  predicate Spent(s: State, c: CmdId) {
    c in s.born && c !in Ids(ToPublish(s.pusher)) && forall r :: r in s.table && r.cmdId == c ==> !Live(s, r)
  }

  // ---- Spent is for ever ------------------------------------------------------------------------

  lemma CutoffNeverFalls(s: State, l: Label)
    requires PusherOk(s)
    ensures Cutoff(Apply(s, l)) >= Cutoff(s)
  {
    hide ListPending, MarkDelivered, Cascade, CancelHits, Cancel, Ids, RecordAck;
  }

  lemma SpentInTable(s: State, l: Label, c: CmdId)
    requires PusherOk(s) && Spent(s, c)
    ensures forall r' :: r' in Apply(s, l).table && r'.cmdId == c ==> !Live(Apply(s, l), r')
  {
    hide Apply, PusherOk;
    var s' := Apply(s, l);
    CutoffNeverFalls(s, l);
    forall r' | r' in s'.table && r'.cmdId == c ensures !Live(s', r') {
      StepEvolves(s, l, r');
      var r :| r in s.table && Evolved(r, r');
      assert !Live(s, r);
    }
  }

  lemma SpentOnWire(s: State, l: Label, c: CmdId)
    requires Spent(s, c)
    ensures c !in Ids(ToPublish(Apply(s, l).pusher)) && Occurs(Apply(s, l).published, c) == Occurs(s.published, c)
  {
    if l == Snapshot(true) && s.pusher.Clocked? {
      FilterMember(PendingAt(s.pusher.t), s.table);
    } else if l == Put(true) && s.pusher.Routed? {
      assert s.pusher.row in ToPublish(s.pusher);
      OccursSnoc(s.published, s.pusher.row.cmdId, c);
    } else {
      hide Apply;
      PusherOnlyDrops(s, l);
    }
  }

  lemma {:induction false} SpentForever(s: State, ls: seq<Label>, c: CmdId)
    requires Inv(s) && Spent(s, c)
    ensures Inv(Run(s, ls)) && Spent(Run(s, ls), c) && Occurs(Run(s, ls).published, c) == Occurs(s.published, c)
    decreases |ls|
  {
    hide Inv, Apply, Occurs, Live, ToPublish;
    if ls != [] {
      var mid, l := Run(s, ls[..|ls| - 1]), ls[|ls| - 1];
      SpentForever(s, ls[..|ls| - 1], c);
      StepInv(mid, l);
      PusherPart(mid);
      SpentInTable(mid, l, c);
      SpentOnWire(mid, l, c);
      BornGrows(mid, l);
    }
  }

  // ---- A pending row can always be listed again ---------------------------------------------------

  /** The next step of the shortest way to the next snapshot. */
  function Toward(p: Pusher): Label {
    match p
    case Clocked(_) => Snapshot(true)
    case Starting => ReadClock
    case Parked => Timeout
    case Sending(todo) => if todo == [] then Finish else Abort
    case Marking(_, _) => Abort
    case Routed(_, _) => Put(false)
  }

  function Distance(p: Pusher): nat {
    match p
    case Clocked(_) => 0
    case Starting => 1
    case Parked => 2
    case Sending(_) => 3
    case Marking(_, _) => 3
    case Routed(_, _) => 4
  }

  lemma TowardSnapshot(s: State)
    requires s.pusher.Clocked? || s.pusher.Starting? || s.pusher.Parked?
    ensures var s' := Apply(s, Toward(s.pusher));
      && s'.table == s.table && s'.published == s.published && s'.now == s.now
      && s'.pusher == match s.pusher
                      case Clocked(t) => Sending(ListPending(s.table, t))
                      case Starting => Clocked(s.now)
                      case _ => Starting
  {
    hide ListPending;
  }

  lemma TowardParked(s: State)
    requires s.pusher.Sending? || s.pusher.Routed? || s.pusher.Marking?
    ensures var s' := Apply(s, Toward(s.pusher));
      && s'.table == s.table && s'.published == s.published && s'.now == s.now
      && s'.pusher == if s.pusher.Routed? then Sending(s.pusher.rest) else Parked
  {
    hide ListPending, Ids;
  }

  lemma TowardStep(s: State)
    ensures var s' := Apply(s, Toward(s.pusher));
      && s'.table == s.table && s'.published == s.published
      && (s.pusher.Clocked? ==> s'.pusher == Sending(ListPending(s.table, s.pusher.t)))
      && (!s.pusher.Clocked? ==> Distance(s'.pusher) < Distance(s.pusher) && Cutoff(s') == Cutoff(s))
  {
    hide Apply, ListPending;
    if s.pusher.Clocked? || s.pusher.Starting? || s.pusher.Parked? {
      TowardSnapshot(s);
    } else {
      TowardParked(s);
    }
  }

  lemma {:induction false} Relist(s: State, r: Row) returns (ls: seq<Label>)
    requires r in s.table && Live(s, r)
    ensures var s' := Run(s, ls); r.cmdId in Ids(ToPublish(s'.pusher)) && s'.published == s.published
    decreases Distance(s.pusher)
  {
    hide Run, Apply;
    var l := Toward(s.pusher);
    TowardStep(s);
    if s.pusher.Clocked? {
      FilterMember(PendingAt(s.pusher.t), s.table);
      ls := [];
      RunNone(Apply(s, l));
    } else {
      ls := Relist(Apply(s, l), r);
    }
    RunCons(s, l, ls);
    ls := [l] + ls;
  }

  /** A committed command can be published again exactly when the running drain has listed it and not
      yet published it, or its row is undelivered and unexpired. */
  lemma PublishedAgainIff(ls: seq<Label>, c: CmdId)
    requires c in Run(Init(), ls).born
    ensures var s := Run(Init(), ls);
      (exists more :: Occurs(Run(s, more).published, c) > Occurs(s.published, c)) <==>
        c in Ids(ToPublish(s.pusher)) || exists r :: r in s.table && r.cmdId == c && Live(s, r)
  {
    var s := Run(Init(), ls);
    ReachableInv(ls);
    hide Inv, Apply, Occurs, Live, ToPublish;
    if c in Ids(ToPublish(s.pusher)) {
      var more := CanStillPublish(s, c);
    } else if r :| r in s.table && r.cmdId == c && Live(s, r) {
      var first := Relist(s, r);
      var second := CanStillPublish(Run(s, first), c);
      RunAppend(s, first, second);
      assert Occurs(Run(s, first + second).published, c) > Occurs(s.published, c);
    } else {
      forall more ensures Occurs(Run(s, more).published, c) == Occurs(s.published, c) {
        SpentForever(s, more, c);
      }
    }
  }

  /** So a delivered command outside the drain is never published again, acked or not. */
  lemma DeliveredNeverAgain(ls: seq<Label>, r: Row, more: seq<Label>)
    requires var s := Run(Init(), ls);
      r in s.table && r.deliveredAt.Some? && r.cmdId !in Ids(ToPublish(s.pusher))
    ensures var s := Run(Init(), ls); Occurs(Run(s, more).published, r.cmdId) == Occurs(s.published, r.cmdId)
  {
    var s := Run(Init(), ls);
    ReachableInv(ls);
    PresentIsBorn(s, r.cmdId);
    forall q | q in s.table && q.cmdId == r.cmdId ensures !Live(s, q) {
      OneRow(s, q, r);
    }
    SpentForever(s, more, r.cmdId);
  }

  lemma OneRow(s: State, a: Row, b: Row)
    requires Inv(s) && a in s.table && b in s.table && a.cmdId == b.cmdId
    ensures a == b
  {
    hide BirthsOk, OwnersOk, InBirthOrder, Registered, ViewOf, RowsAgree, Accounted, Mentioned, PusherOk;
    SortedUnique(s.table, a, b);
  }

  // ---- Two runs --------------------------------------------------------------------------------------

  function MarkedOne(at: int): Row { MarkRow(RowOne(1), 1, at) }

  function OutButUnmarked(now: int): State {
    Held().(pusher := Marking(RowOne(1), []), published := [1], now := now)
  }

  function DeliveredState(now: int, at: int): State {
    OutButUnmarked(now).(pusher := Sending([]), table := [MarkedOne(at)], marked := {1})
  }

  lemma RunsToUnmarked() returns (ls: seq<Label>)
    ensures Run(Init(), ls) == OutButUnmarked(0)
  {
    hide Run, Held, Apply;
    var first := RunsToHeld();
    var routed := Held().(pusher := Routed(RowOne(1), []));
    PublishesOne();
    RunNone(OutButUnmarked(0));
    var second := Before(routed, Put(true), OutButUnmarked(0), []);
    second := Before(Held(), FindDevice(true), routed, second);
    RunAppend(Init(), first, second);
    ls := first + second;
  }

  lemma PublishesOne()
    ensures var routed := Held().(pusher := Routed(RowOne(1), []));
      Apply(Held(), FindDevice(true)) == routed && Apply(routed, Put(true)) == OutButUnmarked(0)
  {
    assert [RowOne(1)][1..] == [];
    assert Held().published + [1] == [1];
  }

  lemma MarksOne(now: int, at: int)
    requires at <= now
    ensures Apply(OutButUnmarked(now), Mark(true, at)) == DeliveredState(now, at)
  {
    var s := OutButUnmarked(now);
    assert s.table[0] in s.table && Cancellable(1)(s.table[0]);
    assert MarkDelivered(s.table, 1, at) == [MarkedOne(at)];
  }

  /** A command that was published once, is not acked, has not expired, whose device is registered,
      and that no continuation of the run ever publishes again. */
  lemma NeverRedelivered() returns (ls: seq<Label>, r: Row)
    ensures var s := Run(Init(), ls);
      && r in s.table && r.deliveredAt.Some? && r.ackAt.None? && r.expiresAt > s.now && r.device in s.devices
      && Occurs(s.published, r.cmdId) == 1
      && forall more :: Occurs(Run(s, more).published, r.cmdId) == 1
  {
    var first := RunsToUnmarked();
    MarksOne(0, 0);
    RunSnoc(Init(), first, Mark(true, 0));
    ls, r := first + [Mark(true, 0)], MarkedOne(0);
    assert [1][..0] == [];
    forall more ensures Occurs(Run(DeliveredState(0, 0), more).published, 1) == 1 {
      DeliveredNeverAgain(ls, r, more);
    }
  }

  /** An ack and a mark whose clocks were read in the other order than their statements ran: the row
      is acked at 0 and delivered at 1. */
  lemma AckedBeforeDelivered() returns (ls: seq<Label>, r: Row)
    ensures r in Run(Init(), ls).table
    ensures r.ackAt.Some? && r.deliveredAt.Some? && r.ackAt.value < r.deliveredAt.value
  {
    var body := AckBody(1, AckResult.Done, None);
    var first := RunsToUnmarked();
    var marked := DeliveredState(1, 1);
    var last := Apply(marked, AckOf(body, 0));
    MarksOne(1, 1);
    TicksOne();
    RunNone(last);
    var second := Before(marked, AckOf(body, 0), last, []);
    second := Before(OutButUnmarked(1), Mark(true, 1), marked, second);
    second := Before(OutButUnmarked(0), Tick(1), OutButUnmarked(1), second);
    RunAppend(Init(), first, second);
    ls := first + second;
    AckIsStep(marked, body, 0);
    r := last.table[0];
    AckInOrderIff(marked.table, 1, body.result, body.detail, 0, 0);
  }

  lemma TicksOne()
    ensures Apply(OutButUnmarked(0), Tick(1)) == OutButUnmarked(1)
  {
  }
}
