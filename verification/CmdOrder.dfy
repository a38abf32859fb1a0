// How often and in which order the pusher publishes, when it can sleep, and what a cancel stops.
module CmdOrder {
  import opened Wrappers
  import opened Seqs
  import opened CmdOutbox
  import opened CmdDelivery
  import opened CmdInvariants
  import opened CmdSafety

  // ---- At most once ------------------------------------------------------------------------------

  predicate BeingMarked(p: Pusher, c: CmdId) { p.Marking? && p.row.cmdId == c }

  ghost predicate OnceInv(s: State) {
    && (forall c :: Occurs(s.published, c) <= Occurs(s.markFailed, c) + 1)
    && (forall r :: r in s.table && r.deliveredAt.None? && !BeingMarked(s.pusher, r.cmdId) ==>
          Occurs(s.published, r.cmdId) <= Occurs(s.markFailed, r.cmdId))
    && (forall r :: r in ToPublish(s.pusher) ==> Occurs(s.published, r.cmdId) <= Occurs(s.markFailed, r.cmdId))
  }

  lemma OnceTable(s: State, l: Label)
    requires Inv(s) && OnceInv(s) && (l.DeleteDevice? || l.Send? || l.CancelCmd? || l.Ack?)
    ensures OnceInv(Apply(s, l))
  {
    hide OnceInv, BirthsOk, OwnersOk, InBirthOrder, Registered, ViewOf, TableOk, RowsAgree, PusherOk;
    var s' := Apply(s, l);
    assert s'.published == s.published && s'.markFailed == s.markFailed && s'.pusher == s.pusher;
    forall r' | r' in s'.table && r'.deliveredAt.None?
      ensures (exists r :: r in s.table && r.cmdId == r'.cmdId && r.deliveredAt.None?) || Occurs(s.published, r'.cmdId) == 0
    {
      if r'.cmdId in s.born {
        StepEvolves(s, l, r');
      } else {
        OccursPositive(s.published, r'.cmdId);
      }
    }
    OnceFewerRows(s, s');
  }

  lemma OnceFewerRows(s: State, s': State)
    requires OnceInv(s)
    requires s'.published == s.published && s'.markFailed == s.markFailed && s'.pusher == s.pusher
    requires forall r' :: r' in s'.table && r'.deliveredAt.None? ==>
      (exists r :: r in s.table && r.cmdId == r'.cmdId && r.deliveredAt.None?) || Occurs(s.published, r'.cmdId) == 0
    ensures OnceInv(s')
  {
  }

  /** A publish is left without its mark: a storage error, a panic, or a crash. */
  predicate LosesMark(s: State, l: Label) {
    s.pusher.Marking? && ((l.Mark? && !l.ok) || l == Abort || l == Restart)
  }

  lemma OncePusher(s: State, l: Label)
    requires Inv(s) && OnceInv(s) && !(l.DeleteDevice? || l.Send? || l.CancelCmd? || l.Ack?)
    ensures OnceInv(Apply(s, l))
  {
    hide OnceInv, Inv, Apply;
    if l == Snapshot(true) && s.pusher.Clocked? {
      OnceListed(s);
    } else if l == Put(true) && s.pusher.Routed? {
      OncePut(s);
    } else if WritesOrLists(s, l) {
      assert l == Mark(true, l.at);
      OnceMarked(s, l.at);
    } else if LosesMark(s, l) {
      OnceLost(s, l);
    } else {
      OnceQuiet(s, l);
    }
  }

  /** A quiet step that neither publishes nor loses a mark leaves the wire and the losses alone. */
  lemma QuietWire(s: State, l: Label)
    requires !WritesOrLists(s, l) && !(s.pusher.Routed? && l == Put(true))
    requires !LosesMark(s, l)
    ensures var s' := Apply(s, l); s'.published == s.published && s'.markFailed == s.markFailed
    ensures forall c :: BeingMarked(s.pusher, c) == BeingMarked(Apply(s, l).pusher, c)
  {
    hide ListPending, MarkDelivered, Cascade, SendStep, AckStep, CancelStep, CancelHits, Ids;
  }

  lemma QuietToPublish(s: State, l: Label)
    requires !WritesOrLists(s, l) && !(s.pusher.Routed? && l == Put(true))
    ensures forall r :: r in ToPublish(Apply(s, l).pusher) ==> r in ToPublish(s.pusher)
  {
    hide ListPending, MarkDelivered, Cascade, SendStep, AckStep, CancelStep, CancelHits, Ids;
  }

  lemma OnceQuiet(s: State, l: Label)
    requires OnceInv(s) && !WritesOrLists(s, l) && !(s.pusher.Routed? && l == Put(true))
    requires !LosesMark(s, l)
    ensures OnceInv(Apply(s, l))
  {
    hide Apply, Occurs, ToPublish, BeingMarked;
    QuietFrame(s, l);
    QuietWire(s, l);
    QuietToPublish(s, l);
  }

  lemma OnceListed(s: State)
    requires OnceInv(s) && s.pusher.Clocked?
    ensures OnceInv(Apply(s, Snapshot(true)))
  {
    FilterMember(PendingAt(s.pusher.t), s.table);
  }

  lemma OncePut(s: State)
    requires Inv(s) && OnceInv(s) && s.pusher.Routed?
    ensures OnceInv(Apply(s, Put(true)))
  {
    hide Inv;
    var s', row, rest := Apply(s, Put(true)), s.pusher.row, s.pusher.rest;
    forall c ensures Occurs(s'.published, c) == Occurs(s.published, c) + if c == row.cmdId then 1 else 0 {
      OccursSnoc(s.published, row.cmdId, c);
    }
    assert row in ToPublish(s.pusher);
    forall r | r in rest ensures r.cmdId != row.cmdId && r in ToPublish(s.pusher) {
      var i :| 0 <= i < |rest| && rest[i] == r;
      HeldDistinct(s, i + 1);
    }
  }

  lemma HeldDistinct(s: State, i: nat)
    requires Inv(s) && 0 < i < |InFlight(s.pusher)|
    ensures InFlight(s.pusher)[0].cmdId != InFlight(s.pusher)[i].cmdId
  {
    hide BirthsOk, OwnersOk, InBirthOrder, Registered, ViewOf, TableOk, RowsAgree, Accounted, Mentioned;
  }

  /** A publish whose mark is lost adds one to both sides of the bound. */
  lemma OnceLost(s: State, l: Label)
    requires OnceInv(s) && LosesMark(s, l)
    ensures OnceInv(Apply(s, l))
  {
    hide OnceInv;
    var s', e := Apply(s, l), s.pusher.row.cmdId;
    forall c ensures Occurs(s'.markFailed, c) == Occurs(s.markFailed, c) + if c == e then 1 else 0 {
      OccursSnoc(s.markFailed, e, c);
    }
    OnceExcused(s, s', e);
  }

  lemma OnceExcused(s: State, s': State, e: CmdId)
    requires OnceInv(s) && s.pusher.Marking? && s.pusher.row.cmdId == e
    requires s'.published == s.published && s'.table == s.table && !s'.pusher.Marking?
    requires forall r :: r in ToPublish(s'.pusher) ==> r in ToPublish(s.pusher)
    requires forall c :: Occurs(s'.markFailed, c) == Occurs(s.markFailed, c) + if c == e then 1 else 0
    ensures OnceInv(s')
  {
    hide Occurs;
  }

  lemma OnceMarked(s: State, at: int)
    requires OnceInv(s) && s.pusher.Marking? && at <= s.now
    ensures OnceInv(Apply(s, Mark(true, at)))
  {
    var s' := Apply(s, Mark(true, at));
    forall r' | r' in s'.table && r'.deliveredAt.None?
      ensures r' in s.table && r'.cmdId != s.pusher.row.cmdId
    {
      var i :| 0 <= i < |s'.table| && s'.table[i] == r';
      assert s.table[i] in s.table;
    }
  }

  lemma {:induction false} ReachableOnce(ls: seq<Label>)
    ensures OnceInv(Run(Init(), ls))
    decreases |ls|
  {
    if ls != [] {
      var l := ls[|ls| - 1];
      ReachableInv(ls[..|ls| - 1]);
      ReachableOnce(ls[..|ls| - 1]);
      if l.DeleteDevice? || l.Send? || l.CancelCmd? || l.Ack? {
        OnceTable(Run(Init(), ls[..|ls| - 1]), l);
      } else {
        OncePusher(Run(Init(), ls[..|ls| - 1]), l);
      }
    }
  }

  /** In every run, whatever fails, a command is published at most once more than the number of its
      publishes whose mark was lost; so with no lost mark it is published at most once. */
  lemma AtMostOnce(ls: seq<Label>, c: CmdId)
    ensures Occurs(Run(Init(), ls).published, c) <= 1 + Occurs(Run(Init(), ls).markFailed, c)
  {
    ReachableOnce(ls);
  }

  // ---- Commit order --------------------------------------------------------------------------------

  /** No lookup, publish or mark failed, and no drain was aborted. */
  predicate FaultFree(s: State) {
    s.skips == 0 && s.markFailed == []
  }

  /** The instant from which a row must be unexpired to matter to the running drain. */
  function Cutoff(s: State): int {
    if s.pusher.Clocked? then s.pusher.t else s.now
  }

  predicate Live(s: State, r: Row) {
    r.deliveredAt.None? && r.expiresAt > Cutoff(s)
  }

  ghost predicate After(born: map<CmdId, Birth>, cs: seq<CmdId>, c: CmdId) {
    c in born && forall p :: p in cs ==> p in born && born[p].no < born[c].no
  }

  ghost predicate Ascending(born: map<CmdId, Birth>, cs: seq<CmdId>) {
    forall i, j :: 0 <= i < j < |cs| ==>
      cs[i] in born && cs[j] in born && born[cs[i]].no < born[cs[j]].no
  }

  ghost predicate HeldBefore(born: map<CmdId, Birth>, held: seq<Row>, c: CmdId) {
    c in born && forall h :: h in held ==> h.cmdId in born && born[h.cmdId].no < born[c].no
  }

  ghost predicate FifoInv(s: State) {
    && Ascending(s.born, s.published)
    && (forall r :: r in ToPublish(s.pusher) ==> After(s.born, s.published, r.cmdId))
    && (forall r :: r in s.table && Live(s, r) && r.cmdId !in Ids(InFlight(s.pusher)) ==>
          After(s.born, s.published, r.cmdId) && HeldBefore(s.born, InFlight(s.pusher), r.cmdId))
  }

  lemma FaultsGrow(s: State, l: Label)
    requires FaultFree(Apply(s, l))
    ensures FaultFree(s)
  {
  }

  lemma FifoTable(s: State, l: Label)
    requires Inv(s) && FifoInv(s) && (l.DeleteDevice? || l.Send? || l.CancelCmd? || l.Ack?)
    ensures FifoInv(Apply(s, l))
  {
    hide FifoInv, BirthsOk, OwnersOk, InBirthOrder, Registered, ViewOf, TableOk, RowsAgree, PusherOk, Accounted;
    var s' := Apply(s, l);
    BornGrows(s, l);
    NewestLast(s, l);
    StepInv(s, l);
    RowsKnown(s');
    forall r' | r' in s'.table && r'.cmdId in s.born
      ensures exists r :: r in s.table && Evolved(r, r')
    {
      StepEvolves(s, l, r');
    }
    FifoFewerRows(s, s');
  }

  lemma RowsKnown(s: State)
    requires OwnersOk(s.born, s.table)
    ensures forall r :: r in s.table ==> r.cmdId in s.born
  {
  }

  /** A command committed by this step comes after everything published or held. */
  lemma NewestLast(s: State, l: Label)
    requires Inv(s) && (l.DeleteDevice? || l.Send? || l.CancelCmd? || l.Ack?)
    ensures var s' := Apply(s, l);
      forall c :: c in s'.born && c !in s.born ==>
        After(s'.born, s.published, c) && HeldBefore(s'.born, InFlight(s.pusher), c)
  {
    hide OwnersOk, Registered, ViewOf, TableOk, RowsAgree, PusherOk, Accounted;
    var s' := Apply(s, l);
    BornGrows(s, l);
    forall p | p in s.published ensures p in s.born {
      assert p in SetOf(s.published);
    }
  }

  lemma FifoFewerRows(s: State, s': State)
    requires FifoInv(s)
    requires s'.published == s.published && s'.pusher == s.pusher && s'.now == s.now
    requires forall c :: c in s.born ==> c in s'.born && s'.born[c] == s.born[c]
    requires forall c :: c in s'.born && c !in s.born ==>
      After(s'.born, s.published, c) && HeldBefore(s'.born, InFlight(s.pusher), c)
    requires forall r' :: r' in s'.table && r'.cmdId in s.born ==> exists r :: r in s.table && Evolved(r, r')
    requires forall r' :: r' in s'.table ==> r'.cmdId in s'.born
    ensures FifoInv(s')
  {
    hide After, HeldBefore, Ascending;
    assert Cutoff(s') == Cutoff(s);
    AscendingKept(s.born, s'.born, s.published);
    forall r | r in ToPublish(s.pusher) ensures After(s'.born, s.published, r.cmdId) {
      AfterKept(s.born, s'.born, s.published, [], r.cmdId);
    }
    forall r' | r' in s'.table && Live(s', r') && r'.cmdId !in Ids(InFlight(s'.pusher))
      ensures After(s'.born, s'.published, r'.cmdId) && HeldBefore(s'.born, InFlight(s'.pusher), r'.cmdId)
    {
      if r'.cmdId in s.born {
        var r :| r in s.table && Evolved(r, r');
        assert Live(s, r) && r.cmdId == r'.cmdId;
        AfterKept(s.born, s'.born, s.published, InFlight(s.pusher), r.cmdId);
      }
    }
  }

  lemma AscendingKept(born: map<CmdId, Birth>, born': map<CmdId, Birth>, cs: seq<CmdId>)
    requires forall e :: e in born ==> e in born' && born'[e] == born[e]
    requires Ascending(born, cs)
    ensures Ascending(born', cs)
  {
    forall i, j | 0 <= i < j < |cs|
      ensures cs[i] in born' && cs[j] in born' && born'[cs[i]].no < born'[cs[j]].no
    {
      assert cs[i] in born && cs[j] in born && born[cs[i]].no < born[cs[j]].no;
    }
  }

  lemma AfterKept(born: map<CmdId, Birth>, born': map<CmdId, Birth>, cs: seq<CmdId>, held: seq<Row>, c: CmdId)
    requires forall e :: e in born ==> e in born' && born'[e] == born[e]
    requires After(born, cs, c)
    ensures After(born', cs, c) && (HeldBefore(born, held, c) ==> HeldBefore(born', held, c))
  {
  }

  lemma FifoPusher(s: State, l: Label)
    requires Inv(s) && FifoInv(s) && FaultFree(Apply(s, l))
    requires !(l.DeleteDevice? || l.Send? || l.CancelCmd? || l.Ack?)
    ensures FifoInv(Apply(s, l))
  {
    hide FifoInv, Inv, FaultFree, Apply;
    PusherPart(s);
    if l == Snapshot(true) && s.pusher.Clocked? {
      FifoListed(s);
    } else if l == Put(true) && s.pusher.Routed? {
      FifoPut(s);
    } else if WritesOrLists(s, l) {
      assert l == Mark(true, l.at);
      FifoMarked(s, l.at);
    } else if l == Restart {
      FifoRestart(s);
    } else if l.FindDevice? && s.pusher.Sending? {
      assert l == FindDevice(l.ok);
      FifoRouted(s, l.ok);
    } else {
      FifoQuiet(s, l);
    }
  }

  lemma PusherPart(s: State)
    requires Inv(s)
    ensures PusherOk(s)
  {
  }

  lemma FifoQuiet(s: State, l: Label)
    requires FifoInv(s) && !WritesOrLists(s, l) && FaultFree(Apply(s, l)) && PusherOk(s)
    requires !(s.pusher.Routed? && l == Put(true)) && !(s.pusher.Sending? && l.FindDevice?) && l != Restart
    ensures FifoInv(Apply(s, l))
  {
    hide PusherOk, Ascending, After, HeldBefore;
    hide ListPending, MarkDelivered, Cascade, SendStep, AckStep, CancelStep, CancelHits;
    var s' := Apply(s, l);
    CutoffGrows(s, l);
    assert s'.table == s.table && s'.published == s.published && s'.born == s.born;
    assert InFlight(s'.pusher) == InFlight(s.pusher) && ToPublish(s'.pusher) == ToPublish(s.pusher);
  }

  lemma CutoffGrows(s: State, l: Label)
    requires PusherOk(s) && !WritesOrLists(s, l)
    ensures Cutoff(Apply(s, l)) >= Cutoff(s)
  {
    hide ListPending, MarkDelivered, Cascade, SendStep, AckStep, CancelStep, CancelHits, Ids;
  }

  lemma FifoListed(s: State)
    requires Inv(s) && FifoInv(s) && s.pusher.Clocked?
    ensures FifoInv(Apply(s, Snapshot(true)))
  {
    hide BirthsOk, OwnersOk, InBirthOrder, Registered, ViewOf, TableOk, RowsAgree, Accounted, Mentioned, After, Ascending, HeldBefore;
    FilterMember(PendingAt(s.pusher.t), s.table);
  }

  /** Publishing the oldest held row keeps the log in commit order. */
  lemma FifoPut(s: State)
    requires Inv(s) && FifoInv(s) && s.pusher.Routed?
    ensures FifoInv(Apply(s, Put(true)))
  {
    hide Inv, Ascending, After;
    var s', row, rest := Apply(s, Put(true)), s.pusher.row, s.pusher.rest;
    assert row in ToPublish(s.pusher) && InFlight(s'.pusher) == InFlight(s.pusher);
    AscendingSnoc(s.born, s.published, row.cmdId);
    FirstIsOldest(s);
    forall r | r in rest ensures After(s.born, s'.published, r.cmdId) {
      assert r in ToPublish(s.pusher);
      AfterSnoc(s.born, s.published, row.cmdId, r.cmdId);
    }
    forall r | r in s.table && Live(s, r) && r.cmdId !in Ids(InFlight(s.pusher))
      ensures After(s.born, s'.published, r.cmdId)
    {
      assert row in InFlight(s.pusher);
      AfterSnoc(s.born, s.published, row.cmdId, r.cmdId);
    }
  }

  lemma AscendingSnoc(born: map<CmdId, Birth>, cs: seq<CmdId>, c: CmdId)
    requires Ascending(born, cs) && After(born, cs, c)
    ensures Ascending(born, cs + [c])
  {
  }

  lemma AfterSnoc(born: map<CmdId, Birth>, cs: seq<CmdId>, d: CmdId, c: CmdId)
    requires After(born, cs, c) && d in born && born[d].no < born[c].no
    ensures After(born, cs + [d], c)
  {
  }

  lemma FirstIsOldest(s: State)
    requires Inv(s) && s.pusher.Routed?
    ensures s.pusher.row.cmdId in s.born
    ensures forall r :: r in s.pusher.rest ==>
      r.cmdId in s.born && s.born[s.pusher.row.cmdId].no < s.born[r.cmdId].no
  {
    hide BirthsOk, OwnersOk, Registered, ViewOf, TableOk, RowsAgree, Accounted, Mentioned, UniqueCmds;
    var held := InFlight(s.pusher);
    assert held[0] == s.pusher.row;
    forall r | r in s.pusher.rest ensures r in held && held[0].id < r.id {
      var i :| 0 <= i < |s.pusher.rest| && s.pusher.rest[i] == r;
      assert held[i + 1] == r;
    }
  }

  /** A crash drops the drain; what it still held is left in the table, after everything published. */
  lemma FifoRestart(s: State)
    requires FifoInv(s) && PusherOk(s) && FaultFree(Apply(s, Restart))
    ensures FifoInv(Apply(s, Restart))
  {
    hide PusherOk, Ascending, After, HeldBefore;
    var s' := Apply(s, Restart);
    assert !s.pusher.Marking? && ToPublish(s.pusher) == InFlight(s.pusher);
    assert Cutoff(s') >= Cutoff(s) by { CutoffGrows(s, Restart); }
    forall r | r in s'.table && Live(s', r)
      ensures After(s'.born, s'.published, r.cmdId) && HeldBefore(s'.born, [], r.cmdId)
    {
      if r.cmdId in Ids(InFlight(s.pusher)) {
        var h :| h in InFlight(s.pusher) && h.cmdId == r.cmdId;
        assert After(s.born, s.published, h.cmdId);
      }
      NothingHeldBefore(s.born, s.published, r.cmdId);
    }
  }

  lemma NothingHeldBefore(born: map<CmdId, Birth>, cs: seq<CmdId>, c: CmdId)
    ensures After(born, cs, c) ==> HeldBefore(born, [], c)
  {
  }

  lemma FifoMarked(s: State, at: int)
    requires Inv(s) && FifoInv(s) && s.pusher.Marking? && at <= s.now
    ensures FifoInv(Apply(s, Mark(true, at)))
  {
    hide BirthsOk, OwnersOk, InBirthOrder, Registered, ViewOf, TableOk, RowsAgree, Accounted, Mentioned, Ascending, After;
    hide PusherOk, CancelHits, Sorted, UniqueCmds;
    var s' := Apply(s, Mark(true, at));
    var held := InFlight(s.pusher);
    assert held == [s.pusher.row] + s.pusher.rest;
    forall r' | r' in s'.table && Live(s', r')
      ensures r' in s.table && r'.cmdId != s.pusher.row.cmdId
    {
      var i :| 0 <= i < |s'.table| && s'.table[i] == r';
      assert s.table[i] in s.table;
    }
  }

  /** Routing a row moves nothing; a row whose device has gone has left the table with it. */
  lemma FifoRouted(s: State, ok: bool)
    requires Inv(s) && FifoInv(s) && s.pusher.Sending? && FaultFree(Apply(s, FindDevice(ok)))
    ensures FifoInv(Apply(s, FindDevice(ok)))
  {
    hide BirthsOk, InBirthOrder, TableOk, RowsAgree, Accounted, Mentioned, Ascending, After;
    var s', todo := Apply(s, FindDevice(ok)), s.pusher.todo;
    if todo != [] {
      assert todo == [todo[0]] + todo[1..];
      if todo[0].device !in s.devices {
        assert todo[0] in InFlight(s.pusher);
        assert forall r :: r in s.table ==> r.cmdId != todo[0].cmdId;
      }
    }
  }

  lemma {:induction false} ReachableFifo(ls: seq<Label>)
    requires FaultFree(Run(Init(), ls))
    ensures FifoInv(Run(Init(), ls))
    decreases |ls|
  {
    if ls != [] {
      var l, s := ls[|ls| - 1], Run(Init(), ls[..|ls| - 1]);
      FaultsGrow(s, l);
      ReachableInv(ls[..|ls| - 1]);
      ReachableFifo(ls[..|ls| - 1]);
      if l.DeleteDevice? || l.Send? || l.CancelCmd? || l.Ack? {
        FifoTable(s, l);
      } else {
        FifoPusher(s, l);
      }
    }
  }

  /** Without faults the commands published over the whole run are in strict commit order, across
      any number of drains and whatever is sent, cancelled or acked in between. */
  lemma PublishedInCommitOrder(ls: seq<Label>, i: nat, j: nat)
    requires FaultFree(Run(Init(), ls)) && i < j < |Run(Init(), ls).published|
    ensures var s := Run(Init(), ls);
      && s.published[i] in s.born && s.published[j] in s.born
      && s.born[s.published[i]].no < s.born[s.published[j]].no
  {
    ReachableFifo(ls);
    AscendingAt(Run(Init(), ls), i, j);
    hide FifoInv, Run;
  }

  lemma AscendingAt(s: State, i: nat, j: nat)
    requires FifoInv(s) && i < j < |s.published|
    ensures s.published[i] in s.born && s.published[j] in s.born
    ensures s.born[s.published[i]].no < s.born[s.published[j]].no
  {
  }

  // ---- No lost wake-up -----------------------------------------------------------------------------

  /** Somebody is still going to deal with this row, or the last drain gave up on it. */
  predicate Covered(s: State, c: CmdId) {
    || s.permit || c in s.unnotified || c in s.missed
    || s.pusher.Starting? || s.pusher.Clocked?
    || c in Ids(InFlight(s.pusher))
    || (s.pusher.Parked? && s.snapshotFailed)
  }

  ghost predicate WakeInv(s: State) {
    forall r :: r in s.table && Live(s, r) ==> Covered(s, r.cmdId)
  }

  lemma WakeTable(s: State, l: Label)
    requires Inv(s) && WakeInv(s) && (l.DeleteDevice? || l.Send? || l.CancelCmd? || l.Ack?)
    ensures WakeInv(Apply(s, l))
  {
    hide Inv;
    var s' := Apply(s, l);
    forall r' | r' in s'.table && Live(s', r') ensures Covered(s', r'.cmdId) {
      if r'.cmdId in s.born {
        StepEvolves(s, l, r');
      } else {
        StepInv(s, l);
        NewbornUnnotified(s, l, r');
      }
    }
  }

  lemma NewbornUnnotified(s: State, l: Label, r': Row)
    requires Inv(s) && Inv(Apply(s, l)) && r' in Apply(s, l).table && r'.cmdId !in s.born
    requires l.DeleteDevice? || l.Send? || l.CancelCmd? || l.Ack?
    ensures r'.cmdId in Apply(s, l).unnotified
  {
    hide BirthsOk, InBirthOrder, Registered, ViewOf, TableOk, RowsAgree, Accounted, Mentioned;
    assert r'.cmdId in Apply(s, l).born;
  }

  lemma WakePusher(s: State, l: Label)
    requires Inv(s) && WakeInv(s) && !(l.DeleteDevice? || l.Send? || l.CancelCmd? || l.Ack?)
    ensures WakeInv(Apply(s, l))
  {
    hide Inv, Apply, WakeInv;
    PusherPart(s);
    if l == Snapshot(true) && s.pusher.Clocked? {
      WakeListed(s);
    } else if WritesOrLists(s, l) {
      assert l == Mark(true, l.at);
      WakeMarked(s, l.at);
    } else {
      WakeQuiet(s, l);
    }
  }

  lemma WakeListed(s: State)
    requires WakeInv(s) && s.pusher.Clocked? && PusherOk(s)
    ensures WakeInv(Apply(s, Snapshot(true)))
  {
    hide Sorted, UniqueCmds;
    FilterMember(PendingAt(s.pusher.t), s.table);
  }

  lemma WakeQuiet(s: State, l: Label)
    requires WakeInv(s) && !WritesOrLists(s, l) && PusherOk(s)
    ensures WakeInv(Apply(s, l))
  {
    hide Sorted, UniqueCmds;
    var s' := Apply(s, l);
    CutoffGrows(s, l);
    QuietFrame(s, l);
    forall c | Covered(s, c) ensures Covered(s', c) {
      HeldOrMissed(s, l, c);
    }
  }

  /** A row leaves the pusher's hands without being marked only by being counted as missed. */
  lemma HeldOrMissed(s: State, l: Label, c: CmdId)
    requires !WritesOrLists(s, l) && Covered(s, c)
    ensures Covered(Apply(s, l), c)
  {
    var held := InFlight(s.pusher);
    assert held != [] ==> held == [held[0]] + held[1..];
  }

  lemma WakeMarked(s: State, at: int)
    requires WakeInv(s) && s.pusher.Marking? && at <= s.now
    ensures WakeInv(Apply(s, Mark(true, at)))
  {
    var s' := Apply(s, Mark(true, at));
    assert InFlight(s.pusher) == [s.pusher.row] + s.pusher.rest;
    forall r' | r' in s'.table && Live(s', r')
      ensures r' in s.table && r'.cmdId != s.pusher.row.cmdId
    {
      var i :| 0 <= i < |s'.table| && s'.table[i] == r';
      assert s.table[i] in s.table;
    }
  }

  lemma {:induction false} ReachableWake(ls: seq<Label>)
    ensures WakeInv(Run(Init(), ls))
    decreases |ls|
  {
    if ls != [] {
      var l, s := ls[|ls| - 1], Run(Init(), ls[..|ls| - 1]);
      ReachableInv(ls[..|ls| - 1]);
      ReachableWake(ls[..|ls| - 1]);
      if l.DeleteDevice? || l.Send? || l.CancelCmd? || l.Ack? {
        WakeTable(s, l);
      } else {
        WakePusher(s, l);
      }
    }
  }

  /** While the pusher is parked, every pending row was given up on by the last drain, or its sender
      has not called notify yet, or a permit is stored that will wake the pusher at once. */
  lemma NoLostWakeup(ls: seq<Label>, r: Row)
    requires var s := Run(Init(), ls);
      s.pusher.Parked? && r in s.table && DeriveStatus(r, s.now) == Pending
    ensures var s := Run(Init(), ls);
      s.permit || r.cmdId in s.unnotified || r.cmdId in s.missed || s.snapshotFailed
  {
    ReachableWake(ls);
  }

  // ---- Cancel ----------------------------------------------------------------------------------------

  /** A command that can never be published again: committed, out of the table, out of the drain. */
  ghost predicate Gone(s: State, c: CmdId) {
    c in s.born && c !in Ids(s.table) && c !in Ids(ToPublish(s.pusher))
  }

  lemma GoneFromTable(s: State, l: Label, c: CmdId)
    requires c in s.born && c !in Ids(s.table)
    ensures c !in Ids(Apply(s, l).table)
  {
    forall r' | r' in Apply(s, l).table ensures r'.cmdId != c {
      if r'.cmdId == c {
        StepEvolves(s, l, r');
      }
    }
  }

  lemma GoneStep(s: State, l: Label, c: CmdId)
    requires Gone(s, c)
    ensures Gone(Apply(s, l), c) && Occurs(Apply(s, l).published, c) == Occurs(s.published, c)
  {
    hide Occurs;
    BornGrows(s, l);
    GoneFromTable(s, l, c);
    match (l, s.pusher) {
      case (Snapshot(true), Clocked(t)) => FilterMember(PendingAt(t), s.table);
      case (Put(true), Routed(row, rest)) =>
        assert row in ToPublish(s.pusher);
        OccursSnoc(s.published, row.cmdId, c);
      case _ => PusherOnlyDrops(s, l);
    }
  }

  lemma PusherOnlyDrops(s: State, l: Label)
    requires !(l == Snapshot(true) && s.pusher.Clocked?) && !(l == Put(true) && s.pusher.Routed?)
    ensures forall r :: r in ToPublish(Apply(s, l).pusher) ==> r in ToPublish(s.pusher)
    ensures Apply(s, l).published == s.published
  {
  }

  lemma {:induction false} GoneForever(s: State, ls: seq<Label>, c: CmdId)
    requires Gone(s, c)
    ensures Gone(Run(s, ls), c) && Occurs(Run(s, ls).published, c) == Occurs(s.published, c)
    decreases |ls|
  {
    if ls != [] {
      GoneForever(s, ls[..|ls| - 1], c);
      GoneStep(Run(s, ls[..|ls| - 1]), ls[|ls| - 1], c);
    }
  }
}
