// What a successful cancel guarantees and what it does not, and what reused rowids do to the
// order of the wire.
module CmdCancel {
  import opened Wrappers
  import opened Seqs
  import opened CmdOutbox
  import opened CmdDelivery
  import opened CmdInvariants
  import opened CmdSafety
  import opened CmdOrder

  lemma {:induction false} CancelledStays(s: State, ls: seq<Label>, c: CmdId)
    requires c in s.cancelled
    ensures c in Run(s, ls).cancelled
    decreases |ls|
  {
    hide Apply;
    if ls != [] {
      CancelledStays(s, ls[..|ls| - 1], c);
      CancelledGrows(Run(s, ls[..|ls| - 1]), ls[|ls| - 1]);
    }
  }

  lemma CancelledGrows(s: State, l: Label)
    ensures s.cancelled <= Apply(s, l).cancelled
  {
    hide ListPending, MarkDelivered, Cascade, CancelHits, Cancel, Ids;
  }

  /** A cancel that returned true is the only one: in every later state no cancel, mark or ack of
      that command finds a row, so none of them changes the table. */
  lemma CancelIsFinal(ls: seq<Label>, more: seq<Label>, c: CmdId)
    requires CancelHits(Run(Init(), ls).table, c)
    ensures var s := Run(Run(Init(), ls + [CancelCmd(c)]), more);
      && Occurs(s.cancelled, c) == 1
      && !CancelHits(s.table, c)
      && (forall result, detail, now :: RecordAck(s.table, c, result, detail, now) == s.table)
      && (forall now :: MarkDelivered(s.table, c, now) == s.table)
  {
    var s0 := Run(Init(), ls);
    var s1 := Run(Init(), ls + [CancelCmd(c)]);
    assert (ls + [CancelCmd(c)])[..|ls|] == ls;
    assert s1 == CancelStep(s0, c) && c in s1.cancelled;
    var s := Run(s1, more);
    RunAppend(Init(), ls + [CancelCmd(c)], more);
    ReachableInv(ls + [CancelCmd(c)] + more);
    CancelledStays(s1, more, c);
    CancelledIsAbsent(s, c);
  }

  lemma CancelledIsAbsent(s: State, c: CmdId)
    requires Inv(s) && c in s.cancelled
    ensures c !in Ids(s.table) && Occurs(s.cancelled, c) == 1 && !CancelHits(s.table, c)
    ensures forall result, detail, now :: RecordAck(s.table, c, result, detail, now) == s.table
    ensures forall now :: MarkDelivered(s.table, c, now) == s.table
  {
    hide BirthsOk, OwnersOk, InBirthOrder, Registered, ViewOf, TableOk, RowsAgree, Mentioned, PusherOk;
    assert c in SetOf(s.cancelled);
    OnceInDistinct(s.cancelled, c);
    AbsentIsInert(s.table, c);
  }

  lemma AbsentIsInert(t: Table, c: CmdId)
    requires c !in Ids(t)
    ensures !CancelHits(t, c)
    ensures forall result, detail, now :: RecordAck(t, c, result, detail, now) == t
    ensures forall now :: MarkDelivered(t, c, now) == t
  {
    assert forall i :: 0 <= i < |t| ==> t[i] in t;
  }

  lemma {:induction false} OnceInDistinct(cs: seq<CmdId>, c: CmdId)
    requires Distinct(cs)
    ensures Occurs(cs, c) == if c in cs then 1 else 0
  {
    if cs != [] {
      var init := cs[..|cs| - 1];
      OnceInDistinct(init, c);
      assert cs == init + [cs[|cs| - 1]];
      assert c == cs[|cs| - 1] ==> c !in init;
    }
  }

  lemma PublishHead(s: State) returns (ls: seq<Label>)
    requires s.pusher.Sending? && s.pusher.todo != []
    ensures Occurs(Run(s, ls).published, s.pusher.todo[0].cmdId) > Occurs(s.published, s.pusher.todo[0].cmdId)
  {
    hide Run, Occurs;
    hide ListPending, MarkDelivered, Cascade, SendStep, AckStep, CancelStep, CancelHits;
    var row := s.pusher.todo[0];
    var s1 := Apply(s, CreateDevice(row.device));
    var s2 := Apply(s1, FindDevice(true));
    ls := [CreateDevice(row.device)] + ([FindDevice(true)] + [Put(true)]);
    RunCons(s, CreateDevice(row.device), [FindDevice(true)] + [Put(true)]);
    RunCons(s1, FindDevice(true), [Put(true)]);
    RunCons(s2, Put(true), []);
    RunNone(Apply(s2, Put(true)));
    assert [Put(true)] == [Put(true)] + [];
    OccursSnoc(s.published, row.cmdId, row.cmdId);
  }

  /** The shortest way for the running drain to publish `c`. */
  lemma {:induction false} CanStillPublish(s: State, c: CmdId) returns (ls: seq<Label>)
    requires c in Ids(ToPublish(s.pusher))
    ensures Occurs(Run(s, ls).published, c) > Occurs(s.published, c)
    decreases |InFlight(s.pusher)|, 1
  {
    hide Run, Occurs;
    hide ListPending, MarkDelivered, Cascade, SendStep, AckStep, CancelStep, CancelHits;
    match s.pusher
    case Routed(row, rest) =>
      if row.cmdId == c {
        ls := [Put(true)];
        RunCons(s, Put(true), []);
        RunNone(Apply(s, Put(true)));
        assert [Put(true)] == [Put(true)] + [];
        OccursSnoc(s.published, c, c);
      } else {
        ls := PublishLater(s, Put(false), c);
      }
    case Marking(row, rest) => ls := PublishLater(s, Mark(false, 0), c);
    case Sending(todo) =>
      if todo[0].cmdId == c {
        ls := PublishHead(s);
      } else {
        ls := PublishLater(s, FindDevice(false), c);
      }
  }

  lemma {:induction false} PublishLater(s: State, l: Label, c: CmdId) returns (ls: seq<Label>)
    requires c in Ids(ToPublish(s.pusher)) && Apply(s, l).published == s.published
    requires c in Ids(ToPublish(Apply(s, l).pusher))
    requires |InFlight(Apply(s, l).pusher)| < |InFlight(s.pusher)|
    ensures Occurs(Run(s, ls).published, c) > Occurs(s.published, c)
    decreases |InFlight(s.pusher)|, 0
  {
    hide Run, Apply, Occurs;
    var rest := CanStillPublish(Apply(s, l), c);
    ls := [l] + rest;
    RunCons(s, l, rest);
  }

  /** A cancelled command goes out after its cancel exactly when the running drain had already
      listed it and not yet published it. */
  lemma CancelledGoesOutIff(ls: seq<Label>, c: CmdId)
    requires c in Run(Init(), ls).cancelled
    ensures var s := Run(Init(), ls);
      (exists more :: Occurs(Run(s, more).published, c) > Occurs(s.published, c)) <==> c in Ids(ToPublish(s.pusher))
  {
    var s := Run(Init(), ls);
    ReachableInv(ls);
    if c in Ids(ToPublish(s.pusher)) {
      var more := CanStillPublish(s, c);
    } else {
      CancelledIsGone(s, c);
      forall more ensures Occurs(Run(s, more).published, c) == Occurs(s.published, c) {
        GoneForever(s, more, c);
      }
    }
  }

  lemma CancelledIsGone(s: State, c: CmdId)
    requires Inv(s) && c in s.cancelled && c !in Ids(ToPublish(s.pusher))
    ensures Gone(s, c)
  {
    hide BirthsOk, OwnersOk, InBirthOrder, Registered, ViewOf, TableOk, RowsAgree, Mentioned, PusherOk;
    assert c in SetOf(s.cancelled);
  }

  // ---- Rowids ------------------------------------------------------------------------------------

  /** Rowids of the published rows, in publication order. */
  function WireIds(s: State): seq<RowId>
    requires forall c :: c in s.published ==> c in s.born
  {
    seq(|s.published|, i requires 0 <= i < |s.published| => s.born[s.published[i]].id)
  }

  /** Later commands have larger rowids, over the whole history. */
  ghost predicate FreshIds(born: map<CmdId, Birth>) {
    forall c, e :: c in born && e in born && born[c].no < born[e].no ==> born[c].id < born[e].id
  }

  lemma FreshAppendIff(born: map<CmdId, Birth>, births: nat, c: CmdId, b: Birth)
    requires c !in born && b.no == births && (forall e :: e in born ==> born[e].no < births) && FreshIds(born)
    ensures FreshIds(born[c := b]) <==> forall e :: e in born ==> born[e].id < b.id
  {
    var born' := born[c := b];
    if FreshIds(born') {
      forall e | e in born ensures born[e].id < b.id {
        assert born'[e].no < born'[c].no;
      }
    }
  }

  lemma BelowNextIff(born: map<CmdId, Birth>, t: Table)
    requires Sorted(t)
    ensures (forall e :: e in born ==> born[e].id < NextRowId(t)) <==>
            born == map[] || exists r :: r in t && forall e :: e in born ==> born[e].id <= r.id
  {
    NextRowIdAbove(t);
    if t != [] {
      assert t[|t| - 1] in t;
    }
    if (forall e :: e in born ==> born[e].id < NextRowId(t)) && born != map[] {
      var e :| e in born;
      assert t != [];
      var r := t[|t| - 1];
      assert forall e :: e in born ==> born[e].id <= r.id;
    }
  }

  lemma SentBirth(s: State, l: Label)
    requires Inv(s) && l.Send? && Apply(s, l) != s
    ensures Apply(s, l).born == s.born[l.c := Birth(s.births, l.device, NextRowId(s.table))] && l.c !in s.born
    ensures Sorted(s.table) && forall e :: e in s.born ==> s.born[e].no < s.births
  {
    hide OwnersOk, InBirthOrder, Registered, ViewOf, RowsAgree, Mentioned, PusherOk, Accounted;
  }

  /** A send keeps rowids fresh exactly when the row with the highest id ever handed out is still in
      the table; deleting it makes SQLite hand the id out again. */
  lemma SendKeepsIdsFreshIff(ls: seq<Label>, l: Label)
    requires var s := Run(Init(), ls); l.Send? && FreshIds(s.born) && Apply(s, l) != s
    ensures var s := Run(Init(), ls);
      FreshIds(Apply(s, l).born) <==>
        s.born == map[] || exists r :: r in s.table && forall c :: c in s.born ==> s.born[c].id <= r.id
  {
    hide Inv, Apply, Run, FreshIds, Sorted;
    var s := Run(Init(), ls);
    ReachableInv(ls);
    SentBirth(s, l);
    FreshAppendIff(s.born, s.births, l.c, Birth(s.births, l.device, NextRowId(s.table)));
    BelowNextIff(s.born, s.table);
  }

  /** If this is a send that is accepted, the row with the highest id ever handed out is in the table. */
  ghost predicate TopIsPresent(s: State, l: Label) {
    l.Send? && Apply(s, l) != s ==>
      s.born == map[] || exists r :: r in s.table && forall c :: c in s.born ==> s.born[c].id <= r.id
  }

  /** At every step of the run. */
  ghost predicate TopAlwaysPresent(ls: seq<Label>) {
    forall k :: 0 <= k < |ls| ==> TopIsPresent(Run(Init(), ls[..k]), ls[k])
  }

  lemma OnlySendsAreBorn(s: State, l: Label)
    ensures !l.Send? ==> Apply(s, l).born == s.born
    ensures l.Send? && Apply(s, l) != s ==>
              var born := Apply(s, l).born; l.c !in s.born && l.c in born && born == s.born[l.c := born[l.c]]
  {
    hide ListPending, MarkDelivered, Cascade, CancelHits, Cancel, Ids, RecordAck, Enqueue, NextRowId;
    if l.Send? && Apply(s, l) != s {
      assert Apply(s, l).born == s.born[l.c := Birth(s.births, l.device, NextRowId(s.table))];
    }
  }

  lemma FreshBefore(s: State, l: Label)
    requires FreshIds(Apply(s, l).born)
    ensures FreshIds(s.born)
  {
    hide Apply;
    OnlySendsAreBorn(s, l);
    var after := Apply(s, l).born;
    assert forall c :: c in s.born ==> c in after && after[c] == s.born[c];
  }

  lemma TopInFront(ls: seq<Label>)
    requires ls != []
    ensures var n := |ls| - 1;
      TopAlwaysPresent(ls) <==> TopAlwaysPresent(ls[..n]) && TopIsPresent(Run(Init(), ls[..n]), ls[n])
  {
    hide Run, TopIsPresent;
    var n := |ls| - 1;
    assert forall k :: 0 <= k < n ==> ls[..n][..k] == ls[..k] && ls[..n][k] == ls[k];
  }

  /** Rowids increase over the whole history exactly when every accepted send found the row with the
      highest id ever handed out still in the table. */
  lemma {:induction false} IdsAlwaysFreshIff(ls: seq<Label>)
    ensures FreshIds(Run(Init(), ls).born) <==> TopAlwaysPresent(ls)
    decreases |ls|
  {
    if ls != [] {
      hide Apply, FreshIds, TopAlwaysPresent;
      var n := |ls| - 1;
      var front, l := ls[..n], ls[n];
      var s := Run(Init(), front);
      IdsAlwaysFreshIff(front);
      TopInFront(ls);
      OnlySendsAreBorn(s, l);
      if FreshIds(Apply(s, l).born) { FreshBefore(s, l); }
      if FreshIds(s.born) && l.Send? && Apply(s, l) != s { SendKeepsIdsFreshIff(front, l); }
    }
  }

  /** Without faults, if every accepted send found that row, the wire carries strictly increasing rowids. */
  lemma WireIdsIncrease(ls: seq<Label>)
    requires FaultFree(Run(Init(), ls)) && TopAlwaysPresent(ls)
    ensures var s := Run(Init(), ls);
      (forall c :: c in s.published ==> c in s.born) &&
      forall i, j :: 0 <= i < j < |WireIds(s)| ==> WireIds(s)[i] < WireIds(s)[j]
  {
    hide Run, FaultFree, TopAlwaysPresent, WireIds;
    IdsAlwaysFreshIff(ls);
    WireIdsIncreaseIff(ls);
  }

  /** Among the commands `cs`, later ones have larger rowids. */
  ghost predicate FreshAmong(born: map<CmdId, Birth>, cs: seq<CmdId>) {
    forall c, e | c in cs && e in cs && c in born && e in born && born[c].no < born[e].no ::
      born[c].id < born[e].id
  }

  lemma IdsIncreaseIff(born: map<CmdId, Birth>, cs: seq<CmdId>, ids: seq<RowId>)
    requires Ascending(born, cs) && |ids| == |cs|
    requires forall i :: 0 <= i < |cs| ==> cs[i] in born && ids[i] == born[cs[i]].id
    ensures FreshAmong(born, cs) <==> forall i, j :: 0 <= i < j < |ids| ==> ids[i] < ids[j]
  {
    if forall i, j :: 0 <= i < j < |ids| ==> ids[i] < ids[j] {
      forall c, e | c in cs && e in cs && c in born && e in born && born[c].no < born[e].no
        ensures born[c].id < born[e].id
      {
        var i :| 0 <= i < |cs| && cs[i] == c;
        var j :| 0 <= j < |cs| && cs[j] == e;
        assert forall a, b :: 0 <= a < b < |cs| ==> born[cs[a]].no < born[cs[b]].no;
        assert i < j;
      }
    }
  }

  lemma WireAscends(ls: seq<Label>)
    requires FaultFree(Run(Init(), ls))
    ensures Ascending(Run(Init(), ls).born, Run(Init(), ls).published)
  {
    ReachableFifo(ls);
    hide Run, FaultFree;
  }

  /** Without faults the wire carries strictly increasing rowids exactly when, among the commands
      published, none was given a rowid that an earlier one already had or passed. */
  lemma WireIdsIncreaseIff(ls: seq<Label>)
    requires FaultFree(Run(Init(), ls))
    ensures var s := Run(Init(), ls);
      (forall c :: c in s.published ==> c in s.born) &&
      (FreshAmong(s.born, s.published) <==>
         forall i, j :: 0 <= i < j < |WireIds(s)| ==> WireIds(s)[i] < WireIds(s)[j])
  {
    hide Inv, Run, FaultFree, FreshAmong, Ascending;
    var s := Run(Init(), ls);
    ReachableInv(ls);
    PublishedKnown(s);
    WireAscends(ls);
    IdsIncreaseIff(s.born, s.published, WireIds(s));
  }

  lemma PublishedKnown(s: State)
    requires Inv(s)
    ensures forall c :: c in s.published ==> c in s.born
  {
    hide BirthsOk, OwnersOk, InBirthOrder, Registered, ViewOf, TableOk, RowsAgree, Accounted, PusherOk;
    assert forall c :: c in s.published ==> c in SetOf(s.published);
  }

  function SendOne(c: CmdId): Label {
    Send(c, 7, "reboot", "", 0, None)
  }

  function RowOne(c: CmdId): Row {
    Fresh([], c, 7, "reboot", "", 0, ExpiryOf(0, None))
  }

  function HalfWay(): State {
    Init().(devices := {7}, table := [RowOne(2)], pusher := Sending([RowOne(1)]),
            born := map[1 := Birth(0, 7, 1), 2 := Birth(1, 7, 1)], births := 2,
            unnotified := {1, 2}, cancelled := [1])
  }

  /** Put one step in front of a run. */
  lemma Before(s: State, l: Label, s': State, ls: seq<Label>) returns (ls': seq<Label>)
    requires Apply(s, l) == s'
    ensures Run(s, ls') == Run(s', ls)
  {
    ls' := [l] + ls;
    RunCons(s, l, ls);
  }

  function Sent(): State {
    Init().(devices := {7}, table := [RowOne(1)], born := map[1 := Birth(0, 7, 1)], births := 1, unnotified := {1})
  }

  function Held(): State { Sent().(pusher := Sending([RowOne(1)])) }

  lemma RunsToHeld() returns (ls: seq<Label>)
    ensures Run(Init(), ls) == Held()
  {
    hide Run;
    FilterOne(PendingAt(0), RowOne(1));
    var a := Init().(devices := {7});
    RunNone(Held());
    ls := [];
    ls := Before(Sent().(pusher := Clocked(0)), Snapshot(true), Held(), ls);
    ls := Before(Sent(), ReadClock, Sent().(pusher := Clocked(0)), ls);
    ls := Before(a, SendOne(1), Sent(), ls);
    ls := Before(Init(), CreateDevice(7), a, ls);
  }

  lemma RunsPastCancel() returns (ls: seq<Label>)
    ensures Run(Held(), ls) == HalfWay()
  {
    hide Run;
    FilterOne(Not(Cancellable(1)), RowOne(1));
    var cut := Held().(table := [], cancelled := [1]);
    assert RowOne(1) in Held().table && Cancellable(1)(RowOne(1));
    RunNone(HalfWay());
    ls := [];
    ls := Before(cut, SendOne(2), HalfWay(), ls);
    ls := Before(Held(), CancelCmd(1), cut, ls);
  }

  /** Command 1 is cancelled while the drain holds it, and command 2 takes over its id. */
  lemma RunsToHalfWay() returns (ls: seq<Label>)
    ensures Run(Init(), ls) == HalfWay()
  {
    hide Run, Apply, HalfWay, Held;
    var a := RunsToHeld();
    var b := RunsPastCancel();
    RunAppend(Init(), a, b);
    ls := a + b;
  }

  function DrainOver(): State {
    HalfWay().(pusher := Sending([]), published := [1])
  }

  /** The drain goes on to publish command 1. */
  lemma RunsThroughDrain() returns (ls: seq<Label>)
    ensures Run(HalfWay(), ls) == DrainOver()
  {
    hide Run;
    var h := HalfWay();
    var routed, marking := h.(pusher := Routed(RowOne(1), [])), h.(pusher := Marking(RowOne(1), []), published := [1]);
    assert [RowOne(1)][1..] == [];
    assert h.published + [1] == [1];
    assert MarkDelivered(h.table, 1, 0) == h.table;
    RunNone(DrainOver());
    ls := [];
    ls := Before(marking, Mark(true, 0), DrainOver(), ls);
    ls := Before(routed, Put(true), marking, ls);
    ls := Before(h, FindDevice(true), routed, ls);
  }

  function Again(): State { DrainOver().(pusher := Sending([RowOne(2)])) }

  lemma AgainListed()
    ensures Apply(DrainOver().(pusher := Clocked(0)), Snapshot(true)) == Again()
  {
    FilterOne(PendingAt(0), RowOne(2));
  }

  lemma AgainStarts()
    ensures Apply(DrainOver().(pusher := Starting), ReadClock) == DrainOver().(pusher := Clocked(0))
    ensures Apply(DrainOver().(pusher := Parked), Timeout) == DrainOver().(pusher := Starting)
    ensures Apply(DrainOver(), Finish) == DrainOver().(pusher := Parked)
  {
  }

  lemma RunsToAgain() returns (ls: seq<Label>)
    ensures Run(DrainOver(), ls) == Again()
  {
    hide Run, Apply;
    var done := DrainOver();
    RunNone(Again());
    AgainListed();
    AgainStarts();
    ls := [];
    ls := Before(done.(pusher := Clocked(0)), Snapshot(true), Again(), ls);
    ls := Before(done.(pusher := Starting), ReadClock, done.(pusher := Clocked(0)), ls);
    ls := Before(done.(pusher := Parked), Timeout, done.(pusher := Starting), ls);
    ls := Before(done, Finish, done.(pusher := Parked), ls);
  }

  lemma RunsLastPut() returns (ls: seq<Label>)
    ensures var s := Run(Again(), ls);
      FaultFree(s) && s.published == [1, 2] && s.born == HalfWay().born
  {
    hide Run;
    var again := Again();
    var last := again.(pusher := Marking(RowOne(2), []), published := [1, 2]);
    assert [RowOne(2)][1..] == [];
    assert again.published + [2] == [1, 2];
    RunNone(last);
    ls := [];
    ls := Before(again.(pusher := Routed(RowOne(2), [])), Put(true), last, ls);
    ls := Before(again, FindDevice(true), again.(pusher := Routed(RowOne(2), [])), ls);
  }

  /** The next drain publishes command 2. */
  lemma RunsNextDrain() returns (ls: seq<Label>)
    ensures var s := Run(DrainOver(), ls);
      FaultFree(s) && s.published == [1, 2] && s.born == HalfWay().born
  {
    hide Run, Apply, DrainOver, Again, HalfWay, FaultFree;
    var a := RunsToAgain();
    var b := RunsLastPut();
    RunAppend(DrainOver(), a, b);
    ls := a + b;
  }

  /** So rowids on the wire need not increase even without faults, and do not identify commands. */
  lemma ReusedRowIdOnTheWire() returns (ls: seq<Label>)
    ensures var s := Run(Init(), ls);
      FaultFree(s) && s.published == [1, 2] && 1 in s.born && 2 in s.born && s.born[1].id == s.born[2].id
  {
    var first := RunsToHalfWay();
    var second := RunsThroughDrain();
    var third := RunsNextDrain();
    RunAppend(Init(), first, second);
    RunAppend(Init(), first + second, third);
    ls := first + second + third;
  }
}
