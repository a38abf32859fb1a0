// What every reachable state of the delivery protocol satisfies: the row invariant, the
// conservation of commands, and the pusher's view of the table.
module CmdInvariants {
  import opened Wrappers
  import opened Seqs
  import opened CmdOutbox
  import opened CmdDelivery

  function SetOf(cs: seq<CmdId>): set<CmdId> {
    set c | c in cs
  }

  /** `b` is the row `a` some steps later: same command, and what was written once stays. */
  predicate Evolved(a: Row, b: Row) {
    && SameCmd(a, b)
    && (a.deliveredAt.Some? ==> b.deliveredAt == a.deliveredAt && b.attempts == a.attempts)
    && (a.ackAt.Some? ==> b.ackAt.Some?)
  }

  predicate SameCmd(a: Row, b: Row) {
    && a.id == b.id && a.cmdId == b.cmdId && a.device == b.device && a.topic == b.topic
    && a.payload == b.payload && a.enqueuedAt == b.enqueuedAt && a.expiresAt == b.expiresAt
  }

  /** What the history of the run says about one row. */
  predicate RowAgrees(r: Row, now: int, acked: set<CmdId>, marked: set<CmdId>, published: seq<CmdId>) {
    && (r.deliveredAt.Some? ==> r.deliveredAt.value <= now)
    && (r.ackAt.Some? ==> r.ackAt.value <= now)
    && (r.ackAt.Some? <==> r.cmdId in acked)
    && (r.attempts == 1 <==> r.cmdId in marked)
    && (r.deliveredAt.Some? ==> r.cmdId in published || r.cmdId in acked)
  }

  predicate RowsAgree(t: Table, now: int, acked: set<CmdId>, marked: set<CmdId>, published: seq<CmdId>) {
    forall r :: r in t ==> RowAgrees(r, now, acked, marked, published)
  }

  /** Commit numbers are dense and identify commands. */
  ghost predicate BirthsOk(born: map<CmdId, Birth>, births: nat) {
    && |born| == births
    && (forall c :: c in born ==> born[c].no < births)
    && (forall c, e :: c in born && e in born && born[c].no == born[e].no ==> c == e)
  }

  /** Commands are neither lost nor invented: each one committed is still in the table, or was
      cancelled exactly once, or went with its device, and only one of these. */
  predicate Accounted(known: set<CmdId>, present: set<CmdId>, cancelled: seq<CmdId>, dropped: set<CmdId>) {
    && known == present + SetOf(cancelled) + dropped
    && present !! SetOf(cancelled) && present !! dropped && SetOf(cancelled) !! dropped
    && Distinct(cancelled)
  }

  predicate OwnersOk(born: map<CmdId, Birth>, rows: seq<Row>) {
    forall r :: r in rows ==> r.cmdId in born && born[r.cmdId].device == r.device && born[r.cmdId].id == r.id
  }

  /** The foreign key from `cmd_outbox` to `devices`. */
  predicate Registered(devices: set<int>, t: Table) {
    forall r :: r in t ==> r.device in devices
  }

  /** Among rows that coexist, rowid order is commit order. */
  ghost predicate InBirthOrder(born: map<CmdId, Birth>, rows: seq<Row>) {
    && (forall r :: r in rows ==> r.cmdId in born)
    && (forall a, b :: a in rows && b in rows && a.id < b.id ==> born[a.cmdId].no < born[b.cmdId].no)
  }

  /** Rows the pusher holds still describe the command of that id. */
  predicate ViewOf(held: seq<Row>, t: Table) {
    forall a, b :: a in held && b in t && a.cmdId == b.cmdId ==> SameCmd(a, b)
  }

  /** The history only mentions committed commands. */
  predicate Mentioned(s: State) {
    && s.unnotified <= s.born.Keys && s.acked <= s.born.Keys && s.marked <= SetOf(s.published)
    && SetOf(s.published) <= s.born.Keys && SetOf(s.markFailed) <= s.born.Keys
  }

  predicate PusherOk(s: State) {
    && Sorted(InFlight(s.pusher)) && UniqueCmds(InFlight(s.pusher))
    && (s.pusher.Clocked? ==> s.pusher.t <= s.now)
    && (s.pusher.Marking? ==> s.pusher.row.cmdId in s.published)
  }

  ghost predicate Inv(s: State) {
    && TableOk(s.table)
    && RowsAgree(s.table, s.now, s.acked, s.marked, s.published)
    && BirthsOk(s.born, s.births)
    && Accounted(s.born.Keys, Ids(s.table), s.cancelled, s.dropped)
    && OwnersOk(s.born, s.table)
    && OwnersOk(s.born, InFlight(s.pusher))
    && Registered(s.devices, s.table)
    && InBirthOrder(s.born, s.table)
    && InBirthOrder(s.born, InFlight(s.pusher))
    && ViewOf(InFlight(s.pusher), s.table)
    && Mentioned(s)
    && PusherOk(s)
  }

  // ---- The three ways a statement changes the table --------------------------------------------

  lemma AppendBirth(born: map<CmdId, Birth>, births: nat, c: CmdId, b: Birth)
    requires BirthsOk(born, births) && c !in born && b.no == births
    ensures BirthsOk(born[c := b], births + 1)
    ensures born[c := b].Keys == born.Keys + {c}
  {
    assert born[c := b].Keys == born.Keys + {c};
  }

  lemma BirthsBelow(born: map<CmdId, Birth>, births: nat)
    requires BirthsOk(born, births)
    ensures forall c :: c in born ==> born[c].no < births
  {
  }

  lemma AppendRow(born: map<CmdId, Birth>, births: nat, t: Table, row: Row)
    requires forall c :: c in born ==> born[c].no < births
    requires OwnersOk(born, t) && InBirthOrder(born, t)
    requires row.cmdId !in born && forall r :: r in t ==> r.id < row.id
    ensures var born' := born[row.cmdId := Birth(births, row.device, row.id)];
      OwnersOk(born', t + [row]) && InBirthOrder(born', t + [row])
    ensures Ids(t + [row]) == Ids(t) + {row.cmdId}
  {
    assert forall r :: r in t + [row] <==> r in t || r == row;
  }

  lemma AppendView(born: map<CmdId, Birth>, b: Birth, t: Table, held: seq<Row>, row: Row)
    requires InBirthOrder(born, held) && OwnersOk(born, held) && ViewOf(held, t) && row.cmdId !in born
    ensures InBirthOrder(born[row.cmdId := b], held) && OwnersOk(born[row.cmdId := b], held)
    ensures ViewOf(held, t + [row])
  {
    assert forall r :: r in t + [row] <==> r in t || r == row;
  }

  lemma SubsetRows(born: map<CmdId, Birth>, devices: set<int>, t: Table, t': Table, held: seq<Row>)
    requires OwnersOk(born, t) && InBirthOrder(born, t) && ViewOf(held, t) && Registered(devices, t)
    requires forall r :: r in t' ==> r in t
    ensures OwnersOk(born, t') && InBirthOrder(born, t') && ViewOf(held, t') && Registered(devices, t')
    ensures Ids(t') <= Ids(t)
  {
  }

  predicate SameRows(t: Table, t': Table) {
    |t| == |t'| && forall i :: 0 <= i < |t| ==> SameCmd(t[i], t'[i])
  }

  lemma Ancestor(t: Table, t': Table, r': Row) returns (r: Row)
    requires SameRows(t, t') && r' in t'
    ensures r in t && SameCmd(r, r')
  {
    var i :| 0 <= i < |t'| && t'[i] == r';
    r := t[i];
  }

  lemma RewriteIds(t: Table, t': Table)
    requires SameRows(t, t')
    ensures Ids(t') == Ids(t)
  {
    forall r' | r' in t' ensures r'.cmdId in Ids(t) {
      var r := Ancestor(t, t', r');
    }
    forall r | r in t ensures r.cmdId in Ids(t') {
      var r' := Ancestor(t', t, r);
    }
  }

  lemma RewriteRows(born: map<CmdId, Birth>, devices: set<int>, t: Table, t': Table, held: seq<Row>)
    requires OwnersOk(born, t) && InBirthOrder(born, t) && ViewOf(held, t) && Registered(devices, t)
    requires SameRows(t, t')
    ensures OwnersOk(born, t') && InBirthOrder(born, t') && ViewOf(held, t') && Registered(devices, t')
  {
    hide SameRows;
    forall r' | r' in t'
      ensures r'.device in devices
      ensures r'.cmdId in born && born[r'.cmdId].device == r'.device && born[r'.cmdId].id == r'.id
    {
      var r := Ancestor(t, t', r');
    }
    forall a', b' | a' in t' && b' in t' && a'.id < b'.id ensures born[a'.cmdId].no < born[b'.cmdId].no {
      var a := Ancestor(t, t', a');
      var b := Ancestor(t, t', b');
    }
    forall h, b' | h in held && b' in t' && h.cmdId == b'.cmdId ensures SameCmd(h, b') {
      var b := Ancestor(t, t', b');
    }
  }

  lemma MarkSame(t: Table, c: CmdId, now: int)
    ensures SameRows(t, MarkDelivered(t, c, now))
  {
  }

  lemma AckSame(t: Table, c: CmdId, body: AckBody, at: int)
    ensures SameRows(t, RecordAck(t, c, body.result, body.detail, at))
  {
  }

  lemma PresentKnown(s: State)
    requires Accounted(s.born.Keys, Ids(s.table), s.cancelled, s.dropped)
    ensures Ids(s.table) <= s.born.Keys
  {
  }

  lemma TableParts(t: Table)
    requires TableOk(t)
    ensures Sorted(t) && UniqueCmds(t) && forall r :: r in t ==> RowOk(r)
  {
  }

  // ---- The steps that write the table ----------------------------------------------------------

  lemma SendInv(s: State, c: CmdId, device: int, topic: string, payload: string, at: int, ttl: Option<int>)
    requires Inv(s)
    ensures Inv(SendStep(s, c, device, topic, payload, at, ttl))
  {
    hide TableOk, Sorted, UniqueCmds, RowsAgree, OwnersOk, InBirthOrder, Registered, ViewOf, Accounted, Mentioned, PusherOk, BirthsOk;
    var s' := SendStep(s, c, device, topic, payload, at, ttl);
    if s' != s {
      var expiry := ExpiryOf(at, ttl);
      var row := Fresh(s.table, c, device, topic, payload, at, expiry);
      EnqueueKeeps(s.table, s.devices, c, device, topic, payload, at, expiry);
      assert s' == s.(table := s.table + [row], born := s.born[c := Birth(s.births, device, row.id)],
                      births := s.births + 1, unnotified := s.unnotified + {c});
      TableParts(s.table);
      NextRowIdAbove(s.table);
      BirthsBelow(s.born, s.births);
      AppendBirth(s.born, s.births, c, Birth(s.births, device, row.id));
      SendHistory(s, s', c);
      AppendRow(s.born, s.births, s.table, row);
      AppendView(s.born, Birth(s.births, device, row.id), s.table, InFlight(s.pusher), row);
      NewbornAgrees(s, row);
      RegisteredSend(s.devices, s.table, row);
      AccountsSend(s, c);
    }
  }

  lemma SendHistory(s: State, s': State, c: CmdId)
    requires Mentioned(s) && PusherOk(s)
    requires s' == s.(table := s'.table, born := s'.born, births := s'.births, unnotified := s.unnotified + {c})
    requires s'.born.Keys == s.born.Keys + {c}
    ensures Mentioned(s') && PusherOk(s')
  {
  }

  lemma AccountsSend(s: State, c: CmdId)
    requires Accounted(s.born.Keys, Ids(s.table), s.cancelled, s.dropped) && c !in s.born
    ensures Accounted(s.born.Keys + {c}, Ids(s.table) + {c}, s.cancelled, s.dropped)
  {
  }

  lemma RegisteredSend(devices: set<int>, t: Table, row: Row)
    requires Registered(devices, t) && row.device in devices
    ensures Registered(devices, t + [row])
  {
  }

  lemma NewbornAgrees(s: State, row: Row)
    requires RowsAgree(s.table, s.now, s.acked, s.marked, s.published) && Mentioned(s)
    requires row.cmdId !in s.born && row.deliveredAt.None? && row.ackAt.None? && row.attempts == 0
    ensures RowsAgree(s.table + [row], s.now, s.acked, s.marked, s.published)
  {
    assert row.cmdId !in SetOf(s.published);
  }

  lemma CancelInv(s: State, c: CmdId)
    requires Inv(s)
    ensures Inv(CancelStep(s, c))
  {
    hide Sorted, RowsAgree, RowAgrees, BirthsOk, OwnersOk, InBirthOrder, Registered, ViewOf, Accounted;
    if CancelHits(s.table, c) {
      var t' := Cancel(s.table, c);
      var hit :| hit in s.table && Cancellable(c)(hit);
      DeleteKeeps(s.table, Not(Cancellable(c)));
      CancelRemoves(s.table, c, hit);
      SubsetRows(s.born, s.devices, s.table, t', InFlight(s.pusher));
      SubsetAgrees(s, t');
      assert c in Ids(s.table);
      AccountsCancel(s.born.Keys, Ids(s.table), c, s.cancelled, s.dropped);
    }
  }

  lemma SubsetAgrees(s: State, t': Table)
    requires RowsAgree(s.table, s.now, s.acked, s.marked, s.published)
    requires forall r :: r in t' ==> r in s.table
    ensures RowsAgree(t', s.now, s.acked, s.marked, s.published)
  {
  }

  lemma AccountsCancel(known: set<CmdId>, present: set<CmdId>, c: CmdId, cancelled: seq<CmdId>, dropped: set<CmdId>)
    requires Accounted(known, present, cancelled, dropped) && c in present
    ensures Accounted(known, present - {c}, cancelled + [c], dropped)
  {
    assert SetOf(cancelled + [c]) == SetOf(cancelled) + {c};
  }

  lemma CancelRemoves(t: Table, c: CmdId, hit: Row)
    requires UniqueCmds(t) && hit in t && Cancellable(c)(hit)
    ensures Ids(Cancel(t, c)) == Ids(t) - {c}
    ensures forall r :: r in Cancel(t, c) <==> r in t && r != hit
  {
    FilterMember(Not(Cancellable(c)), t);
    forall r | r in t && r.cmdId == c ensures r == hit {
      SortedUnique(t, r, hit);
    }
    forall x | x in Ids(t) - {c} ensures x in Ids(Cancel(t, c)) {
      var r :| r in t && r.cmdId == x;
      assert r in Cancel(t, c);
    }
  }

  lemma CascadeInv(s: State, d: int)
    requires Inv(s)
    ensures Inv(Apply(s, DeleteDevice(d)))
  {
    hide Sorted, UniqueCmds, RowsAgree, RowAgrees, BirthsOk, OwnersOk, InBirthOrder, Registered, ViewOf;
    var t' := Cascade(s.table, d);
    DeleteKeeps(s.table, Not(OwnedBy(d)));
    FilterMember(Not(OwnedBy(d)), s.table);
    SubsetRows(s.born, s.devices, s.table, t', InFlight(s.pusher));
    SubsetAgrees(s, t');
    RegisteredCascade(s.devices, s.table, d);
    assert Accounted(s.born.Keys, Ids(t'), s.cancelled, s.dropped + (Ids(s.table) - Ids(t')));
  }

  lemma RegisteredCascade(devices: set<int>, t: Table, d: int)
    requires Registered(devices, t)
    ensures Registered(devices - {d}, Cascade(t, d))
  {
    FilterMember(Not(OwnedBy(d)), t);
  }

  lemma MarkInv(s: State, at: int)
    requires Inv(s) && s.pusher.Marking? && at <= s.now
    ensures Inv(Apply(s, Mark(true, at)))
  {
    hide TableOk, Sorted, UniqueCmds, RowsAgree, BirthsOk, OwnersOk, InBirthOrder, Registered, ViewOf, Accounted;
    hide SameRows, MarkDelivered, CancelHits, Mentioned, PusherOk;
    var c, held := s.pusher.row.cmdId, InFlight(s.pusher);
    var s' := Apply(s, Mark(true, at));
    TableParts(s.table);
    MarkKeeps(s.table, c, at);
    MarkSame(s.table, c, at);
    RewriteIds(s.table, s'.table);
    RewriteRows(s.born, s.devices, s.table, s'.table, held);
    MarkHistory(s, s');
    assert InFlight(s'.pusher) == held[1..];
    ShorterView(s.born, held, s'.table);
    MarkAgrees(s.table, c, at, s.now, s.acked, s.marked, s.published);
  }

  lemma MarkHistory(s: State, s': State)
    requires Mentioned(s) && PusherOk(s) && s.pusher.Marking?
    requires s' == s.(table := s'.table, pusher := Sending(s.pusher.rest), marked := s'.marked)
    requires s'.marked <= s.marked + {s.pusher.row.cmdId}
    ensures Mentioned(s') && PusherOk(s') && s.pusher.row.cmdId in s.published
    ensures Sorted(InFlight(s.pusher)) && UniqueCmds(InFlight(s.pusher))
  {
    assert InFlight(s'.pusher) == InFlight(s.pusher)[1..];
  }

  lemma ShorterView(born: map<CmdId, Birth>, held: seq<Row>, t: Table)
    requires InBirthOrder(born, held) && OwnersOk(born, held) && ViewOf(held, t)
    requires Sorted(held) && UniqueCmds(held) && held != []
    ensures InBirthOrder(born, held[1..]) && OwnersOk(born, held[1..]) && ViewOf(held[1..], t) && Sorted(held[1..]) && UniqueCmds(held[1..])
  {
    assert forall r :: r in held[1..] ==> r in held;
  }

  lemma MarkAgrees(t: Table, c: CmdId, at: int, now: int, acked: set<CmdId>, marked: set<CmdId>, published: seq<CmdId>)
    requires RowsAgree(t, now, acked, marked, published)
    requires UniqueCmds(t) && (forall r :: r in t ==> RowOk(r)) && c in published && at <= now
    ensures RowsAgree(MarkDelivered(t, c, at), now, acked,
                      if CancelHits(t, c) then marked + {c} else marked, published)
  {
    var t' := MarkDelivered(t, c, at);
    forall r' | r' in t'
      ensures RowAgrees(r', now, acked, if CancelHits(t, c) then marked + {c} else marked, published)
    {
      var i :| 0 <= i < |t'| && t'[i] == r';
      assert t[i] in t && RowAgrees(t[i], now, acked, marked, published) && RowOk(t[i]);
      if t[i].cmdId == c && CancelHits(t, c) {
        var hit :| hit in t && Cancellable(c)(hit);
        SortedUnique(t, hit, t[i]);
      }
    }
  }

  lemma AckInv(s: State, c: CmdId, body: AckBody, at: int)
    requires Inv(s) && at <= s.now
    ensures Inv(AckStep(s, c, body, at))
  {
    hide TableOk, Sorted, UniqueCmds, RowsAgree, RowAgrees, BirthsOk, OwnersOk, InBirthOrder, Registered, ViewOf, Accounted;
    var s' := AckStep(s, c, body, at);
    hide SameRows, RecordAck;
    PresentKnown(s);
    AckSame(s.table, c, body, at);
    AckKeeps(s.table, c, body.result, body.detail, at);
    RewriteIds(s.table, s'.table);
    RewriteRows(s.born, s.devices, s.table, s'.table, InFlight(s.pusher));
    AckAgrees(s.table, c, body, at, s.now, s.acked, s.marked, s.published);
  }

  lemma AckAgrees(t: Table, c: CmdId, body: AckBody, at: int, now: int,
                  acked: set<CmdId>, marked: set<CmdId>, published: seq<CmdId>)
    requires RowsAgree(t, now, acked, marked, published) && at <= now
    ensures RowsAgree(RecordAck(t, c, body.result, body.detail, at), now,
                      if c in Ids(t) then acked + {c} else acked, marked, published)
  {
    var t' := RecordAck(t, c, body.result, body.detail, at);
    forall r' | r' in t'
      ensures RowAgrees(r', now, if c in Ids(t) then acked + {c} else acked, marked, published)
    {
      var i :| 0 <= i < |t'| && t'[i] == r';
      assert t[i] in t && RowAgrees(t[i], now, acked, marked, published);
    }
  }

  // ---- The steps that only move the clock, the permit and the pusher ---------------------------

  /** A drain starts from rows of the table, so the pusher's view is right at its snapshot. */
  lemma SnapshotInv(s: State)
    requires Inv(s) && s.pusher.Clocked?
    ensures Inv(Apply(s, Snapshot(true)))
  {
    hide BirthsOk, Accounted, RowsAgree, Registered, TableOk, OwnersOk, InBirthOrder, ViewOf, Sorted, UniqueCmds, ListPending;
    TableParts(s.table);
    ListedView(s.born, s.table, s.pusher.t);
  }

  lemma ListedView(born: map<CmdId, Birth>, t: Table, now: int)
    requires OwnersOk(born, t) && InBirthOrder(born, t) && Sorted(t) && UniqueCmds(t)
    ensures var held := ListPending(t, now);
      && OwnersOk(born, held) && InBirthOrder(born, held) && ViewOf(held, t) && Sorted(held) && UniqueCmds(held)
  {
    var p := PendingAt(now);
    FilterSorted(p, t);
    FilterUnique(p, t);
    FilterMember(p, t);
    hide Sorted, UniqueCmds, Filter;
    forall a, b | a in t && b in t && a.cmdId == b.cmdId ensures SameCmd(a, b) {
      SortedUnique(t, a, b);
    }
  }

  predicate WritesOrLists(s: State, l: Label) {
    || l.DeleteDevice? || l.Send? || l.CancelCmd? || l.Ack?
    || (l.Mark? && l.ok && l.at <= s.now && s.pusher.Marking?) || (l == Snapshot(true) && s.pusher.Clocked?)
  }

  /** The remaining steps keep or shorten what the pusher holds. */
  lemma QuietInv(s: State, l: Label)
    requires Inv(s) && !WritesOrLists(s, l)
    ensures Inv(Apply(s, l))
  {
    hide TableOk, Sorted, UniqueCmds, RowAgrees, RowsAgree, BirthsOk, OwnersOk, InBirthOrder, Registered, ViewOf, Accounted, Mentioned, PusherOk, Apply;
    var s' := Apply(s, l);
    QuietFrame(s, l);
    QuietHeld(s, l);
    MoreDevices(s.devices, s'.devices, s.table);
    HeldKnown(s);
    QuietHistory(s, l);
    QuietRows(s.table, s.now, s'.now, s.acked, s.marked, s.published, s'.published);
  }

  lemma QuietFrame(s: State, l: Label)
    requires !WritesOrLists(s, l)
    ensures var s' := Apply(s, l);
      && s'.table == s.table && s'.born == s.born && s'.births == s.births && s'.now >= s.now
      && s'.cancelled == s.cancelled && s'.dropped == s.dropped && s'.acked == s.acked && s'.marked == s.marked
      && s'.devices >= s.devices
  {
    QuietTable(s, l);
    QuietLedger(s, l);
    hide Apply;
  }

  lemma QuietTable(s: State, l: Label)
    requires !WritesOrLists(s, l)
    ensures var s' := Apply(s, l);
      s'.table == s.table && s'.now >= s.now && s'.devices >= s.devices && s'.births == s.births
  {
    hide ListPending, MarkDelivered, Cascade, SendStep, AckStep, CancelStep, CancelHits, Ids;
  }

  lemma QuietLedger(s: State, l: Label)
    requires !WritesOrLists(s, l)
    ensures var s' := Apply(s, l);
      && s'.born == s.born && s'.cancelled == s.cancelled && s'.dropped == s.dropped
      && s'.acked == s.acked && s'.marked == s.marked
  {
    hide ListPending, MarkDelivered, Cascade, SendStep, AckStep, CancelStep, CancelHits, Ids;
  }

  /** A quiet step keeps what the pusher holds, drops its first row, or lets go of all of it. */
  lemma QuietQueue(s: State, l: Label)
    requires !WritesOrLists(s, l)
    ensures var held, held' := InFlight(s.pusher), InFlight(Apply(s, l).pusher);
      held' == held || held' == [] || (held != [] && held' == held[1..])
    ensures forall c :: c in s.published ==> c in Apply(s, l).published
  {
    hide ListPending, MarkDelivered, Cascade, SendStep, AckStep, CancelStep, CancelHits, Ids;
  }

  lemma QuietPusher(s: State, l: Label)
    requires PusherOk(s) && !WritesOrLists(s, l)
    requires var held' := InFlight(Apply(s, l).pusher); Sorted(held') && UniqueCmds(held')
    ensures PusherOk(Apply(s, l))
  {
    hide Sorted, UniqueCmds;
    hide ListPending, MarkDelivered, Cascade, SendStep, AckStep, CancelStep, CancelHits, Ids;
  }

  lemma QuietHeld(s: State, l: Label)
    requires PusherOk(s) && !WritesOrLists(s, l)
    requires InBirthOrder(s.born, InFlight(s.pusher)) && OwnersOk(s.born, InFlight(s.pusher))
    requires ViewOf(InFlight(s.pusher), s.table)
    ensures InBirthOrder(s.born, InFlight(Apply(s, l).pusher)) && OwnersOk(s.born, InFlight(Apply(s, l).pusher))
    ensures ViewOf(InFlight(Apply(s, l).pusher), s.table)
    ensures PusherOk(Apply(s, l))
    ensures forall c :: c in s.published ==> c in Apply(s, l).published
  {
    hide InBirthOrder, OwnersOk, ViewOf, Sorted, UniqueCmds, Apply;
    QuietQueue(s, l);
    if InFlight(s.pusher) != [] {
      ShorterView(s.born, InFlight(s.pusher), s.table);
    }
    EmptyView(s.born, s.table);
    QuietPusher(s, l);
  }

  lemma EmptyView(born: map<CmdId, Birth>, t: Table)
    ensures InBirthOrder(born, []) && OwnersOk(born, []) && ViewOf([], t) && Sorted([]) && UniqueCmds([])
  {
  }

  lemma MoreDevices(devices: set<int>, devices': set<int>, t: Table)
    requires Registered(devices, t) && devices <= devices'
    ensures Registered(devices', t)
  {
  }

  lemma QuietRows(t: Table, now: int, now': int, acked: set<CmdId>, marked: set<CmdId>,
                  published: seq<CmdId>, published': seq<CmdId>)
    requires RowsAgree(t, now, acked, marked, published)
    requires now <= now' && forall c :: c in published ==> c in published'
    ensures RowsAgree(t, now', acked, marked, published')
  {
  }

  lemma HeldKnown(s: State)
    requires InBirthOrder(s.born, InFlight(s.pusher))
    ensures forall r :: r in InFlight(s.pusher) ==> r.cmdId in s.born
  {
  }

  lemma QuietHistory(s: State, l: Label)
    requires Mentioned(s) && !WritesOrLists(s, l)
    requires forall r :: r in InFlight(s.pusher) ==> r.cmdId in s.born
    ensures Mentioned(Apply(s, l))
  {
    hide ListPending, MarkDelivered, Cascade, SendStep, AckStep, CancelStep, CancelHits;
    var held := InFlight(s.pusher);
    assert held != [] ==> held[0] in held;
  }

  // ---- All steps -------------------------------------------------------------------------------

  lemma InitInv()
    ensures Inv(Init())
  {
  }

  lemma StepInv(s: State, l: Label)
    requires Inv(s)
    ensures Inv(Apply(s, l))
  {
    hide Inv;
    match (l, s.pusher) {
      case (DeleteDevice(d), _) => CascadeInv(s, d);
      case (Send(c, d, topic, payload, at, ttl), _) => SendInv(s, c, d, topic, payload, at, ttl);
      case (Ack(Some(c), Some(body), at), _) => if body.cmdId == c && at <= s.now { AckInv(s, c, body, at); }
      case (Ack(_, _, _), _) =>
      case (CancelCmd(c), _) => CancelInv(s, c);
      case (Mark(true, at), Marking(row, rest)) => if at <= s.now { MarkInv(s, at); }
      case (Snapshot(true), Clocked(t)) => SnapshotInv(s);
      case _ => QuietInv(s, l);
    }
  }

  lemma {:induction false} ReachableInv(ls: seq<Label>)
    ensures Inv(Run(Init(), ls))
    decreases |ls|
  {
    if ls == [] {
      InitInv();
    } else {
      ReachableInv(ls[..|ls| - 1]);
      StepInv(Run(Init(), ls[..|ls| - 1]), ls[|ls| - 1]);
    }
  }
}
