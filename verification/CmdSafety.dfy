// Safety of the delivery protocol over whole runs: the ledger of commands, and what a row may
// become.
module CmdSafety {
  import opened Wrappers
  import opened Seqs
  import opened CmdOutbox
  import opened CmdDelivery
  import opened CmdInvariants

  // ---- Ledger ----------------------------------------------------------------------------------

  /** The un-acked commands of a device, from the history alone. */
  function Outstanding(s: State, device: int): set<CmdId> {
    (set c | c in s.born && s.born[c].device == device) - SetOf(s.cancelled) - s.dropped - s.acked
  }

  lemma DistinctCard(cs: seq<CmdId>)
    requires Distinct(cs)
    ensures |SetOf(cs)| == |cs|
  {
    if cs != [] {
      var init, last := cs[..|cs| - 1], cs[|cs| - 1];
      DistinctCard(init);
      assert cs == init + [last];
      assert SetOf(cs) == SetOf(init) + {last};
    }
  }

  /** Rows present are commands committed minus commands cancelled minus commands dropped. */
  lemma Conservation(ls: seq<Label>)
    ensures var s := Run(Init(), ls);
      && |s.table| == s.births - |s.cancelled| - |s.dropped|
      && Ids(s.table) == s.born.Keys - SetOf(s.cancelled) - s.dropped
  {
    var s := Run(Init(), ls);
    ReachableInv(ls);
    CountIsCard(s.table);
    DistinctCard(s.cancelled);
    assert |s.born.Keys| == |Ids(s.table)| + |SetOf(s.cancelled)| + |s.dropped|;
  }

  /** The metric's depth per device is exactly the outstanding commands, devices at zero are absent,
      and no device is ever above the cap. */
  lemma DepthIsOutstanding(ls: seq<Label>, device: int)
    ensures var s := Run(Init(), ls); var depth := PendingDepth(s.table);
      && |Outstanding(s, device)| <= CMD_MAX_PER_DEVICE
      && (device in depth <==> Outstanding(s, device) != {})
      && (device in depth ==> depth[device] == |Outstanding(s, device)|)
  {
    var s := Run(Init(), ls);
    ReachableInv(ls);
    OutstandingIsUnacked(s, device);
    UnackedCount(s.table, device);
    assert |Filter(Unacked(device), s.table)| <= CMD_MAX_PER_DEVICE;
    if Outstanding(s, device) != {} {
      var c :| c in Outstanding(s, device);
      var r :| r in s.table && Unacked(device)(r) && r.cmdId == c;
    }
    if device in PendingDepth(s.table) {
      var r :| r in s.table && r.ackAt.None? && r.device == device;
      assert r.cmdId in UnackedIds(s.table, device);
    }
  }

  lemma OutstandingIsUnacked(s: State, device: int)
    requires RowsAgree(s.table, s.now, s.acked, s.marked, s.published) && OwnersOk(s.born, s.table)
    requires Accounted(s.born.Keys, Ids(s.table), s.cancelled, s.dropped)
    ensures Outstanding(s, device) == UnackedIds(s.table, device)
  {
    forall c | c in Outstanding(s, device) ensures c in UnackedIds(s.table, device) {
      assert c in Ids(s.table);
      var r :| r in s.table && r.cmdId == c;
      assert RowAgrees(r, s.now, s.acked, s.marked, s.published);
    }
    forall c | c in UnackedIds(s.table, device) ensures c in Outstanding(s, device) {
      var r :| r in s.table && Unacked(device)(r) && r.cmdId == c;
      assert RowAgrees(r, s.now, s.acked, s.marked, s.published);
      assert c in Ids(s.table);
    }
  }

  /** A command just accepted is pending at its own enqueue instant, whatever TTL was asked for (zero
      and negative ones count as a millisecond), short of the last instant the clock can show. */
  lemma AcceptedIsPending(s: State, c: CmdId, device: int, topic: string, payload: string, at: int, ttl: Option<int>)
    requires SendStep(s, c, device, topic, payload, at, ttl).born != s.born
    ensures var t := SendStep(s, c, device, topic, payload, at, ttl).table;
      && |t| == |s.table| + 1 && t[..|s.table|] == s.table && t[|s.table|].cmdId == c
      && (DeriveStatus(t[|s.table|], at) == Pending <==> at < I64_MAX)
  {
  }

  /** The expiry a TTL asks for: a week if none is given, at least a millisecond, and never past the last
      i64 instant. */
  predicate ExpiresAt(at: int, ttl: Option<int>, e: int) {
    var asked := at + match ttl case None => 604_800_000 case Some(ms) => if ms < 1 then 1 else ms;
    e == if asked > 9_223_372_036_854_775_807 then 9_223_372_036_854_775_807 else asked
  }

  lemma ExpiryIsAsked(at: int, ttl: Option<int>)
    ensures ExpiresAt(at, ttl, ExpiryOf(at, ttl))
  {
  }

  // ---- What a row may become -------------------------------------------------------------------

  lemma AckEvolves(t: Table, c: CmdId, result: AckResult, detail: Option<string>, now: int, r': Row)
    requires r' in RecordAck(t, c, result, detail, now)
    ensures exists r :: r in t && Evolved(r, r')
  {
    var t' := RecordAck(t, c, result, detail, now);
    var i :| 0 <= i < |t'| && t'[i] == r';
    assert t[i] in t && Evolved(t[i], r');
  }

  lemma MarkEvolves(t: Table, c: CmdId, now: int, r': Row)
    requires r' in MarkDelivered(t, c, now)
    ensures exists r :: r in t && Evolved(r, r')
  {
    var t' := MarkDelivered(t, c, now);
    var i :| 0 <= i < |t'| && t'[i] == r';
    assert t[i] in t && Evolved(t[i], r');
  }

  lemma SendEvolves(s: State, l: Label, r': Row)
    requires l.Send? && r' in Apply(s, l).table && r'.cmdId in s.born
    ensures r' in s.table
  {
  }

  /** After one step a row is an old row evolved, unless its command is new. */
  lemma StepEvolves(s: State, l: Label, r': Row)
    requires r' in Apply(s, l).table && r'.cmdId in s.born
    ensures exists r :: r in s.table && Evolved(r, r')
  {
    hide RecordAck, MarkDelivered, ListPending, SendStep, Evolved, Ids, CancelHits;
    KeptEvolves(s.table);
    match (l, s.pusher) {
      case (DeleteDevice(d), _) => FilterMember(Not(OwnedBy(d)), s.table);
      case (CancelCmd(c), _) => FilterMember(Not(Cancellable(c)), s.table);
      case (Ack(Some(c), Some(body), at), _) =>
        if body.cmdId == c && at <= s.now { AckEvolves(s.table, c, body.result, body.detail, at, r'); }
      case (Mark(true, at), Marking(row, rest)) => if at <= s.now { MarkEvolves(s.table, row.cmdId, at, r'); }
      case (Send(_, _, _, _, _, _), _) => SendEvolves(s, l, r');
      case _ =>
    }
  }

  lemma KeptEvolves(t: Table)
    ensures forall r :: r in t ==> Evolved(r, r)
  {
  }

  lemma BornGrows(s: State, l: Label)
    ensures s.born.Keys <= Apply(s, l).born.Keys
    ensures forall c :: c in s.born ==> Apply(s, l).born[c] == s.born[c]
  {
  }

  lemma {:induction false} BornGrowsRun(s: State, ls: seq<Label>)
    ensures forall c :: c in s.born ==> c in Run(s, ls).born && Run(s, ls).born[c] == s.born[c]
    decreases |ls|
  {
    if ls != [] {
      BornGrowsRun(s, ls[..|ls| - 1]);
      BornGrows(Run(s, ls[..|ls| - 1]), ls[|ls| - 1]);
    }
  }

  /** `delivered_at` and `attempts` are written once: along any run they keep the first value. */
  lemma {:induction false} DeliveredOnce(s: State, ls: seq<Label>, r: Row, r': Row)
    requires Inv(s) && r in s.table && r' in Run(s, ls).table && r.cmdId == r'.cmdId
    ensures SameCmd(r, r')
    ensures r.deliveredAt.Some? ==> r'.deliveredAt == r.deliveredAt && r'.attempts == r.attempts
    ensures r.ackAt.Some? ==> r'.ackAt.Some?
    decreases |ls|
  {
    if ls == [] {
      SortedUnique(s.table, r, r');
    } else {
      var mid := Run(s, ls[..|ls| - 1]);
      BornGrowsRun(s, ls[..|ls| - 1]);
      StepEvolves(mid, ls[|ls| - 1], r');
      var q :| q in mid.table && Evolved(q, r');
      DeliveredOnce(s, ls[..|ls| - 1], r, q);
    }
  }

  /** A well-formed ack of `c`: the key and the body name the same command. */
  predicate Acks(l: Label, c: CmdId) {
    l.Ack? && l.key == Some(c) && l.body.Some? && l.body.value.cmdId == c
  }

  predicate SameAck(a: Row, b: Row) {
    a.cmdId == b.cmdId && a.ackAt == b.ackAt && a.ackResult == b.ackResult && a.ackDetail == b.ackDetail
  }

  /** Only an ack of the command itself writes its ack columns. */
  lemma StepKeepsAck(s: State, l: Label, r': Row)
    requires r' in Apply(s, l).table && r'.cmdId in s.born && !Acks(l, r'.cmdId)
    ensures exists r :: r in s.table && SameAck(r, r')
  {
    hide RecordAck, MarkDelivered, ListPending, SendStep, SameAck, Ids, CancelHits;
    KeptSameAck(s.table);
    match (l, s.pusher) {
      case (DeleteDevice(d), _) => FilterMember(Not(OwnedBy(d)), s.table);
      case (CancelCmd(c), _) => FilterMember(Not(Cancellable(c)), s.table);
      case (Ack(Some(c), Some(body), at), _) =>
        if body.cmdId == c && at <= s.now { OtherAck(s.table, c, body.result, body.detail, at, r'); }
      case (Mark(true, at), Marking(row, rest)) => if at <= s.now { MarkSameAck(s.table, row.cmdId, at, r'); }
      case (Send(_, _, _, _, _, _), _) => SendEvolves(s, l, r');
      case _ =>
    }
  }

  lemma KeptSameAck(t: Table)
    ensures forall r :: r in t ==> SameAck(r, r)
  {
  }

  lemma OtherAck(t: Table, c: CmdId, result: AckResult, detail: Option<string>, now: int, r': Row)
    requires r' in RecordAck(t, c, result, detail, now) && r'.cmdId != c
    ensures exists r :: r in t && SameAck(r, r')
  {
    var t' := RecordAck(t, c, result, detail, now);
    var i :| 0 <= i < |t'| && t'[i] == r';
    assert t[i] in t && SameAck(t[i], r');
  }

  lemma MarkSameAck(t: Table, c: CmdId, now: int, r': Row)
    requires r' in MarkDelivered(t, c, now)
    ensures exists r :: r in t && SameAck(r, r')
  {
    var t' := MarkDelivered(t, c, now);
    var i :| 0 <= i < |t'| && t'[i] == r';
    assert t[i] in t && SameAck(t[i], r');
  }

  lemma AckWrites(s: State, body: AckBody, at: int, r: Row)
    requires r in AckStep(s, body.cmdId, body, at).table && r.cmdId == body.cmdId
    ensures r.ackAt == Some(at) && r.ackResult == Some(body.result) && r.ackDetail == body.detail
  {
    var t' := AckStep(s, body.cmdId, body, at).table;
    var i :| 0 <= i < |t'| && t'[i] == r;
  }

  lemma PresentIsBorn(s: State, c: CmdId)
    requires Inv(s) && c in Ids(s.table)
    ensures c in s.born
  {
    hide BirthsOk, InBirthOrder, Registered, ViewOf, TableOk, RowsAgree, Accounted, Mentioned, PusherOk;
  }

  function AckOf(body: AckBody, at: int): Label { Ack(Some(body.cmdId), Some(body), at) }

  /** The last ack wins: while its row exists, the ack columns hold the clock reading, result and
      detail of the latest well-formed ack that found it, whatever else happens. */
  lemma {:induction false} LastAckWins(ls: seq<Label>, body: AckBody, at: int, more: seq<Label>, r: Row)
    requires body.cmdId in Ids(Run(Init(), ls).table) && at <= Run(Init(), ls).now
    requires forall l :: l in more ==> !Acks(l, body.cmdId)
    requires var s := Run(Apply(Run(Init(), ls), AckOf(body, at)), more);
      r in s.table && r.cmdId == body.cmdId
    ensures r.ackAt == Some(at) && r.ackResult == Some(body.result) && r.ackDetail == body.detail
    decreases |more|
  {
    hide Inv, Apply, Acks, AckStep, Ids;
    var s0 := Run(Init(), ls);
    var s1 := Apply(s0, AckOf(body, at));
    ReachableInv(ls);
    AckIsStep(s0, body, at);
    if more == [] {
      AckWrites(s0, body, at, r);
    } else {
      var front, l := more[..|more| - 1], more[|more| - 1];
      var mid := Run(s1, front);
      PresentIsBorn(s0, body.cmdId);
      BornGrows(s0, AckOf(body, at));
      BornGrowsRun(s1, front);
      StepKeepsAck(mid, l, r);
      var q :| q in mid.table && SameAck(q, r);
      LastAckWins(ls, body, at, front, q);
    }
  }

  lemma AckIsStep(s: State, body: AckBody, at: int)
    requires at <= s.now
    ensures Apply(s, AckOf(body, at)) == AckStep(s, body.cmdId, body, at)
  {
    hide AckStep;
  }

  /** In every reachable state: an acked row is delivered; attempts is 0 or 1, and 1 exactly when
      the pusher's mark came before any ack; a delivered row was published or acked. Neither time is
      in the future; their order is the subject of AckInOrderIff. */
  lemma RowLifecycle(ls: seq<Label>, r: Row)
    requires r in Run(Init(), ls).table
    ensures var s := Run(Init(), ls);
      && (r.ackAt.Some? ==> r.deliveredAt.Some? && r.ackAt.value <= s.now)
      && (r.deliveredAt.Some? ==> r.deliveredAt.value <= s.now)
      && (r.ackAt.Some? <==> r.cmdId in s.acked)
      && r.attempts == (if r.cmdId in s.marked then 1 else 0)
      && (r.cmdId in s.marked ==> r.deliveredAt.Some? && r.cmdId in s.published)
      && (r.deliveredAt.Some? <==> r.cmdId in s.marked || r.cmdId in s.acked)
  {
    var s := Run(Init(), ls);
    ReachableInv(ls);
    assert RowOk(r) && RowAgrees(r, s.now, s.acked, s.marked, s.published);
  }
}
