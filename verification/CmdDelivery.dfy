// The delivery protocol around the outbox, as a labelled transition system. Every SQL statement
// or transaction, every notify, and every await of the pusher is one atomic step; senders,
// operators, devices, the ack fan-in and the pusher interleave in any order. A statement that stores
// a time stores the reading `at`, taken by its caller at any moment before the statement runs.
module CmdDelivery {
  import opened Wrappers
  import opened Seqs
  import opened CmdOutbox

  /** Where the pusher task stands inside its endless loop. */
  datatype Pusher =
    | Parked                            // at the select: a permit or the 30 s timer
    | Starting                          // about to read the clock for a drain
    | Clocked(t: int)                   // clock read, about to list pending rows
    | Sending(todo: seq<Row>)           // top of the per-row loop
    | Routed(row: Row, rest: seq<Row>)  // device found, about to publish
    | Marking(row: Row, rest: seq<Row>) // published, about to mark delivered

  /** Where a command stands in commit order, who owns it, and the rowid it was given. */
  datatype Birth = Birth(no: nat, device: int, id: RowId)

  datatype AckBody = AckBody(cmdId: CmdId, result: AckResult, detail: Option<string>)

  // `devices`, `table`, `now`, `permit` and `pusher` are the running system. The rest is the
  // history the properties speak about.
  datatype State = State(
    devices: set<int>, table: Table, now: int, permit: bool, pusher: Pusher,
    born: map<CmdId, Birth>, births: nat,
    unnotified: set<CmdId>,      // committed, notify not yet called
    published: seq<CmdId>,       // successful puts, in order
    cancelled: seq<CmdId>,       // cancels that returned true, in order
    dropped: set<CmdId>,         // removed with their device
    acked: set<CmdId>,           // acks that hit a row
    marked: set<CmdId>,          // marks that set delivered_at
    markFailed: seq<CmdId>,      // publishes whose mark did not happen
    missed: set<CmdId>,          // rows of the last drain that were skipped or left unmarked
    snapshotFailed: bool,        // the last drain could not list the table
    skips: nat)                  // storage or publish failures and aborted drains so far

  datatype Label =
    | Tick(dt: nat)
    | CreateDevice(device: int)
    | DeleteDevice(device: int)
    | Send(c: CmdId, device: int, topic: string, payload: string, at: int, ttl: Option<int>)
    | Notify(c: CmdId)
    | Ack(key: Option<CmdId>, body: Option<AckBody>, at: int)
    | CancelCmd(c: CmdId)
    | Wake
    | Timeout
    | ReadClock
    | Snapshot(ok: bool)
    | FindDevice(ok: bool)
    | Put(ok: bool)
    | Mark(ok: bool, at: int)
    | Finish
    | Abort
    | Restart

  function Init(): State {
    State({}, [], 0, false, Starting, map[], 0, {}, [], [], {}, {}, {}, [], {}, false, 0)
  }

  function Max(a: int, b: int): int { if a > b then a else b }

  function Min(a: int, b: int): int { if a < b then a else b }

  /** `now.saturating_add(ttl.max(1))` on i64. */
  function ExpiryOf(at: int, ttl: Option<int>): int {
    Min(at + Max(if ttl.Some? then ttl.value else CMD_DEFAULT_TTL_MS, 1), I64_MAX)
  }

  /** Rows the running drain has listed and not yet finished with. */
  function InFlight(p: Pusher): seq<Row> {
    match p
    case Sending(todo) => todo
    case Routed(row, rest) => [row] + rest
    case Marking(row, rest) => [row] + rest
    case _ => []
  }

  /** Rows the running drain may still publish. */
  function ToPublish(p: Pusher): seq<Row> {
    match p
    case Sending(todo) => todo
    case Routed(row, rest) => [row] + rest
    case Marking(row, rest) => rest
    case _ => []
  }

  function SendStep(s: State, c: CmdId, device: int, topic: string, payload: string, at: int, ttl: Option<int>): State {
    // a v4 UUID is new, the topic is checked, and the handler read its clock some time ago
    if c in s.born || topic == "" || at > s.now then s else
    match Enqueue(s.table, s.devices, c, device, topic, payload, at, ExpiryOf(at, ttl))
    case Err(_) => s
    case Ok(t') => s.(table := t', born := s.born[c := Birth(s.births, device, NextRowId(s.table))], births := s.births + 1,
                      unnotified := s.unnotified + {c})
  }

  function AckStep(s: State, c: CmdId, body: AckBody, at: int): State {
    s.(table := RecordAck(s.table, c, body.result, body.detail, at),
       acked := if c in Ids(s.table) then s.acked + {c} else s.acked)
  }

  function CancelStep(s: State, c: CmdId): State {
    if CancelHits(s.table, c)
    then s.(table := Cancel(s.table, c), cancelled := s.cancelled + [c])
    else s
  }

  /** One atomic step. A step that is not enabled leaves the state as it is. */
  function Apply(s: State, l: Label): State {
    match (l, s.pusher)
    case (Tick(dt), _) => s.(now := s.now + dt)
    case (CreateDevice(d), _) => s.(devices := s.devices + {d})
    case (DeleteDevice(d), _) =>
      s.(devices := s.devices - {d}, table := Cascade(s.table, d),
         dropped := s.dropped + (Ids(s.table) - Ids(Cascade(s.table, d))))
    case (Send(c, d, topic, payload, at, ttl), _) => SendStep(s, c, d, topic, payload, at, ttl)
    case (Notify(c), _) =>
      if c in s.unnotified then s.(unnotified := s.unnotified - {c}, permit := true) else s
    case (Ack(Some(c), Some(body), at), _) => if body.cmdId == c && at <= s.now then AckStep(s, c, body, at) else s
    case (CancelCmd(c), _) => CancelStep(s, c)
    case (Wake, Parked) => if s.permit then s.(permit := false, pusher := Starting) else s
    case (Timeout, Parked) => s.(pusher := Starting)
    case (ReadClock, Starting) => s.(pusher := Clocked(s.now))
    case (Snapshot(ok), Clocked(t)) =>
      if ok then s.(pusher := Sending(ListPending(s.table, t)), missed := {}, snapshotFailed := false)
      else s.(pusher := Parked, missed := {}, snapshotFailed := true)
    case (FindDevice(ok), Sending(todo)) =>
      if todo == [] then s
      else if ok && todo[0].device in s.devices then s.(pusher := Routed(todo[0], todo[1..]))
      else s.(pusher := Sending(todo[1..]), missed := s.missed + {todo[0].cmdId},
              skips := if ok then s.skips else s.skips + 1)
    case (Put(ok), Routed(row, rest)) =>
      if ok then s.(pusher := Marking(row, rest), published := s.published + [row.cmdId])
      else s.(pusher := Sending(rest), missed := s.missed + {row.cmdId}, skips := s.skips + 1)
    case (Mark(ok, at), Marking(row, rest)) =>
      if ok && at > s.now then s
      else if ok then s.(pusher := Sending(rest), table := MarkDelivered(s.table, row.cmdId, at),
                         marked := if CancelHits(s.table, row.cmdId) then s.marked + {row.cmdId} else s.marked)
      else s.(pusher := Sending(rest), missed := s.missed + {row.cmdId},
              markFailed := s.markFailed + [row.cmdId])
    case (Finish, Sending(todo)) => if todo == [] then s.(pusher := Parked) else s
    case (Abort, Sending(todo)) =>
      if todo == [] then s else
      s.(pusher := Parked, missed := s.missed + Ids(todo), skips := s.skips + 1)
    case (Abort, Marking(row, rest)) =>
      s.(pusher := Parked, missed := s.missed + Ids([row] + rest), skips := s.skips + 1,
         markFailed := s.markFailed + [row.cmdId])
    case (Restart, p) => RestartStep(s)
    case _ => s
  }

  /** The process dies and comes back: the tables survive, the permit, the handlers and the pusher's
      drain do not, and a publish that was waiting for its mark will never be marked. */
  function RestartStep(s: State): State {
    s.(permit := false, unnotified := {}, pusher := Starting, missed := {}, snapshotFailed := false,
       markFailed := if s.pusher.Marking? then s.markFailed + [s.pusher.row.cmdId] else s.markFailed)
  }

  /** The state after a run of steps, in order. */
  function Run(s: State, ls: seq<Label>): State
    decreases |ls|
  {
    if ls == [] then s else Apply(Run(s, ls[..|ls| - 1]), ls[|ls| - 1])
  }

  lemma {:induction false} RunAppend(s: State, a: seq<Label>, b: seq<Label>)
    ensures Run(s, a + b) == Run(Run(s, a), b)
    decreases |b|
  {
    if b == [] {
      assert a + b == a;
    } else {
      RunAppend(s, a, b[..|b| - 1]);
      assert (a + b)[..|a + b| - 1] == a + b[..|b| - 1];
    }
  }

  lemma RunNone(s: State)
    ensures Run(s, []) == s
  {
  }

  lemma RunSnoc(s: State, ls: seq<Label>, l: Label)
    ensures Run(s, ls + [l]) == Apply(Run(s, ls), l)
  {
    assert (ls + [l])[..|ls|] == ls;
  }

  lemma RunCons(s: State, l: Label, ls: seq<Label>)
    ensures Run(s, [l] + ls) == Run(Apply(s, l), ls)
  {
    RunAppend(s, [l], ls);
    assert [l] == [] + [l];
    RunSnoc(s, [], l);
  }
}
