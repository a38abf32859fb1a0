// Book-keeping around bridged connections: the active gauge, the session and byte counters and
// the audit rows, with any number of connections interleaving step by step.
module TunnelSessions {
  import opened Wrappers

  const TWO64: int := 0x1_0000_0000_0000_0000
  const TWO63: int := 0x8000_0000_0000_0000

  datatype Kind = Tcp | Http

  datatype Outcome = Succeeded | Errored

  datatype Direction = Up | Down

  /** What the bridge returns: two u64 byte counts, or an error. */
  datatype BridgeResult = Moved(up: int, down: int) | Broke

  /** How far one connection's task has got. */
  datatype Phase = New | Active | Clocked | Audited | Bridged | Closed | Counted | Summed | CloseRead | Done

  /** One connection's task with its local variables. */
  datatype Conn = Conn(
    kind: Kind, device: int, phase: Phase,
    openedAt: int, auditId: Option<int>, result: BridgeResult, closedAt: int, finalized: bool)

  /** A row of `audit`; `session` is the connection whose request id it carries. */
  datatype AuditRow = AuditRow(
    ts: int, device: Option<int>, session: Option<int>,
    tsClose: Option<int>, bytesUp: Option<int>, bytesDown: Option<int>)

  datatype State = State(
    now: int, conns: seq<Conn>,
    active: map<Kind, int>, sessions: map<(Kind, Outcome), int>, bytes: map<Direction, int>,
    audit: seq<AuditRow>)

  /** One step of a connection's task. */
  datatype Act =
    | Inc
    | ReadOpen
    | OpenRow(ok: bool)
    | Bridge(result: BridgeResult)
    | Dec
    | CountSession
    | AddBytes
    | ReadClose
    | CloseRow(ok: bool)

  datatype Label =
    | Tick(dt: nat)
    | Accept(kind: Kind, device: int)
    | Task(c: int, act: Act)
    | OtherAction(about: Option<int>)
    | DropDevice(device: int)

  // ---- the pieces the steps are made of ----

  function At<K>(m: map<K, int>, k: K): int { if k in m then m[k] else 0 }

  function Wrap(n: int): int { n % TWO64 }

  /** `u64 as i64`. */
  function AsI64(n: int): int { if n < TWO63 then n else n - TWO64 }

  function BytesOf(r: BridgeResult, d: Direction): int {
    if r.Broke? then 0 else if d.Up? then r.up else r.down
  }

  function OutcomeOf(r: BridgeResult): Outcome { if r.Broke? then Errored else Succeeded }

  predicate Counts64(r: BridgeResult) { r.Moved? ==> 0 <= r.up < TWO64 && 0 <= r.down < TWO64 }

  /** The gauge never goes below zero. */
  function Dropped(m: map<Kind, int>, k: Kind): map<Kind, int> {
    m[k := if At(m, k) > 0 then At(m, k) - 1 else At(m, k)]
  }

  function Bump<K>(m: map<K, int>, k: K): map<K, int> { m[k := At(m, k) + 1] }

  function AddTo(m: map<Direction, int>, r: BridgeResult): map<Direction, int> {
    m[Up := Wrap(At(m, Up) + BytesOf(r, Up))][Down := Wrap(At(m, Down) + BytesOf(r, Down))]
  }

  function OpenedRow(k: Conn, c: int): AuditRow {
    AuditRow(k.openedAt / 1000, Some(k.device), Some(c), None, None, None)
  }

  function FinalizedRow(r: AuditRow, k: Conn): AuditRow {
    r.(tsClose := Some(k.closedAt / 1000),
       bytesUp := Some(AsI64(BytesOf(k.result, Up))), bytesDown := Some(AsI64(BytesOf(k.result, Down))))
  }

  /** Deleting a device blanks it in the rows that name it. */
  function Orphan(r: AuditRow, device: int): AuditRow {
    if r.device == Some(device) then r.(device := None) else r
  }

  function OrphanAll(rows: seq<AuditRow>, device: int): (r: seq<AuditRow>)
    ensures |r| == |rows| && forall i :: 0 <= i < |rows| ==> r[i] == Orphan(rows[i], device)
  {
    seq(|rows|, i requires 0 <= i < |rows| => Orphan(rows[i], device))
  }

  /** The UPDATE by row id; it hits no row when the id names none. */
  function Finalize(rows: seq<AuditRow>, k: Conn): (r: seq<AuditRow>)
    ensures |r| == |rows|
  {
    if k.auditId.Some? && 1 <= k.auditId.value <= |rows| then
      rows[k.auditId.value - 1 := FinalizedRow(rows[k.auditId.value - 1], k)]
    else rows
  }

  // ---- one step ----

  /** Is `a` the next thing the task does? */
  predicate Ready(k: Conn, a: Act) {
    match a
    case Inc => k.phase == New
    case ReadOpen => k.phase == Active
    case OpenRow(_) => k.phase == Clocked
    case Bridge(r) => k.phase == Audited && Counts64(r)
    case Dec => k.phase == Bridged
    case CountSession => k.phase == Closed
    case AddBytes => k.phase == Counted
    case ReadClose => k.phase == Summed && k.auditId.Some?
    case CloseRow(_) => k.phase == CloseRead
  }

  /** The task's locals afterwards. */
  function Stepped(k: Conn, a: Act, now: int, nextRow: int): Conn {
    match a
    case Inc => k.(phase := Active)
    case ReadOpen => k.(phase := Clocked, openedAt := now)
    case OpenRow(ok) => k.(phase := Audited, auditId := if ok then Some(nextRow) else None)
    case Bridge(r) => k.(phase := Bridged, result := r)
    case Dec => k.(phase := Closed)
    case CountSession => k.(phase := Counted)
    case AddBytes => k.(phase := Summed)
    case ReadClose => k.(phase := CloseRead, closedAt := now)
    case CloseRow(ok) => k.(phase := Done, finalized := ok)
  }

  predicate Enabled(s: State, l: Label) {
    l.Task? && 0 <= l.c < |s.conns| && Ready(s.conns[l.c], l.act)
  }

  function Accepted(kind: Kind, device: int): Conn { Conn(kind, device, New, 0, None, Broke, 0, false) }

  function ConnsAfter(s: State, l: Label): seq<Conn> {
    if Enabled(s, l) then s.conns[l.c := Stepped(s.conns[l.c], l.act, s.now, |s.audit| + 1)]
    else if l.Accept? then s.conns + [Accepted(l.kind, l.device)]
    else s.conns
  }

  function ActiveAfter(s: State, l: Label): map<Kind, int> {
    if Enabled(s, l) && l.act.Inc? then Bump(s.active, s.conns[l.c].kind)
    else if Enabled(s, l) && l.act.Dec? then Dropped(s.active, s.conns[l.c].kind)
    else s.active
  }

  function SessionsAfter(s: State, l: Label): map<(Kind, Outcome), int> {
    if Enabled(s, l) && l.act.CountSession? then
      Bump(s.sessions, (s.conns[l.c].kind, OutcomeOf(s.conns[l.c].result)))
    else s.sessions
  }

  function BytesAfter(s: State, l: Label): map<Direction, int> {
    if Enabled(s, l) && l.act.AddBytes? then AddTo(s.bytes, s.conns[l.c].result) else s.bytes
  }

  function AuditAfter(s: State, l: Label): seq<AuditRow> {
    match l
    case Task(c, OpenRow(true)) => if Enabled(s, l) then s.audit + [OpenedRow(s.conns[c], c)] else s.audit
    case Task(c, CloseRow(true)) => if Enabled(s, l) then Finalize(s.audit, s.conns[c]) else s.audit
    case OtherAction(about) => s.audit + [AuditRow(s.now / 1000, about, None, None, None, None)]
    case DropDevice(d) => OrphanAll(s.audit, d)
    case _ => s.audit
  }

  function Apply(s: State, l: Label): State {
    State(if l.Tick? then s.now + l.dt else s.now, ConnsAfter(s, l),
          ActiveAfter(s, l), SessionsAfter(s, l), BytesAfter(s, l), AuditAfter(s, l))
  }

  function Init(): State { State(0, [], map[], map[], map[], []) }

  function Run(s: State, ls: seq<Label>): State {
    if ls == [] then s else Apply(Run(s, ls[..|ls| - 1]), ls[|ls| - 1])
  }

  lemma RunSnoc(s: State, ls: seq<Label>, l: Label)
    ensures Run(s, ls + [l]) == Apply(Run(s, ls), l)
  {
    assert (ls + [l])[..|ls|] == ls;
  }

  lemma {:induction false} RunAppend(s: State, a: seq<Label>, b: seq<Label>)
    ensures Run(s, a + b) == Run(Run(s, a), b)
  {
    hide Apply;
    if b == [] {
      assert a + b == a;
    } else {
      var front := b[..|b| - 1];
      RunAppend(s, a, front);
      assert a + b == (a + front) + [b[|b| - 1]];
      RunSnoc(s, a + front, b[|b| - 1]);
    }
  }

  // ---- sums over connections ----

  function Total(f: Conn -> int, s: seq<Conn>): int {
    if s == [] then 0 else Total(f, s[..|s| - 1]) + f(s[|s| - 1])
  }

  lemma TotalSnoc(f: Conn -> int, s: seq<Conn>, k: Conn)
    ensures Total(f, s + [k]) == Total(f, s) + f(k)
  {
    assert (s + [k])[..|s|] == s;
  }

  lemma {:induction false} TotalUpdate(f: Conn -> int, s: seq<Conn>, c: nat, k: Conn)
    requires c < |s|
    ensures Total(f, s[c := k]) == Total(f, s) - f(s[c]) + f(k)
  {
    var n := |s| - 1;
    if c == n {
      assert s[c := k][..n] == s[..n];
    } else {
      TotalUpdate(f, s[..n], c, k);
      assert s[c := k][..n] == s[..n][c := k];
    }
  }

  lemma {:induction false} TotalAtLeast(f: Conn -> int, s: seq<Conn>, c: nat)
    requires c < |s| && forall k :: f(k) >= 0
    ensures Total(f, s) >= f(s[c])
  {
    TotalNonNegative(f, s[..|s| - 1]);
    if c < |s| - 1 { TotalAtLeast(f, s[..|s| - 1], c); }
  }

  lemma {:induction false} TotalNonNegative(f: Conn -> int, s: seq<Conn>)
    requires forall k :: f(k) >= 0
    ensures Total(f, s) >= 0
  {
    if s != [] { TotalNonNegative(f, s[..|s| - 1]); }
  }

  lemma {:induction false} TotalZero(f: Conn -> int, s: seq<Conn>)
    requires forall c :: 0 <= c < |s| ==> f(s[c]) == 0
    ensures Total(f, s) == 0
  {
    if s != [] { TotalZero(f, s[..|s| - 1]); }
  }

  /** Between the gauge's increment and its decrement. */
  predicate IsOpen(k: Conn) { k.phase in {Active, Clocked, Audited, Bridged} }

  predicate IsCounted(k: Conn) { k.phase in {Counted, Summed, CloseRead, Done} }

  predicate IsSummed(k: Conn) { k.phase in {Summed, CloseRead, Done} }

  function OpenPart(kind: Kind): Conn -> int { (k: Conn) => if k.kind == kind && IsOpen(k) then 1 else 0 }

  function SessionPart(key: (Kind, Outcome)): Conn -> int {
    (k: Conn) => if (k.kind, OutcomeOf(k.result)) == key && IsCounted(k) then 1 else 0
  }

  function BytesPart(d: Direction): Conn -> int { (k: Conn) => if IsSummed(k) then BytesOf(k.result, d) else 0 }

  // ---- invariants ----

  ghost predicate GaugesOk(s: State) { forall kind :: At(s.active, kind) == Total(OpenPart(kind), s.conns) }

  ghost predicate SessionsOk(s: State) { forall key :: At(s.sessions, key) == Total(SessionPart(key), s.conns) }

  ghost predicate BytesOk(s: State) { forall d :: At(s.bytes, d) == Wrap(Total(BytesPart(d), s.conns)) }

  predicate ConnOk(k: Conn, now: int) {
    && 0 <= k.openedAt <= now && 0 <= k.closedAt <= now && Counts64(k.result)
    && (k.phase in {CloseRead, Done} ==> k.openedAt <= k.closedAt && k.auditId.Some?)
    && (k.auditId.Some? ==> k.phase !in {New, Active, Clocked})
    && (k.finalized ==> k.phase == Done)
  }

  predicate ConnsOk(s: State) { s.now >= 0 && forall c :: 0 <= c < |s.conns| ==> ConnOk(s.conns[c], s.now) }

  /** `r` is the row of connection `c`, which is `k`. */
  predicate RowOf(r: AuditRow, c: int, k: Conn) {
    && r.session == Some(c) && r.ts == k.openedAt / 1000
    && (if k.finalized then
          && r.tsClose == Some(k.closedAt / 1000)
          && r.bytesUp == Some(AsI64(BytesOf(k.result, Up))) && r.bytesDown == Some(AsI64(BytesOf(k.result, Down)))
        else r.tsClose == None && r.bytesUp == None && r.bytesDown == None)
  }

  /** Connections with an audit id and session rows are the same pairs. */
  predicate RowsMatch(conns: seq<Conn>, audit: seq<AuditRow>) {
    && (forall c :: 0 <= c < |conns| && conns[c].auditId.Some? ==>
          && 1 <= conns[c].auditId.value <= |audit|
          && RowOf(audit[conns[c].auditId.value - 1], c, conns[c]))
    && (forall i :: 0 <= i < |audit| && audit[i].session.Some? ==>
          && 0 <= audit[i].session.value < |conns|
          && conns[audit[i].session.value].auditId == Some(i + 1))
  }

  predicate AuditOk(s: State) { RowsMatch(s.conns, s.audit) }

  ghost predicate Inv(s: State) { GaugesOk(s) && SessionsOk(s) && BytesOk(s) && ConnsOk(s) && AuditOk(s) }

  // ---- every step keeps them ----

  /** How a step moves a sum over the connections. */
  lemma TotalAfter(f: Conn -> int, s: State, l: Label)
    ensures Total(f, ConnsAfter(s, l)) == Total(f, s.conns) +
            if Enabled(s, l) then f(Stepped(s.conns[l.c], l.act, s.now, |s.audit| + 1)) - f(s.conns[l.c])
            else if l.Accept? then f(Accepted(l.kind, l.device)) else 0
  {
    hide Total, Stepped, Ready;
    if Enabled(s, l) {
      TotalUpdate(f, s.conns, l.c, Stepped(s.conns[l.c], l.act, s.now, |s.audit| + 1));
    } else if l.Accept? {
      TotalSnoc(f, s.conns, Accepted(l.kind, l.device));
    }
  }

  lemma StepGauges(s: State, l: Label)
    requires GaugesOk(s)
    ensures GaugesOk(Apply(s, l))
  {
    hide Total, ConnsAfter, SessionsAfter, BytesAfter, AuditAfter;
    forall kind ensures At(ActiveAfter(s, l), kind) == Total(OpenPart(kind), ConnsAfter(s, l)) {
      TotalAfter(OpenPart(kind), s, l);
      if Enabled(s, l) { TotalAtLeast(OpenPart(kind), s.conns, l.c); }
    }
  }

  lemma StepSessions(s: State, l: Label)
    requires SessionsOk(s)
    ensures SessionsOk(Apply(s, l))
  {
    hide Total, ConnsAfter, ActiveAfter, BytesAfter, AuditAfter;
    forall key ensures At(SessionsAfter(s, l), key) == Total(SessionPart(key), ConnsAfter(s, l)) {
      TotalAfter(SessionPart(key), s, l);
    }
  }

  lemma WrapAdd(a: int, b: int)
    ensures Wrap(Wrap(a) + b) == Wrap(a + b)
  {
    DivUnique(a + b, a / TWO64 + (a % TWO64 + b) / TWO64, (a % TWO64 + b) % TWO64);
  }

  lemma DivUnique(y: int, q: int, r: int)
    requires y == TWO64 * q + r && 0 <= r < TWO64
    ensures y % TWO64 == r
  {
    assert y == TWO64 * (y / TWO64) + y % TWO64;
  }

  lemma StepBytes(s: State, l: Label)
    requires BytesOk(s)
    ensures BytesOk(Apply(s, l))
  {
    hide Total, ConnsAfter, ActiveAfter, SessionsAfter, AuditAfter, Wrap;
    forall d ensures At(BytesAfter(s, l), d) == Wrap(Total(BytesPart(d), ConnsAfter(s, l))) {
      TotalAfter(BytesPart(d), s, l);
      if Enabled(s, l) {
        WrapAdd(Total(BytesPart(d), s.conns), BytesOf(s.conns[l.c].result, d));
      }
    }
  }

  lemma StepConns(s: State, l: Label)
    requires ConnsOk(s)
    ensures ConnsOk(Apply(s, l))
  {
    hide ActiveAfter, SessionsAfter, BytesAfter, AuditAfter;
  }

  /** The steps that write no row leave the task's own row, if it has one, as it should be. */
  lemma QuietStep(k: Conn, a: Act, now: int, next: int, r: AuditRow, c: int)
    requires Ready(k, a) && ConnOk(k, now) && a != OpenRow(true) && a != CloseRow(true)
    ensures Stepped(k, a, now, next).auditId == k.auditId
    ensures k.auditId.Some? && RowOf(r, c, k) ==> RowOf(r, c, Stepped(k, a, now, next))
  {
    hide AsI64, BytesOf;
  }

  lemma AuditOnTask(s: State, l: Label)
    requires AuditOk(s) && ConnsOk(s) && Enabled(s, l) && l.act != OpenRow(true) && l.act != CloseRow(true)
    ensures AuditOk(Apply(s, l))
  {
    hide ActiveAfter, SessionsAfter, BytesAfter, RowOf, Finalize, OrphanAll, Stepped, Ready, ConnOk;
    assert AuditAfter(s, l) == s.audit;
    var k := s.conns[l.c];
    var k' := Stepped(k, l.act, s.now, |s.audit| + 1);
    assert ConnsAfter(s, l) == s.conns[l.c := k'];
    forall r | RowOf(r, l.c, k) ensures k.auditId.Some? ==> RowOf(r, l.c, k') {
      QuietStep(k, l.act, s.now, |s.audit| + 1, r, l.c);
    }
    assert k'.auditId == k.auditId by { QuietStep(k, l.act, s.now, |s.audit| + 1, OpenedRow(k, l.c), l.c); }
  }

  lemma AuditOnOpen(s: State, c: int)
    requires AuditOk(s) && ConnsOk(s) && Enabled(s, Task(c, OpenRow(true)))
    ensures AuditOk(Apply(s, Task(c, OpenRow(true))))
  {
    hide ActiveAfter, SessionsAfter, BytesAfter, AsI64, BytesOf, Finalize, OrphanAll;
  }

  /** The UPDATE makes the task's own row the closed row of the finalized connection. */
  lemma ClosingStep(k: Conn, now: int, next: int, r: AuditRow, c: int)
    requires Ready(k, CloseRow(true)) && ConnOk(k, now)
    ensures k.auditId.Some? && Stepped(k, CloseRow(true), now, next).auditId == k.auditId
    ensures RowOf(r, c, k) ==> RowOf(FinalizedRow(r, k), c, Stepped(k, CloseRow(true), now, next))
  {
    hide AsI64, BytesOf;
  }

  /** Changing one connection together with its row keeps the pairs. */
  lemma PairUpdate(conns: seq<Conn>, audit: seq<AuditRow>, c: nat, k: Conn, r: AuditRow)
    requires RowsMatch(conns, audit) && c < |conns| && conns[c].auditId.Some? && k.auditId == conns[c].auditId
    requires RowOf(r, c, k)
    ensures 1 <= k.auditId.value <= |audit|
    ensures RowsMatch(conns[c := k], audit[k.auditId.value - 1 := r])
  {
    hide AsI64, BytesOf;
  }

  lemma OwnRow(s: State, c: int)
    requires AuditOk(s) && 0 <= c < |s.conns| && s.conns[c].auditId.Some?
    ensures 1 <= s.conns[c].auditId.value <= |s.audit|
    ensures RowOf(s.audit[s.conns[c].auditId.value - 1], c, s.conns[c])
  {
    hide RowOf;
  }

  lemma AuditOnClose(s: State, c: int)
    requires AuditOk(s) && ConnsOk(s) && Enabled(s, Task(c, CloseRow(true)))
    ensures AuditOk(Apply(s, Task(c, CloseRow(true))))
  {
    hide ActiveAfter, SessionsAfter, BytesAfter, RowsMatch, RowOf, FinalizedRow, Stepped, Ready, ConnOk;
    var k := s.conns[c];
    ClosingStep(k, s.now, |s.audit| + 1, OpenedRow(k, c), c);
    OwnRow(s, c);
    var r := s.audit[k.auditId.value - 1];
    ClosingStep(k, s.now, |s.audit| + 1, r, c);
    PairUpdate(s.conns, s.audit, c, Stepped(k, CloseRow(true), s.now, |s.audit| + 1), FinalizedRow(r, k));
  }

  /** What is not a task's step adds a connection or a row that is no session's, or blanks devices. */
  lemma AuditOnOther(s: State, l: Label)
    requires AuditOk(s) && !Enabled(s, l)
    ensures AuditOk(Apply(s, l))
  {
    hide ActiveAfter, SessionsAfter, BytesAfter, Enabled, Stepped, AsI64, BytesOf, Finalize, Ready;
    match l
    case Accept(_, _) =>
    case OtherAction(_) =>
    case DropDevice(_) =>
    case _ =>
  }

  lemma StepAudit(s: State, l: Label)
    requires AuditOk(s) && ConnsOk(s)
    ensures AuditOk(Apply(s, l))
  {
    if Enabled(s, l) {
      hide AuditOk, ConnsOk, Apply, Ready;
      if l.act == OpenRow(true) { AuditOnOpen(s, l.c); }
      else if l.act == CloseRow(true) { AuditOnClose(s, l.c); }
      else { AuditOnTask(s, l); }
    } else {
      AuditOnOther(s, l);
    }
  }

  lemma StepInv(s: State, l: Label)
    requires Inv(s)
    ensures Inv(Apply(s, l))
  {
    hide Apply, GaugesOk, SessionsOk, BytesOk, ConnsOk, AuditOk;
    StepGauges(s, l);
    StepSessions(s, l);
    StepBytes(s, l);
    StepConns(s, l);
    StepAudit(s, l);
  }

  lemma InitInv()
    ensures Inv(Init())
  {
    assert Wrap(0) == 0;
  }

  lemma {:induction false} ReachableInv(ls: seq<Label>)
    ensures Inv(Run(Init(), ls))
  {
    hide Inv, Apply, Init;
    InitInv();
    if ls != [] {
      ReachableInv(ls[..|ls| - 1]);
      StepInv(Run(Init(), ls[..|ls| - 1]), ls[|ls| - 1]);
    }
  }

  // ---- what the invariants say about every run ----

  /** The gauge of each kind is the number of connections between open and close, and whenever a
      task is about to decrement it the gauge is positive: the saturation never cuts in. */
  lemma GaugeIsOpenConnections(ls: seq<Label>, kind: Kind)
    ensures var s := Run(Init(), ls);
            && At(s.active, kind) == Total(OpenPart(kind), s.conns) >= 0
            && forall c :: 0 <= c < |s.conns| && s.conns[c].phase == Bridged && s.conns[c].kind == kind ==>
                 At(s.active, kind) >= 1
  {
    hide Run, SessionsOk, BytesOk, ConnsOk, AuditOk, Total;
    ReachableInv(ls);
    var s := Run(Init(), ls);
    var f := OpenPart(kind);
    TotalNonNegative(f, s.conns);
    forall c | 0 <= c < |s.conns| && s.conns[c].phase == Bridged && s.conns[c].kind == kind
      ensures Total(f, s.conns) >= 1
    {
      TotalAtLeast(f, s.conns, c);
      assert f(s.conns[c]) == 1;
    }
  }

  predicate Finished(k: Conn) { k.phase == Done || (k.phase == Summed && k.auditId.None?) }

  /** Once every connection has finished, the gauges read zero, each session counter is the number of
      connections of that kind and outcome, and the byte counters are the sums over all connections,
      modulo the counters' width. */
  lemma QuietCounters(ls: seq<Label>, kind: Kind, outcome: Outcome, d: Direction)
    requires var s := Run(Init(), ls); forall c :: 0 <= c < |s.conns| ==> Finished(s.conns[c])
    ensures var s := Run(Init(), ls);
            && At(s.active, kind) == 0
            && At(s.sessions, (kind, outcome)) ==
               Total((k: Conn) => if k.kind == kind && (outcome == Errored <==> k.result.Broke?) then 1 else 0, s.conns)
            && At(s.bytes, d) == Total((k: Conn) => Carried(k.result, d), s.conns) % 18_446_744_073_709_551_616
  {
    hide Run, ConnsOk, AuditOk, Total, Wrap;
    ReachableInv(ls);
    var s := Run(Init(), ls);
    TotalZero(OpenPart(kind), s.conns);
    TotalAgree(BytesPart(d), (k: Conn) => Carried(k.result, d), s.conns);
    TotalAgree(SessionPart((kind, outcome)),
               (k: Conn) => if k.kind == kind && (outcome == Errored <==> k.result.Broke?) then 1 else 0, s.conns);
    WrapIsModulo(Total((k: Conn) => Carried(k.result, d), s.conns));
  }

  /** The bytes a connection carried each way; one whose bridge failed counts for none. */
  function Carried(r: BridgeResult, d: Direction): int {
    match (r, d)
    case (Broke, _) => 0
    case (Moved(up, _), Up) => up
    case (Moved(_, down), Down) => down
  }

  lemma WrapIsModulo(n: int)
    ensures Wrap(n) == n % 18_446_744_073_709_551_616
  {
  }

  lemma {:induction false} TotalAgree(f: Conn -> int, g: Conn -> int, s: seq<Conn>)
    requires forall c :: 0 <= c < |s| ==> f(s[c]) == g(s[c])
    ensures Total(f, s) == Total(g, s)
  {
    if s != [] { TotalAgree(f, g, s[..|s| - 1]); }
  }

  /** One audit row per connection at most; a finalised row opens no later than it closes. */
  lemma SessionRows(ls: seq<Label>)
    ensures var s := Run(Init(), ls);
            && (forall i, j :: 0 <= i < j < |s.audit| && s.audit[i].session.Some? ==>
                  s.audit[i].session != s.audit[j].session)
            && (forall i :: 0 <= i < |s.audit| && s.audit[i].tsClose.Some? && s.audit[i].session.Some? ==>
                  s.audit[i].ts <= s.audit[i].tsClose.value)
  {
    hide Run, GaugesOk, SessionsOk, BytesOk, AsI64, BytesOf;
    ReachableInv(ls);
    var s := Run(Init(), ls);
    forall i | 0 <= i < |s.audit| && s.audit[i].tsClose.Some? && s.audit[i].session.Some?
      ensures s.audit[i].ts <= s.audit[i].tsClose.value
    {
      var c := s.audit[i].session.value;
      assert RowOf(s.audit[i], c, s.conns[c]);
      Seconds(s.conns[c].openedAt, s.conns[c].closedAt);
    }
  }

  lemma Seconds(a: int, b: int)
    requires a <= b
    ensures a / 1000 <= b / 1000
  {
  }

  /** A finalised row holds its own connection's byte counts, exactly when they fit an i64. */
  lemma RowBytesIff(ls: seq<Label>, c: int, d: Direction)
    requires var s := Run(Init(), ls); 0 <= c < |s.conns| && s.conns[c].finalized
    ensures var s := Run(Init(), ls);
            var k := s.conns[c];
            && k.auditId.Some? && 1 <= k.auditId.value <= |s.audit|
            && var r := s.audit[k.auditId.value - 1];
               r.session == Some(c)
               && ((if d.Up? then r.bytesUp else r.bytesDown) == Some(Carried(k.result, d)) <==>
                   Carried(k.result, d) < 9_223_372_036_854_775_808)
  {
    hide Run, GaugesOk, SessionsOk, BytesOk;
    ReachableInv(ls);
  }

  /** What one step writes into a connection's own variables: its clock readings are the clock at its two
      reads, its row id is that of the row it just opened, and its result is the bridge's. */
  lemma StepWrites(s: State, l: Label, c: int)
    requires 0 <= c < |s.conns|
    ensures var k, k' := s.conns[c], Apply(s, l).conns[c];
            && k'.kind == k.kind && k'.device == k.device
            && k'.openedAt == (if l == Task(c, ReadOpen) && k.phase == Active then s.now else k.openedAt)
            && k'.closedAt == (if l == Task(c, ReadClose) && k.phase == Summed && k.auditId.Some? then s.now else k.closedAt)
            && k'.auditId == (if l == Task(c, OpenRow(true)) && k.phase == Clocked then Some(|s.audit| + 1)
                              else if l == Task(c, OpenRow(false)) && k.phase == Clocked then None else k.auditId)
            && (k.phase != Audited ==> k'.result == k.result)
            && (k.phase == Audited && k'.phase == Bridged ==> l.Task? && l.act == Bridge(k'.result))
  {
  }

  /** What one step writes into the audit table: a row with the open time in seconds, and later its close time
      and byte counts. */
  lemma StepAudits(s: State, c: int)
    requires 0 <= c < |s.conns|
    ensures var k := s.conns[c];
            k.phase == Clocked ==>
              && Apply(s, Task(c, OpenRow(true))).audit ==
                 s.audit + [AuditRow(k.openedAt / 1000, Some(k.device), Some(c), None, None, None)]
              && Apply(s, Task(c, OpenRow(false))).audit == s.audit
    ensures var k := s.conns[c];
            k.phase == CloseRead && k.auditId.Some? && 1 <= k.auditId.value <= |s.audit| ==>
              var i, rows := k.auditId.value - 1, Apply(s, Task(c, CloseRow(true))).audit;
              && |rows| == |s.audit| && (forall j :: 0 <= j < |rows| && j != i ==> rows[j] == s.audit[j])
              && rows[i].ts == s.audit[i].ts && rows[i].session == s.audit[i].session
              && rows[i].device == s.audit[i].device && rows[i].tsClose == Some(k.closedAt / 1000)
              && Apply(s, Task(c, CloseRow(false))).audit == s.audit
  {
  }

  /** Deleting a device blanks it in every row that names it and changes nothing else of any row. */
  lemma DropDeviceBlanks(s: State, d: int)
    ensures var rows := Apply(s, DropDevice(d)).audit;
            && |rows| == |s.audit|
            && forall i :: 0 <= i < |rows| ==>
                 && rows[i].device != Some(d)
                 && (s.audit[i].device != Some(d) ==> rows[i] == s.audit[i])
                 && (s.audit[i].device == Some(d) ==> rows[i] == s.audit[i].(device := None))
  {
  }

  // ---- a row is opened once and closed once ----

  /** What a later step may do to a row: blank its device, or close it if it is still open. */
  predicate RowEvolves(r: AuditRow, r': AuditRow) {
    && r'.session == r.session && r'.ts == r.ts
    && (r'.device == r.device || r'.device == None)
    && (r.tsClose.Some? ==> r'.tsClose == r.tsClose && r'.bytesUp == r.bytesUp && r'.bytesDown == r.bytesDown)
  }

  predicate AuditEvolves(a: seq<AuditRow>, b: seq<AuditRow>) {
    |a| <= |b| && forall i :: 0 <= i < |a| ==> RowEvolves(a[i], b[i])
  }

  lemma StepAuditEvolves(s: State, l: Label)
    requires AuditOk(s) && ConnsOk(s)
    ensures AuditEvolves(s.audit, AuditAfter(s, l))
  {
    hide AsI64, BytesOf;
  }

  /** Over any run no row disappears, and a closed row keeps its close time and byte counts. */
  lemma {:induction false} ClosedOnce(ls: seq<Label>, more: seq<Label>)
    ensures AuditEvolves(Run(Init(), ls).audit, Run(Init(), ls + more).audit)
  {
    hide Run, AuditAfter, ConnsOk, AuditOk, GaugesOk, SessionsOk, BytesOk;
    if more == [] {
      assert ls + more == ls;
    } else {
      var front, l := more[..|more| - 1], more[|more| - 1];
      ClosedOnce(ls, front);
      ReachableInv(ls + front);
      assert ls + more == (ls + front) + [l];
      RunSnoc(Init(), ls + front, l);
      StepAuditEvolves(Run(Init(), ls + front), l);
    }
  }
}
