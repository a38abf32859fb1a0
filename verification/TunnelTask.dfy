// The code behind the session accounting: the metrics registry, the audit table and the task that
// book-ends one bridged connection, proved to be runs of the step-by-step model.
module TunnelTask {
  import opened Wrappers
  import opened TunnelSessions

  class Metrics {
    var active: map<Kind, int>
    var sessions: map<(Kind, Outcome), int>
    var bytes: map<Direction, int>

    constructor ()
      ensures active == map[] && sessions == map[] && bytes == map[]
    {
      active, sessions, bytes := map[], map[], map[];
    }

    method IncTunnelActive(kind: Kind)
      modifies this`active
      ensures active == Bump(old(active), kind)
    {
      if kind !in active { active := active[kind := 0]; }
      active := active[kind := active[kind] + 1];
    }

    method DecTunnelActive(kind: Kind)
      modifies this`active
      ensures active == Dropped(old(active), kind)
    {
      if kind !in active { active := active[kind := 0]; }
      if active[kind] > 0 { active := active[kind := active[kind] - 1]; }
    }

    method IncTunnelSession(kind: Kind, outcome: Outcome)
      modifies this`sessions
      ensures sessions == Bump(old(sessions), (kind, outcome))
    {
      if (kind, outcome) !in sessions { sessions := sessions[(kind, outcome) := 0]; }
      sessions := sessions[(kind, outcome) := sessions[(kind, outcome)] + 1];
    }

    method AddTunnelBytes(up: int, down: int)
      modifies this`bytes
      ensures bytes == AddTo(old(bytes), Moved(up, down))
    {
      if Up !in bytes { bytes := bytes[Up := 0]; }
      bytes := bytes[Up := Wrap(bytes[Up] + up)];
      if Down !in bytes { bytes := bytes[Down := 0]; }
      bytes := bytes[Down := Wrap(bytes[Down] + down)];
    }
  }

  class AuditTable {
    var rows: seq<AuditRow>

    constructor ()
      ensures rows == []
    {
      rows := [];
    }

    method Insert(now: int, about: Option<int>)
      modifies this
      ensures rows == old(rows) + [AuditRow(now / 1000, about, None, None, None, None)]
    {
      rows := rows + [AuditRow(now / 1000, about, None, None, None, None)];
    }

    method InsertTunnelSessionOpen(device: int, session: int, tsOpenMs: int) returns (id: int)
      modifies this
      ensures rows == old(rows) + [AuditRow(tsOpenMs / 1000, Some(device), Some(session), None, None, None)]
      ensures id == |rows|
    {
      var tsOpenS := tsOpenMs / 1000;
      rows := rows + [AuditRow(tsOpenS, Some(device), Some(session), None, None, None)];
      return |rows|;
    }

    method FinalizeTunnelSession(id: int, up: int, down: int, tsCloseMs: int)
      modifies this
      ensures |rows| == |old(rows)|
      ensures forall i :: 0 <= i < |rows| ==>
                rows[i] == if i + 1 != id then old(rows)[i]
                           else old(rows)[i].(tsClose := Some(tsCloseMs / 1000),
                                              bytesUp := Some(AsI64(up)), bytesDown := Some(AsI64(down)))
    {
      if 1 <= id <= |rows| {
        var tsCloseS := tsCloseMs / 1000;
        var r := rows[id - 1];
        rows := rows[id - 1 := r.(tsClose := Some(tsCloseS),
                                  bytesUp := Some(AsI64(up)), bytesDown := Some(AsI64(down)))];
      }
    }
  }

  // ---- one task's steps in a trace ----

  /** What task `c` does in a trace, in order. */
  function Acts(ls: seq<Label>, c: int): seq<Act> {
    if ls == [] then []
    else
      var front := Acts(ls[..|ls| - 1], c);
      var l := ls[|ls| - 1];
      if l.Task? && l.c == c then front + [l.act] else front
  }

  predicate OthersOnly(ls: seq<Label>, c: int) { forall i :: 0 <= i < |ls| ==> TaskOfLabel(ls[i]) != Some(c) }

  function TaskOfLabel(l: Label): Option<int> { if l.Task? then Some(l.c) else None }

  lemma {:induction false} ActsOfOthers(ls: seq<Label>, more: seq<Label>, c: int)
    requires OthersOnly(more, c)
    ensures Acts(ls + more, c) == Acts(ls, c)
  {
    if more == [] {
      assert ls + more == ls;
    } else {
      assert (ls + more)[..|ls + more| - 1] == ls + more[..|more| - 1];
      assert (ls + more)[|ls + more| - 1] == more[|more| - 1];
      ActsOfOthers(ls, more[..|more| - 1], c);
    }
  }

  lemma ActsSnoc(ls: seq<Label>, c: int, a: Act)
    ensures Acts(ls + [Task(c, a)], c) == Acts(ls, c) + [a]
  {
    assert (ls + [Task(c, a)])[..|ls|] == ls;
  }

  /** Other tasks leave a task's locals alone. */
  lemma {:induction false} OthersKeepLocals(s: State, ls: seq<Label>, c: int)
    requires OthersOnly(ls, c) && 0 <= c < |s.conns|
    ensures c < |Run(s, ls).conns| && Run(s, ls).conns[c] == s.conns[c]
  {
    hide ActiveAfter, SessionsAfter, BytesAfter, AuditAfter, Stepped, Ready;
    if ls != [] {
      OthersKeepLocals(s, ls[..|ls| - 1], c);
      assert TaskOfLabel(ls[|ls| - 1]) != Some(c);
    }
  }

  class Gateway {
    const metrics: Metrics
    const audit: AuditTable
    var now: int
    var conns: seq<Conn> // the locals of the tasks spawned so far

    function Contents(): State
      reads this, metrics, audit
    {
      State(now, conns, metrics.active, metrics.sessions, metrics.bytes, audit.rows)
    }

    constructor ()
      ensures Contents() == Init() && fresh(metrics) && fresh(audit)
    {
      metrics := new Metrics();
      audit := new AuditTable();
      now, conns := 0, [];
    }

    /** What one step of a task does to the shared registry and table. */
    method TaskStep(c: int, a: Act)
      requires 0 <= c < |conns| && Ready(conns[c], a)
      modifies this, metrics, audit
      ensures Contents() == Apply(old(Contents()), Task(c, a))
    {
      hide Wrap, AsI64;
      var k := conns[c];
      var next := |audit.rows| + 1;
      match a {
        case Inc => metrics.IncTunnelActive(k.kind);
        case OpenRow(ok) =>
          if ok { var id := audit.InsertTunnelSessionOpen(k.device, c, k.openedAt); }
        case Dec => metrics.DecTunnelActive(k.kind);
        case CountSession => metrics.IncTunnelSession(k.kind, OutcomeOf(k.result));
        case AddBytes => metrics.AddTunnelBytes(BytesOf(k.result, Up), BytesOf(k.result, Down));
        case CloseRow(ok) =>
          if ok && k.auditId.Some? {
            audit.FinalizeTunnelSession(k.auditId.value, BytesOf(k.result, Up), BytesOf(k.result, Down), k.closedAt);
          }
        case ReadOpen =>
        case Bridge(_) =>
        case ReadClose =>
      }
      conns := conns[c := Stepped(k, a, now, next)];
      assert audit.rows == AuditAfter(old(Contents()), Task(c, a));
    }

    /** Any step of any other task, handler or the clock. */
    method Step(l: Label)
      modifies this, metrics, audit
      ensures Contents() == Apply(old(Contents()), l)
    {
      hide Ready, Stepped;
      match l {
        case Tick(dt) => now := now + dt;
        case Accept(kind, device) => conns := conns + [Accepted(kind, device)];
        case Task(c, a) => if 0 <= c < |conns| && Ready(conns[c], a) { TaskStep(c, a); }
        case OtherAction(about) => audit.Insert(now, about);
        case DropDevice(d) => audit.rows := OrphanAll(audit.rows, d);
      }
    }

    method Interfere(env: seq<Label>)
      modifies this, metrics, audit
      ensures Contents() == Run(old(Contents()), env)
    {
      hide Apply;
      for i := 0 to |env|
        invariant Contents() == Run(old(Contents()), env[..i])
      {
        assert env[..i + 1] == env[..i] + [env[i]];
        RunSnoc(old(Contents()), env[..i], env[i]);
        Step(env[i]);
      }
      assert env[..|env|] == env;
    }

    /** Other tasks run, then this one takes its step. */
    method Next(c: int, a: Act, env: seq<Label>, ghost s0: State, ghost seg0: seq<Label>)
      returns (ghost seg: seq<Label>)
      requires Contents() == Run(s0, seg0) && OthersOnly(env, c)
      requires 0 <= c < |conns| && Ready(conns[c], a)
      modifies this, metrics, audit
      ensures Contents() == Run(s0, seg) && Acts(seg, c) == Acts(seg0, c) + [a]
      ensures c < |conns|
      ensures exists now, next :: conns[c] == Stepped(old(conns)[c], a, now, next)
    {
      hide Run, Apply, Ready, Stepped, Acts;
      OthersKeepLocals(Contents(), env, c);
      Interfere(env);
      RunAppend(s0, seg0, env);
      ActsOfOthers(seg0, env, c);
      RunSnoc(s0, seg0 + env, Task(c, a));
      ActsSnoc(seg0 + env, c, a);
      ghost var was := Contents();
      TaskStep(c, a);
      StepsOwn(was, c, a);
      seg := seg0 + env + [Task(c, a)];
    }

    /** Gauge up, open time, audit row. */
    method OpenSession(c: int, openOk: bool, env: int -> seq<Label>, ghost s0: State, ghost seg0: seq<Label>)
      returns (ghost seg: seq<Label>)
      requires Contents() == Run(s0, seg0) && forall i :: OthersOnly(env(i), c)
      requires 0 <= c < |conns| && conns[c] == Accepted(conns[c].kind, conns[c].device)
      modifies this, metrics, audit
      ensures Contents() == Run(s0, seg) && c < |conns| && SameEnds(conns[c], old(conns)[c])
      ensures conns[c].phase == Audited && conns[c].auditId.Some? == openOk && !conns[c].finalized
      ensures Acts(seg, c) == Acts(seg0, c) + [Inc, ReadOpen, OpenRow(openOk)]
    {
      hide Run, Acts, Contents, OthersOnly;
      seg := Next(c, Inc, env(0), s0, seg0);
      seg := Next(c, ReadOpen, env(1), s0, seg);
      seg := Next(c, OpenRow(openOk), env(2), s0, seg);
    }

    /** The bridge, then gauge down, session count, bytes. */
    method CountSessionEnd(c: int, result: BridgeResult, env: int -> seq<Label>,
                           ghost s0: State, ghost seg0: seq<Label>)
      returns (ghost seg: seq<Label>)
      requires Contents() == Run(s0, seg0) && Counts64(result) && forall i :: OthersOnly(env(i), c)
      requires 0 <= c < |conns| && conns[c].phase == Audited
      modifies this, metrics, audit
      ensures Contents() == Run(s0, seg) && c < |conns| && SameEnds(conns[c], old(conns)[c])
      ensures conns[c].phase == Summed && conns[c].result == result
      ensures conns[c].auditId == old(conns)[c].auditId && conns[c].finalized == old(conns)[c].finalized
      ensures Acts(seg, c) == Acts(seg0, c) + [Bridge(result), Dec, CountSession, AddBytes]
    {
      hide Run, Acts, Contents, OthersOnly, Counts64;
      seg := Next(c, Bridge(result), env(3), s0, seg0);
      seg := Next(c, Dec, env(4), s0, seg);
      seg := Next(c, CountSession, env(5), s0, seg);
      seg := Next(c, AddBytes, env(6), s0, seg);
    }

    /** Close time and the row's final values, if there is a row. */
    method CloseSession(c: int, closeOk: bool, env: int -> seq<Label>, ghost s0: State, ghost seg0: seq<Label>)
      returns (ghost seg: seq<Label>)
      requires Contents() == Run(s0, seg0) && forall i :: OthersOnly(env(i), c)
      requires 0 <= c < |conns| && conns[c].phase == Summed && !conns[c].finalized
      modifies this, metrics, audit
      ensures Contents() == Run(s0, seg) && c < |conns| && SameEnds(conns[c], old(conns)[c])
      ensures Finished(conns[c]) && conns[c].result == old(conns)[c].result
      ensures conns[c].finalized == (old(conns)[c].auditId.Some? && closeOk)
      ensures Acts(seg, c) ==
              Acts(seg0, c) + if old(conns)[c].auditId.Some? then [ReadClose, CloseRow(closeOk)] else []
    {
      hide Run, Acts, Contents, OthersOnly;
      seg := seg0;
      if conns[c].auditId.Some? {
        seg := Next(c, ReadClose, env(7), s0, seg);
        seg := Next(c, CloseRow(closeOk), env(8), s0, seg);
      }
    }

    /** The book-ends of one connection, whatever runs in between: every piece of accounting is done
        exactly once and in this order, and the row is finalised only if it was written. */
    method RunBridgedConnection(c: int, openOk: bool, result: BridgeResult, closeOk: bool,
                                env: int -> seq<Label>, ghost s0: State, ghost seg0: seq<Label>)
      returns (ghost seg: seq<Label>)
      requires Contents() == Run(s0, seg0) && Counts64(result) && forall i :: OthersOnly(env(i), c)
      requires 0 <= c < |conns| && conns[c] == Accepted(conns[c].kind, conns[c].device)
      modifies this, metrics, audit
      ensures Contents() == Run(s0, seg) && c < |conns| && SameEnds(conns[c], old(conns)[c])
      ensures Finished(conns[c]) && conns[c].result == result && conns[c].finalized == (openOk && closeOk)
      ensures Acts(seg, c) == Acts(seg0, c)
                + [Inc, ReadOpen, OpenRow(openOk), Bridge(result), Dec, CountSession, AddBytes]
                + if openOk then [ReadClose, CloseRow(closeOk)] else []
    {
      hide Run, Acts, Contents, OthersOnly, Counts64, Finished, Accepted;
      seg := OpenSession(c, openOk, env, s0, seg0);
      seg := CountSessionEnd(c, result, env, s0, seg);
      seg := CloseSession(c, closeOk, env, s0, seg);
    }
  }

  predicate SameEnds(k: Conn, was: Conn) { k.kind == was.kind && k.device == was.device }

  lemma StepsOwn(s: State, c: int, a: Act)
    requires 0 <= c < |s.conns| && Ready(s.conns[c], a)
    ensures var s' := Apply(s, Task(c, a));
            |s'.conns| == |s.conns| && s'.conns[c] == Stepped(s.conns[c], a, s.now, |s.audit| + 1)
  {
    hide Stepped, Ready, ActiveAfter, SessionsAfter, BytesAfter, AuditAfter;
  }
}
