// The two pump loops of `run_bridge` as the program runs them, proved against a description of what
// they publish, write and count, which in turn is one half of a flow of module `Bridge`.
module BridgePumps {
  import opened Bridge

  /** What one `read` into the buffer gives: bytes, end of file, or an error. */
  datatype ReadOutcome = Data(chunk: Payload) | Eof | ReadError

  /** What the socket does with one `write_all`. */
  datatype WriteOutcome = Wrote | Broke(n: nat)

  predicate ReadsOk(script: seq<ReadOutcome>) {
    forall i :: 0 <= i < |script| && script[i].Data? ==> 0 < |script[i].chunk| <= READ_BUF
  }

  predicate WritesOk(samples: seq<Payload>, writes: seq<WriteOutcome>) {
    |writes| >= |samples| && forall i :: 0 <= i < |samples| && writes[i].Broke? ==> writes[i].n <= |samples[i]|
  }

  // ---- What the pumps do, from read or sample `i` on ---------------------------------------------

  /** What the near pump publishes: each chunk as it was read, then the empty payload; nothing more
      once a put has failed. */
  function Published(script: seq<ReadOutcome>, putOks: seq<bool>, i: nat): seq<Payload>
    requires i <= |script| <= |putOks|
    decreases |script| - i
  {
    if i == |script| || !putOks[i] then []
    else if script[i].Data? then [script[i].chunk] + Published(script, putOks, i + 1)
    else [[]]
  }

  /** The bytes the near pump reads: of every chunk up to the end or the first failed put. */
  function BytesRead(script: seq<ReadOutcome>, putOks: seq<bool>, i: nat): seq<Byte>
    requires i <= |script| <= |putOks|
    decreases |script| - i
  {
    if i == |script| || !script[i].Data? then []
    else script[i].chunk + if putOks[i] then BytesRead(script, putOks, i + 1) else []
  }

  /** What the far pump writes: the samples up to the close sentinel, and of the sample on which the
      socket breaks only the part that went out. */
  function Written(samples: seq<Payload>, writes: seq<WriteOutcome>, i: nat): seq<Byte>
    requires i <= |samples| && WritesOk(samples, writes)
    decreases |samples| - i
  {
    if i == |samples| || samples[i] == [] then []
    else match writes[i]
      case Wrote => samples[i] + Written(samples, writes, i + 1)
      case Broke(n) => samples[i][..n]
  }

  /** What the far pump counts: every sample it received before the sentinel, in full. */
  function Counted(samples: seq<Payload>, writes: seq<WriteOutcome>, i: nat): nat
    requires i <= |samples| <= |writes|
    decreases |samples| - i
  {
    if i == |samples| || samples[i] == [] then 0
    else |samples[i]| + if writes[i].Wrote? then Counted(samples, writes, i + 1) else 0
  }

  // ---- The loops ----------------------------------------------------------------------------------

  /** `read` fills the front of the reused buffer. */
  method Fill(buf: array<Byte>, chunk: Payload)
    requires |chunk| <= buf.Length
    modifies buf
    ensures buf[..|chunk|] == chunk
  {
    for i := 0 to |chunk|
      invariant buf[..i] == chunk[..i]
    {
      buf[i] := chunk[i];
    }
    assert chunk[..|chunk|] == chunk;
  }

  lemma PublishedFrom(script: seq<ReadOutcome>, putOks: seq<bool>, i: nat)
    requires i < |script| <= |putOks|
    ensures Published(script, putOks, i) ==
            if !putOks[i] then []
            else if script[i].Data? then [script[i].chunk] + Published(script, putOks, i + 1) else [[]]
    ensures |BytesRead(script, putOks, i)| ==
            if !script[i].Data? then 0
            else |script[i].chunk| + if putOks[i] then |BytesRead(script, putOks, i + 1)| else 0
  {
  }

  /** TCP to Zenoh. `putOks[i]` is the publisher's answer to the i-th put. Every payload is a copy, so
      reusing the buffer never changes what was put; a chunk whose put fails is still counted. */
  method TcpToZenoh(script: seq<ReadOutcome>, putOks: seq<bool>) returns (up: nat, puts: seq<Payload>)
    requires ReadsOk(script) && |putOks| >= |script|
    ensures puts == Published(script, putOks, 0)
    ensures up == |BytesRead(script, putOks, 0)|
  {
    var buf := new Byte[READ_BUF](_ => 0);
    up, puts := 0, [];
    for i := 0 to |script|
      invariant puts + Published(script, putOks, i) == Published(script, putOks, 0)
      invariant up + |BytesRead(script, putOks, i)| == |BytesRead(script, putOks, 0)|
    {
      hide Published, BytesRead;
      PublishedFrom(script, putOks, i);
      match script[i] {
        case Data(chunk) =>
          Fill(buf, chunk);
          up := up + |chunk|;
          var payload := buf[..|chunk|];
          if !putOks[i] { return; }
          puts := puts + [payload];
        case Eof =>
          if putOks[i] { puts := puts + [[]]; }
          return;
        case ReadError =>
          if putOks[i] { puts := puts + [[]]; }
          return;
      }
    }
  }

  /** Zenoh to TCP: receives until the close sentinel, the end of the samples, or a broken socket. */
  method ZenohToTcp(samples: seq<Payload>, writes: seq<WriteOutcome>) returns (down: nat, written: seq<Byte>)
    requires WritesOk(samples, writes)
    ensures written == Written(samples, writes, 0)
    ensures down == Counted(samples, writes, 0)
  {
    down, written := 0, [];
    for i := 0 to |samples|
      invariant written + Written(samples, writes, i) == Written(samples, writes, 0)
      invariant down + Counted(samples, writes, i) == Counted(samples, writes, 0)
    {
      var bytes := samples[i];
      if bytes == [] { return; }
      down := down + |bytes|;
      match writes[i] {
        case Wrote => written := written + bytes;
        case Broke(n) =>
          written := written + bytes[..n];
          return;
      }
    }
  }

  // ---- The loops are runs of the flow -------------------------------------------------------------

  lemma {:induction false} RunFlowCons(f: Flow, l: FlowLabel, ls: seq<FlowLabel>)
    ensures RunFlow(f, [l] + ls) == RunFlow(FlowStep(f, l), ls)
    decreases |ls|
  {
    hide FlowStep;
    if ls == [] {
      assert [l] + ls == [l] && [l][..0] == [];
      assert RunFlow(f, [l]) == FlowStep(RunFlow(f, []), l);
    } else {
      var front := ls[..|ls| - 1];
      RunFlowCons(f, l, front);
      assert ([l] + ls)[..|ls|] == [l] + front;
    }
  }

  lemma ReadThenPut(f: Flow, chunk: Payload, ok: bool)
    requires f.tx == Reading && 0 < |chunk| <= READ_BUF
    ensures var g := FlowStep(FlowStep(f, Read(chunk)), if ok then PutOk else PutFail);
      && g.read == f.read + chunk && g.up == f.up + |chunk|
      && g.puts == (if ok then f.puts + [chunk] else f.puts) && g.tx == (if ok then Reading else TxDone)
  {
  }

  lemma EndThenPut(f: Flow, ok: bool)
    requires f.tx == Reading
    ensures var g := FlowStep(FlowStep(f, ReadEnd), if ok then PutOk else PutFail);
      && g.read == f.read && g.up == f.up && g.tx == TxDone
      && g.puts == if ok then f.puts + [[]] else f.puts
  {
  }

  lemma RunTwo(f: Flow, a: FlowLabel, b: FlowLabel, ls: seq<FlowLabel>)
    ensures RunFlow(f, [a] + ([b] + ls)) == RunFlow(FlowStep(FlowStep(f, a), b), ls)
  {
    RunFlowCons(FlowStep(f, a), b, ls);
    RunFlowCons(f, a, [b] + ls);
  }

  lemma NearUnfold(script: seq<ReadOutcome>, putOks: seq<bool>, i: nat)
    requires i < |script| <= |putOks|
    ensures script[i].Data? && putOks[i] ==>
              && Published(script, putOks, i) == [script[i].chunk] + Published(script, putOks, i + 1)
              && BytesRead(script, putOks, i) == script[i].chunk + BytesRead(script, putOks, i + 1)
    ensures script[i].Data? && !putOks[i] ==>
              Published(script, putOks, i) == [] && BytesRead(script, putOks, i) == script[i].chunk
    ensures !script[i].Data? ==>
              Published(script, putOks, i) == (if putOks[i] then [[]] else []) && BytesRead(script, putOks, i) == []
  {
  }

  /** `g` is `f` after the near pump has handled the script from read `i` on. */
  predicate NearAfter(f: Flow, g: Flow, script: seq<ReadOutcome>, putOks: seq<bool>, i: nat)
    requires i <= |script| <= |putOks|
  {
    && g.puts == f.puts + Published(script, putOks, i)
    && g.read == f.read + BytesRead(script, putOks, i)
    && g.up == f.up + |BytesRead(script, putOks, i)|
  }

  lemma NearChunk(f: Flow, g: Flow, h: Flow, script: seq<ReadOutcome>, putOks: seq<bool>, i: nat)
    requires i < |script| <= |putOks| && script[i].Data? && putOks[i]
    requires g.puts == f.puts + [script[i].chunk] && g.read == f.read + script[i].chunk
    requires g.up == f.up + |script[i].chunk| && NearAfter(g, h, script, putOks, i + 1)
    ensures NearAfter(f, h, script, putOks, i)
  {
    var chunk := script[i].chunk;
    NearUnfold(script, putOks, i);
    hide Published, BytesRead;
    assert f.puts + [chunk] + Published(script, putOks, i + 1) == f.puts + ([chunk] + Published(script, putOks, i + 1));
    assert f.read + chunk + BytesRead(script, putOks, i + 1) == f.read + (chunk + BytesRead(script, putOks, i + 1));
  }

  lemma NearStops(f: Flow, g: Flow, script: seq<ReadOutcome>, putOks: seq<bool>, i: nat)
    requires i < |script| <= |putOks| && !(script[i].Data? && putOks[i])
    requires g.puts == f.puts + (if putOks[i] then [[]] else [])
    requires g.read == f.read + (if script[i].Data? then script[i].chunk else [])
    requires g.up == f.up + (if script[i].Data? then |script[i].chunk| else 0)
    ensures NearAfter(f, g, script, putOks, i)
  {
    NearUnfold(script, putOks, i);
    hide Published, BytesRead;
  }

  /** What the near pump publishes and counts is what the near half of a flow does. */
  lemma {:induction false} NearPumpIsFlow(f: Flow, script: seq<ReadOutcome>, putOks: seq<bool>, i: nat)
    returns (ls: seq<FlowLabel>)
    requires ReadsOk(script) && i <= |script| <= |putOks| && f.tx == Reading
    ensures NearAfter(f, RunFlow(f, ls), script, putOks, i)
    decreases |script| - i
  {
    if i == |script| {
      ls := [];
      FlowStart(f);
    } else {
      hide FlowStep, RunFlow, ReadsOk, NearAfter;
      var put := if putOks[i] then PutOk else PutFail;
      var first := if script[i].Data? then Read(script[i].chunk) else ReadEnd;
      var g := FlowStep(FlowStep(f, first), put);
      if script[i].Data? {
        ReadOkAt(script, i);
        ReadThenPut(f, script[i].chunk, putOks[i]);
      } else {
        EndThenPut(f, putOks[i]);
      }
      if script[i].Data? && putOks[i] {
        ls := NearPumpIsFlow(g, script, putOks, i + 1);
        NearChunk(f, g, RunFlow(g, ls), script, putOks, i);
      } else {
        ls := [];
        FlowStart(g);
        NearStops(f, g, script, putOks, i);
      }
      RunTwo(f, first, put, ls);
      ls := [first] + ([put] + ls);
    }
  }

  lemma ReadOkAt(script: seq<ReadOutcome>, i: nat)
    requires ReadsOk(script) && i < |script| && script[i].Data?
    ensures 0 < |script[i].chunk| <= READ_BUF
  {
  }

  lemma FlowStart(f: Flow)
    ensures RunFlow(f, []) == f
  {
  }

  lemma ReceiveOne(f: Flow, p: Payload, rest: seq<Payload>)
    requires f.rx == Waiting && f.chan != [] && f.chan[0] == p && f.chan[1..] == rest
    ensures var g := FlowStep(f, Receive);
      && g.chan == rest && g.written == f.written
      && (if p == [] then g.rx == RxDone && g.down == f.down else g.rx == Writing(p) && g.down == f.down + |p|)
  {
  }

  lemma WriteOne(f: Flow, p: Payload, w: WriteOutcome)
    requires f.rx == Writing(p) && (w.Broke? ==> w.n <= |p|)
    ensures var g := FlowStep(f, if w.Wrote? then WriteOk else WriteFail(w.n));
      && g.chan == f.chan && g.down == f.down && g.rx == (if w.Wrote? then Waiting else RxDone)
      && g.written == f.written + if w.Wrote? then p else p[..w.n]
  {
  }

  /** Steps of the near pump and of the session while the far pump waits. */
  predicate FarIdle(ls: seq<FlowLabel>) {
    forall i :: 0 <= i < |ls| ==> IsTxLabel(ls[i]) || ls[i] == Declare
  }

  lemma FarIdleStep(f: Flow, l: FlowLabel)
    requires IsTxLabel(l) || l == Declare
    ensures var g := FlowStep(f, l);
      g.rx == f.rx && g.written == f.written && g.down == f.down && f.chan <= g.chan
  {
  }

  lemma {:induction false} FarIdleRun(f: Flow, ls: seq<FlowLabel>)
    requires FarIdle(ls)
    ensures var g := RunFlow(f, ls);
      g.rx == f.rx && g.written == f.written && g.down == f.down && f.chan <= g.chan
    decreases |ls|
  {
    hide FlowStep;
    if ls != [] {
      var front := ls[..|ls| - 1];
      assert FarIdle(front);
      FarIdleRun(f, front);
      FarIdleStep(RunFlow(f, front), ls[|ls| - 1]);
    }
  }

  /** `samples` are what the far pump takes off the channel one by one when `env(i)` happens while it
      waits for the i-th: they may arrive long after the pump started. */
  ghost predicate Arrive(f: Flow, samples: seq<Payload>, writes: seq<WriteOutcome>, env: nat -> seq<FlowLabel>, i: nat)
    requires i <= |samples| && WritesOk(samples, writes)
    decreases |samples| - i
  {
    FarIdle(env(i)) &&
    (i < |samples| ==>
       var g := RunFlow(f, env(i));
       && g.chan != [] && g.chan[0] == samples[i]
       && (samples[i] != [] && writes[i].Wrote? ==>
             Arrive(FlowStep(FlowStep(g, Receive), WriteOk), samples, writes, env, i + 1)))
  }

  lemma {:induction false} RunFlowAppend(f: Flow, a: seq<FlowLabel>, b: seq<FlowLabel>)
    ensures RunFlow(f, a + b) == RunFlow(RunFlow(f, a), b)
    decreases |b|
  {
    hide FlowStep;
    if b == [] {
      assert a + b == a;
    } else {
      RunFlowAppend(f, a, b[..|b| - 1]);
      assert (a + b)[..|a + b| - 1] == a + b[..|b| - 1];
    }
  }

  /** `g` is `f` after the far pump has handled the samples from `i` on. */
  predicate FarAfter(f: Flow, g: Flow, samples: seq<Payload>, writes: seq<WriteOutcome>, i: nat)
    requires i <= |samples| && WritesOk(samples, writes)
  {
    g.written == f.written + Written(samples, writes, i) && g.down == f.down + Counted(samples, writes, i)
  }

  lemma FarSample(f: Flow, g: Flow, h: Flow, samples: seq<Payload>, writes: seq<WriteOutcome>, i: nat)
    requires i < |samples| && WritesOk(samples, writes) && samples[i] != [] && writes[i].Wrote?
    requires g.written == f.written + samples[i] && g.down == f.down + |samples[i]|
    requires FarAfter(g, h, samples, writes, i + 1)
    ensures FarAfter(f, h, samples, writes, i)
  {
    assert f.written + samples[i] + Written(samples, writes, i + 1) == f.written + (samples[i] + Written(samples, writes, i + 1));
  }

  /** What the far pump writes and counts is what the far half of a flow does, whatever the near pump
      does while it waits. */
  lemma {:induction false} FarPumpIsFlow(f: Flow, samples: seq<Payload>, writes: seq<WriteOutcome>,
                                         env: nat -> seq<FlowLabel>, i: nat)
    returns (ls: seq<FlowLabel>)
    requires WritesOk(samples, writes) && i <= |samples| && f.rx == Waiting && Arrive(f, samples, writes, env, i)
    ensures FarAfter(f, RunFlow(f, ls), samples, writes, i)
    decreases |samples| - i
  {
    hide FlowStep, RunFlow, FarAfter, FarIdle;
    FarIdleRun(f, env(i));
    var e := RunFlow(f, env(i));
    FlowStart(e);
    if i == |samples| {
      ls := [];
      FarDone(f, e, samples, writes, i);
    } else {
      var p, w := samples[i], writes[i];
      ReceiveOne(e, p, e.chan[1..]);
      var g := FlowStep(e, Receive);
      FlowStart(g);
      if p == [] {
        ls := [];
        FarDone(f, g, samples, writes, i);
      } else {
        var done := if w.Wrote? then WriteOk else WriteFail(w.n);
        WriteOne(g, p, w);
        var h := FlowStep(g, done);
        FlowStart(h);
        if w.Wrote? {
          ls := FarPumpIsFlow(h, samples, writes, env, i + 1);
          FarSample(f, h, RunFlow(h, ls), samples, writes, i);
        } else {
          ls := [];
          FarBroken(f, h, samples, writes, i);
        }
        RunFlowCons(g, done, ls);
        ls := [done] + ls;
      }
      RunFlowCons(e, Receive, ls);
      ls := [Receive] + ls;
    }
    RunFlowAppend(f, env(i), ls);
    ls := env(i) + ls;
  }

  lemma FarDone(f: Flow, g: Flow, samples: seq<Payload>, writes: seq<WriteOutcome>, i: nat)
    requires i <= |samples| && WritesOk(samples, writes) && (i < |samples| ==> samples[i] == [])
    requires g.written == f.written && g.down == f.down
    ensures FarAfter(f, g, samples, writes, i)
  {
    assert f.written + [] == f.written;
  }

  lemma FarBroken(f: Flow, g: Flow, samples: seq<Payload>, writes: seq<WriteOutcome>, i: nat)
    requires i < |samples| && WritesOk(samples, writes) && samples[i] != [] && writes[i].Broke?
    requires g.written == f.written + samples[i][..writes[i].n] && g.down == f.down + |samples[i]|
    ensures FarAfter(f, g, samples, writes, i)
  {
  }
}
